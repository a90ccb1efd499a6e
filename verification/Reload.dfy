/** Reloading the configuration: the running agent's keys are reconciled with the configured ones. */
module Reload {
  import opened Wrappers
  import opened Bytes
  import opened Crypto
  import opened IdentityList
  import opened Disk
  import opened VaultMachine
  import opened Provenance
  import opened VaultBehaviour

  datatype KeyInfo = KeyInfo(comment: Bytes, publicKey: Bytes, privateKey: Option<PrivateKey>)

  /** A configured key path, read: its public key, comment and private key, or nothing usable. */
  datatype PathRead = Unusable | Parsed(publicKey: Bytes, comment: Bytes, privateKey: PrivateKey)

  /** The vault the agent is configured with, if any, and whether its file could be opened. */
  datatype VaultRead = NoVault | CannotOpen | Opened(ids: seq<Identity>)

  /** Public key blobs that parse. */
  type Parses = Bytes -> bool

  ghost function PathKeys(p: Primitives, paths: seq<PathRead>): (r: map<Fp, KeyInfo>) {
    if paths == [] then map[]
    else
      var before := PathKeys(p, paths[..|paths| - 1]);
      match paths[|paths| - 1]
      case Unusable => before
      case Parsed(publicKey, comment, privateKey) =>
        before[p.fingerprint(publicKey) := KeyInfo(comment, publicKey, Some(privateKey))]
  }

  /** Vault identities join the configured keys; a key already there keeps its private half. */
  ghost function WithVault(p: Primitives, parses: Parses, keys: map<Fp, KeyInfo>, ids: seq<Identity>)
    : (r: map<Fp, KeyInfo>)
  {
    if ids == [] then keys
    else
      var before := WithVault(p, parses, keys, ids[..|ids| - 1]);
      var id := ids[|ids| - 1];
      var fp := p.fingerprint(id.publicKey);
      if !parses(id.publicKey) || fp in before then before
      else before[fp := KeyInfo(id.comment, id.publicKey, None)]
  }

  ghost function Desired(p: Primitives, parses: Parses, paths: seq<PathRead>, vault: VaultRead): (r: map<Fp, KeyInfo>) {
    match vault
    case Opened(ids) => WithVault(p, parses, PathKeys(p, paths), ids)
    case _ => PathKeys(p, paths)
  }

  /** A key path is configured under its fingerprint; when several are, the last one read stands. */
  lemma {:induction false} PathKeysExactly(p: Primitives, paths: seq<PathRead>, fp: Fp)
    ensures fp in PathKeys(p, paths) <==>
              exists i :: 0 <= i < |paths| && paths[i].Parsed? && p.fingerprint(paths[i].publicKey) == fp
    ensures fp in PathKeys(p, paths) ==>
              exists i :: 0 <= i < |paths| && paths[i].Parsed? && p.fingerprint(paths[i].publicKey) == fp
                && PathKeys(p, paths)[fp] == KeyInfo(paths[i].comment, paths[i].publicKey, Some(paths[i].privateKey))
                && forall j :: i < j < |paths| && paths[j].Parsed? ==> p.fingerprint(paths[j].publicKey) != fp
  {
    if paths == [] {
    } else {
      var front, last := paths[..|paths| - 1], |paths| - 1;
      PathKeysExactly(p, front, fp);
      assert forall i :: 0 <= i < |front| ==> front[i] == paths[i];
      if !(paths[last].Parsed? && p.fingerprint(paths[last].publicKey) == fp) && fp in PathKeys(p, front) {
        var i :| 0 <= i < |front| && front[i].Parsed? && p.fingerprint(front[i].publicKey) == fp
          && PathKeys(p, front)[fp] == KeyInfo(front[i].comment, front[i].publicKey, Some(front[i].privateKey))
          && forall j :: i < j < |front| && front[j].Parsed? ==> p.fingerprint(front[j].publicKey) != fp;
        assert paths[i] == front[i];
      }
    }
  }

  lemma {:induction false} WithVaultExactly(p: Primitives, parses: Parses, keys: map<Fp, KeyInfo>, ids: seq<Identity>)
    ensures forall fp :: fp in WithVault(p, parses, keys, ids) <==>
              fp in keys || exists id :: id in ids && parses(id.publicKey) && p.fingerprint(id.publicKey) == fp
    ensures forall fp :: fp in keys ==> WithVault(p, parses, keys, ids)[fp] == keys[fp]
    ensures forall fp :: fp in WithVault(p, parses, keys, ids) && fp !in keys ==>
              WithVault(p, parses, keys, ids)[fp].privateKey.None?
  {
    if ids == [] {
    } else {
      var front, last := ids[..|ids| - 1], ids[|ids| - 1];
      WithVaultExactly(p, parses, keys, front);
      assert ids == front + [last];
      assert forall id :: id in ids <==> id in front || id == last;
    }
  }

  /** A key only the vault asks for carries the comment and public key of an identity of that fingerprint. */
  lemma {:induction false} VaultKeysExactly(p: Primitives, parses: Parses, keys: map<Fp, KeyInfo>, ids: seq<Identity>,
      fp: Fp)
    requires fp in WithVault(p, parses, keys, ids) && fp !in keys
    ensures exists id :: id in ids && parses(id.publicKey) && p.fingerprint(id.publicKey) == fp
              && WithVault(p, parses, keys, ids)[fp] == KeyInfo(id.comment, id.publicKey, None)
  {
    if ids == [] {
    } else {
      var front, last := ids[..|ids| - 1], ids[|ids| - 1];
      if fp in WithVault(p, parses, keys, front) {
        VaultKeysExactly(p, parses, keys, front, fp);
        assert forall id :: id in front ==> id in ids;
      } else {
        assert last in ids;
      }
    }
  }

  /** The loops of desiredKeysFromConfig. */
  method DesiredKeys(p: Primitives, parses: Parses, paths: seq<PathRead>, vault: VaultRead)
      returns (configByFp: map<Fp, KeyInfo>)
    ensures configByFp == Desired(p, parses, paths, vault)
  {
    configByFp := map[];
    for i := 0 to |paths|
      invariant configByFp == PathKeys(p, paths[..i])
    {
      assert paths[..i + 1][..i] == paths[..i];
      if paths[i].Parsed? {
        configByFp := configByFp[p.fingerprint(paths[i].publicKey) :=
          KeyInfo(paths[i].comment, paths[i].publicKey, Some(paths[i].privateKey))];
      }
    }
    assert paths[..|paths|] == paths;
    if !vault.Opened? { return; }
    ghost var fromPaths := configByFp;
    for i := 0 to |vault.ids|
      invariant configByFp == WithVault(p, parses, fromPaths, vault.ids[..i])
    {
      assert vault.ids[..i + 1][..i] == vault.ids[..i];
      var id := vault.ids[i];
      if !parses(id.publicKey) { continue; }
      var fp := p.fingerprint(id.publicKey);
      if fp in configByFp { continue; }
      configByFp := configByFp[fp := KeyInfo(id.comment, id.publicKey, None)];
    }
    assert vault.ids[..|vault.ids|] == vault.ids;
  }

  /** An agent reached over a session: the fingerprints it serves, and those it will not change. */
  class LiveAgent {
    var live: set<Fp>
    const refuses: set<Fp>

    constructor (live: set<Fp>, refuses: set<Fp>)
      ensures this.live == live && this.refuses == refuses
    {
      this.live, this.refuses := live, refuses;
    }

    method Add(fp: Fp) returns (ok: bool)
      modifies this
      ensures ok == (fp !in refuses)
      ensures live == if ok then old(live) + {fp} else old(live)
    {
      ok := fp !in refuses;
      if ok { live := live + {fp}; }
    }

    method Remove(fp: Fp) returns (ok: bool)
      modifies this
      ensures ok == (fp !in refuses)
      ensures live == if ok then old(live) - {fp} else old(live)
    {
      ok := fp !in refuses;
      if ok { live := live - {fp}; }
    }
  }

  ghost function WithPrivate(config: map<Fp, KeyInfo>): (r: set<Fp>) {
    set fp | fp in config && config[fp].privateKey.Some?
  }

  /** Where reconciling leaves the agent. */
  ghost function Reconciled(live: set<Fp>, config: map<Fp, KeyInfo>, refuses: set<Fp>): (r: set<Fp>) {
    (live * config.Keys) + (WithPrivate(config) - refuses) + (live * refuses)
  }

  /** applyDiff: adds are decided, like removals, against the keys listed at the start, and made in
      whatever order the map gives them. A change the agent refuses is reported and skipped. */
  method ApplyDiff(agent: LiveAgent, config: map<Fp, KeyInfo>)
    modifies agent
    ensures agent.live == Reconciled(old(agent.live), config, agent.refuses)
  {
    var liveByFp := agent.live;
    var todo := config.Keys;
    while todo != {}
      invariant todo <= config.Keys
      invariant agent.live == liveByFp + (WithPrivate(config) - todo - agent.refuses)
      decreases todo
    {
      var fp :| fp in todo;
      todo := todo - {fp};
      if config[fp].privateKey.None? { continue; }
      if fp !in liveByFp {
        var _ := agent.Add(fp);
      }
    }
    ghost var added := agent.live;
    todo := liveByFp;
    while todo != {}
      invariant todo <= liveByFp
      invariant agent.live == added - ((liveByFp - todo) - config.Keys - agent.refuses)
      decreases todo
    {
      var fp :| fp in todo;
      todo := todo - {fp};
      if fp !in config {
        var _ := agent.Remove(fp);
      }
    }
  }

  /** If every call succeeds, the agent ends with the live keys that are configured and the configured
      keys whose private half is at hand, and reconciling again changes nothing. */
  lemma ReconcilingSettles(live: set<Fp>, config: map<Fp, KeyInfo>)
    ensures Reconciled(live, config, {}) == (live * config.Keys) + WithPrivate(config)
    ensures Reconciled(Reconciled(live, config, {}), config, {}) == Reconciled(live, config, {})
  {
  }

  // ----- over the vault agent -----

  /** The fingerprints a vault agent lists. */
  ghost function LiveIn(p: Primitives, v: Vault): (r: set<Fp>) {
    set row | row in Listing(v) :: p.fingerprint(row.publicKey)
  }

  lemma LiveIsShown(p: Primitives, v: Vault, fp: Fp)
    requires Filed(p, v) && Unique(v.ids)
    ensures fp in LiveIn(p, v) <==> Shows(v, fp)
  {
    if fp in LiveIn(p, v) {
      var row :| row in Listing(v) && p.fingerprint(row.publicKey) == fp;
      RowsExactly(v.ids, (id: Identity) => Listed(v, id), row);
      var id :| id in v.ids && Listed(v, id) && row == Row(id.publicKey, id.comment);
      assert Stored(v, id);
      FindUnique(v.ids, id);
    }
    if Shows(v, fp) {
      var id := Find(v.ids, fp).value;
      assert Stored(v, id);
      RowsExactly(v.ids, (id: Identity) => Listed(v, id), Row(id.publicKey, id.comment));
    }
  }

  /** The opened vault file has an identity of this fingerprint whose public key parses. */
  ghost predicate InVaultFile(p: Primitives, parses: Parses, vault: VaultRead, fp: Fp) {
    vault.Opened? && exists id :: id in vault.ids && parses(id.publicKey) && p.fingerprint(id.publicKey) == fp
  }

  /** Exactly what a reload takes out of a vault agent, whatever the file turned out to be: the listed
      identities that are neither among the key paths nor in the vault file. */
  lemma ReloadRemoves(p: Primitives, v: Vault, parses: Parses, paths: seq<PathRead>, vault: VaultRead)
    requires Filed(p, v) && Unique(v.ids)
    ensures var removed := LiveIn(p, v) - Desired(p, parses, paths, vault).Keys;
            forall fp :: fp in removed <==>
              Shows(v, fp) && fp !in PathKeys(p, paths) && !InVaultFile(p, parses, vault, fp)
  {
    if vault.Opened? { WithVaultExactly(p, parses, PathKeys(p, paths), vault.ids); }
    forall fp
      ensures fp in LiveIn(p, v) <==> Shows(v, fp)
    {
      LiveIsShown(p, v, fp);
    }
  }

  /** Nothing is removed if and only if every listed identity is among the key paths or in the vault file
      as it opened. A file that holds the agent's own store always qualifies; without a vault, or with
      one that does not open, only key paths count. */
  lemma ReloadRemovesNothingIff(p: Primitives, v: Vault, parses: Parses, paths: seq<PathRead>, vault: VaultRead)
    requires Filed(p, v) && Unique(v.ids)
    ensures var removed := LiveIn(p, v) - Desired(p, parses, paths, vault).Keys;
            && (removed == {} <==>
                  forall fp :: Shows(v, fp) ==> fp in PathKeys(p, paths) || InVaultFile(p, parses, vault, fp))
            && (vault == VaultRead.Opened(v.ids) && (forall id :: id in v.ids ==> parses(id.publicKey)) ==>
                  removed == {})
            && (!vault.Opened? ==>
                  (removed == {} <==> forall fp :: Shows(v, fp) ==> fp in PathKeys(p, paths)))
  {
    ReloadRemoves(p, v, parses, paths, vault);
    var removed := LiveIn(p, v) - Desired(p, parses, paths, vault).Keys;
    if removed != {} {
      var fp :| fp in removed;
      assert Shows(v, fp);
      assert Stored(v, Find(v.ids, fp).value);
    }
  }

  /** A vault file that is missing opens as an empty store, so without key paths a reload removes every
      identity the agent lists, as it does when the file cannot be opened at all. */
  lemma MissingFileEmptiesTheAgent(p: Primitives, v: Vault, parses: Parses)
    ensures LiveIn(p, v) - Desired(p, parses, [], VaultRead.Opened([])).Keys == LiveIn(p, v)
    ensures LiveIn(p, v) - Desired(p, parses, [], CannotOpen).Keys == LiveIn(p, v)
  {
  }

  // ----- reconciling a vault agent -----

  /** The fingerprint an add or a removal is about. */
  function About(p: Primitives, c: Command): (fp: Option<Fp>) {
    match c
    case Add(key) => if PublicOf(p, key.key).Some? then Some(p.fingerprint(PublicOf(p, key.key).value)) else None
    case Remove(publicKey) => Some(p.fingerprint(publicKey))
    case _ => None
  }

  lemma FilingAfter(p: Primitives, v: Vault, c: Command, env: Env)
    requires Filed(p, v) && Unique(v.ids) && (c.Add? || c.Remove?)
    ensures Filed(p, Apply(p, v, c, env).0) && Unique(Apply(p, v, c, env).0.ids)
  {
    StepKeepsFiling(p, v, c, env);
    if c.Add? {
      if PublicOf(p, c.key.key).Some? && v.key.Some? && MarshalPrivateKey(p, c.key.key).Some? {
        var encrypted := EncryptBlob(p, v.key.value, env.iv, MarshalPrivateKey(p, c.key.key).value);
        if encrypted.Ok? {
          PutUnique(v.ids, NewIdentity(p, c.key, PublicOf(p, c.key.key).value, encrypted.value, false, [], env.now));
        }
      }
    } else {
      WithoutUnique(v.ids, {p.fingerprint(c.publicKey)});
    }
  }

  /** One change to what a vault agent lists. A refusal that is not a failed save changes nothing. */
  lemma ChangeShows(p: Primitives, v: Vault, c: Command, env: Env, g: Fp)
    requires c.Add? || c.Remove?
    requires Apply(p, v, c, env).1 != Failed(SaveFailed)
    ensures var (after, reply) := Apply(p, v, c, env);
            Shows(after, g) <==>
              if reply.Done? && About(p, c) == Some(g) then c.Add? else Shows(v, g)
  {
    var (after, reply) := Apply(p, v, c, env);
    if c.Add? {
      if reply.Done? { AddEffect(p, v, c.key, false, [], env); }
    } else {
      FindAfterWithout(v.ids, {p.fingerprint(c.publicKey)}, g);
    }
  }

  /** The fingerprints that commands of one kind are about. */
  ghost function Targets(p: Primitives, steps: seq<Step>, adding: bool): (r: set<Fp>) {
    set i | 0 <= i < |steps| && steps[i].command.Add? == adding && About(p, steps[i].command).Some?
      :: About(p, steps[i].command).value
  }

  /** The agent does as asked unless it refuses the key; no save fails. */
  predicate Answered(p: Primitives, c: Command, reply: Reply, refuses: set<Fp>) {
    && About(p, c).Some?
    && reply != Failed(SaveFailed)
    && (reply.Done? <==> About(p, c).value !in refuses)
  }

  /** A run of adds and removals, each answered so. */
  ghost predicate Changes(p: Primitives, v: Vault, steps: seq<Step>, refuses: set<Fp>) {
    && (forall i :: 0 <= i < |steps| ==> steps[i].command.Add? || steps[i].command.Remove?)
    && (forall i :: 0 <= i < |steps| ==> Answered(p, steps[i].command, ReplyAt(p, v, steps, i), refuses))
  }

  /** Adds and removals, in any order, of disjoint sets: what is listed afterwards is what was, with what
      could be added and without what could be removed. */
  lemma {:induction false} ChangesShow(p: Primitives, v: Vault, steps: seq<Step>, refuses: set<Fp>)
    requires Filed(p, v) && Unique(v.ids)
    requires Changes(p, v, steps, refuses) && Targets(p, steps, true) * Targets(p, steps, false) == {}
    ensures Filed(p, Run(p, v, steps)) && Unique(Run(p, v, steps).ids)
    ensures forall fp :: Shows(Run(p, v, steps), fp) <==>
              if fp in Targets(p, steps, true) - refuses then true
              else if fp in Targets(p, steps, false) - refuses then false
              else Shows(v, fp)
  {
    if steps == [] {
    } else {
      var front, last := steps[..|steps| - 1], steps[|steps| - 1];
      ChangesOfFront(p, v, steps, refuses);
      TargetsOfFront(p, steps, true);
      TargetsOfFront(p, steps, false);
      ChangesShow(p, v, front, refuses);
      LastChangeShows(p, Run(p, v, front), last, refuses);
    }
  }

  lemma ChangesOfFront(p: Primitives, v: Vault, steps: seq<Step>, refuses: set<Fp>)
    requires Changes(p, v, steps, refuses) && steps != []
    ensures Changes(p, v, steps[..|steps| - 1], refuses)
    ensures var before, last := Run(p, v, steps[..|steps| - 1]), steps[|steps| - 1];
            && (last.command.Add? || last.command.Remove?)
            && Answered(p, last.command, Apply(p, before, last.command, last.env).1, refuses)
  {
    var n := |steps| - 1;
    var front := steps[..n];
    forall i | 0 <= i < n
      ensures steps[i] == front[i] && ReplyAt(p, v, front, i) == ReplyAt(p, v, steps, i)
    {
      assert front[..i] == steps[..i];
    }
    assert Answered(p, steps[n].command, ReplyAt(p, v, steps, n), refuses);
  }

  lemma LastChangeShows(p: Primitives, v: Vault, last: Step, refuses: set<Fp>)
    requires Filed(p, v) && Unique(v.ids) && (last.command.Add? || last.command.Remove?)
    requires Answered(p, last.command, Apply(p, v, last.command, last.env).1, refuses)
    ensures var after := Apply(p, v, last.command, last.env).0;
            && Filed(p, after) && Unique(after.ids)
            && forall fp :: Shows(after, fp) <==>
                 if fp == About(p, last.command).value && fp !in refuses then last.command.Add? else Shows(v, fp)
  {
    FilingAfter(p, v, last.command, last.env);
    forall fp
      ensures Shows(Apply(p, v, last.command, last.env).0, fp) <==>
                if fp == About(p, last.command).value && fp !in refuses then last.command.Add? else Shows(v, fp)
    {
      ChangeShows(p, v, last.command, last.env, fp);
    }
  }

  lemma TargetsOfFront(p: Primitives, steps: seq<Step>, adding: bool)
    requires steps != []
    ensures var last := steps[|steps| - 1].command;
            Targets(p, steps, adding) == Targets(p, steps[..|steps| - 1], adding)
              + if last.Add? == adding && About(p, last).Some? then {About(p, last).value} else {}
  {
    var n := |steps| - 1;
    var front := steps[..n];
    forall fp | fp in Targets(p, steps, adding)
      ensures fp in Targets(p, front, adding)
              || (steps[n].command.Add? == adding && About(p, steps[n].command) == Some(fp))
    {
      var i :| 0 <= i < |steps| && steps[i].command.Add? == adding && About(p, steps[i].command) == Some(fp);
      if i < n { assert front[i] == steps[i]; }
    }
    forall fp | fp in Targets(p, front, adding)
      ensures fp in Targets(p, steps, adding)
    {
      var i :| 0 <= i < |front| && front[i].command.Add? == adding && About(p, front[i].command) == Some(fp);
      assert steps[i] == front[i];
    }
  }

  /** Over a vault agent, the adds and removals that reconciling decides on, made in any order, take what
      it lists to what reconciling promises. */
  lemma ReconcilesAVaultAgent(p: Primitives, v: Vault, config: map<Fp, KeyInfo>, steps: seq<Step>, refuses: set<Fp>)
    requires Filed(p, v) && Unique(v.ids) && Changes(p, v, steps, refuses)
    requires Targets(p, steps, true) == WithPrivate(config) - LiveIn(p, v)
    requires Targets(p, steps, false) == LiveIn(p, v) - config.Keys
    ensures LiveIn(p, Run(p, v, steps)) == Reconciled(LiveIn(p, v), config, refuses)
  {
    ChangesShow(p, v, steps, refuses);
    forall fp
      ensures fp in LiveIn(p, v) <==> Shows(v, fp)
      ensures fp in LiveIn(p, Run(p, v, steps)) <==> Shows(Run(p, v, steps), fp)
    {
      LiveIsShown(p, v, fp);
      LiveIsShown(p, Run(p, v, steps), fp);
    }
  }

  /** Reconciling adds a configured key that is stored but not listed by replacing it: it is listed for
      this session, and no longer autoloads or remembers its file after it. */
  lemma ReconcilingReplacesUnlisted(p: Primitives, v: Vault, key: AddedKey, env: Env)
    requires Apply(p, v, Add(key), env).1.Done?
    ensures var after := Apply(p, v, Add(key), env).0;
            var fp := p.fingerprint(PublicOf(p, key.key).value);
            && Shows(after, fp) && !Find(after.ids, fp).value.autoload && Find(after.ids, fp).value.filepath == []
            && !Shows(VaultMachine.Opened(after.disk), fp)
            && (Find(v.ids, fp).Some? ==> Order(after.ids) == Order(v.ids))
  {
    AddEffect(p, v, key, false, [], env);
  }
}
