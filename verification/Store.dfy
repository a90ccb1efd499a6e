/** VaultStore: the vault file's contents in memory, edited in place and saved by writing a
    temporary file, syncing it, and renaming it over the vault. */
module Store {
  import opened Wrappers
  import opened Bytes
  import opened IdentityList
  import opened Disk

  /** Where, if anywhere, a Save goes wrong. Setting the mode is the one step after the rename. */
  datatype SaveFault = NoFault | MarshalFails | WriteFails(created: bool) | OpenFails | SyncFails | CloseFails
      | RenameFails | ChmodFails

  datatype OpenError = CannotCreateDirectory | CannotRead | CannotParse

  /** The vault file after a Save of `file` with this fault. */
  function Saved(was: Option<VaultFile>, file: VaultFile, fault: SaveFault): (now: Option<VaultFile>) {
    if fault.NoFault? || fault.ChmodFails? then Some(file) else was
  }

  const TMP_SUFFIX: Bytes := [0x2e, 0x74, 0x6d, 0x70]

  class VaultStore {
    const path: Path
    const fs: FileSystem
    var metadata: Option<Metadata>
    var identities: seq<Identity>

    /** What is at the vault path is either nothing or a complete, durable vault file. */
    ghost predicate Valid()
      reads this, fs
    {
      path in fs.files ==> fs.files[path].content.Image? && fs.files[path].synced
    }

    ghost function OnDisk(): (r: Option<VaultFile>)
      requires Valid()
      reads this, fs
    {
      if path in fs.files then Some(fs.files[path].content.file) else None
    }

    ghost function InMemory(): (r: VaultFile)
      reads this
    {
      VaultFile(metadata, identities)
    }

    constructor (fs: FileSystem, path: Path, metadata: Option<Metadata>, identities: seq<Identity>)
      ensures this.fs == fs && this.path == path
      ensures this.metadata == metadata && this.identities == identities
    {
      this.fs, this.path, this.metadata, this.identities := fs, path, metadata, identities;
    }

    /** Reads the vault at path; a missing file is an empty store ready for Init. */
    static method Open(fs: FileSystem, path: Path, mkdirOk: bool, readOk: bool)
      returns (store: VaultStore?, error: Option<OpenError>)
      ensures store == null <==> error.Some?
      ensures error == if !mkdirOk then Some(CannotCreateDirectory)
                       else if path in fs.files && !readOk then Some(CannotRead)
                       else if path in fs.files && fs.files[path].content.Torn? then Some(CannotParse)
                       else None
      ensures store != null ==> fresh(store) && store.fs == fs && store.path == path
      ensures store != null ==>
                store.InMemory() == if path in fs.files then fs.files[path].content.file else VaultFile(None, [])
    {
      if !mkdirOk { return null, Some(CannotCreateDirectory); }
      if path !in fs.files {
        store := new VaultStore(fs, path, None, []);
        return store, None;
      }
      if !readOk { return null, Some(CannotRead); }
      match fs.files[path].content {
        case Torn => return null, Some(CannotParse);
        case Image(file) =>
          store := new VaultStore(fs, path, file.metadata, file.identities);
          return store, None;
      }
    }

    /** Every state passed through, and every crash from it, has at the vault path exactly the
        complete old file or the complete new one; only a failure to set the mode reports an error
        after the new file is in place. No temporary file that was written is left behind. */
    method Save(fault: SaveFault) returns (ok: bool)
      requires Valid()
      modifies fs
      ensures Valid()
      ensures ok == fault.NoFault?
      ensures OnDisk() == Saved(old(OnDisk()), InMemory(), fault)
      ensures forall p :: p != path && p != path + TMP_SUFFIX ==> ContentAt(fs.files, p) == ContentAt(old(fs.files), p)
      ensures !fault.MarshalFails? && !fault.WriteFails? ==> path + TMP_SUFFIX !in fs.files
      ensures fault in {MarshalFails, WriteFails(false)} ==> fs.files == old(fs.files)
      ensures old(fs.history) <= fs.history
      ensures forall k, after :: |old(fs.history)| <= k < |fs.history| && CrashesTo(fs.history[k], after) ==>
                ContentAt(after, path) == ContentAt(old(fs.files), path)
                || ContentAt(after, path) == Some(Image(InMemory()))
    {
      if fault.MarshalFails? { return false; }
      var tmp := path + TMP_SUFFIX;
      assert tmp != path by { assert |tmp| != |path|; }
      var content := Image(VaultFile(metadata, identities));
      var written := fs.WriteFile(tmp, content, fault != WriteFails(false), !fault.WriteFails?);
      if !written { return false; }
      if fault.OpenFails? {
        fs.RemoveFile(tmp);
        return false;
      }
      if fault.SyncFails? {
        fs.RemoveFile(tmp);
        return false;
      }
      fs.Sync(tmp);
      if fault.CloseFails? {
        fs.RemoveFile(tmp);
        return false;
      }
      if fault.RenameFails? {
        fs.RemoveFile(tmp);
        return false;
      }
      fs.Rename(tmp, path);
      return !fault.ChmodFails?;
    }

    method GetMetadata() returns (m: Option<Metadata>)
      ensures m == metadata
    {
      m := metadata;
    }

    method SetMetadata(m: Option<Metadata>)
      modifies this
      ensures metadata == m && identities == old(identities)
    {
      metadata := m;
    }

    /** The rows of identities that autoload and are not hidden, or were loaded for the session. */
    method ListIdentitiesForAgent(sessionSet: set<Fp>, hiddenSet: set<Fp>) returns (out: seq<Row>)
      ensures out == RowsWhere(identities,
                (id: Identity) => if id.autoload then id.fingerprint !in hiddenSet else id.fingerprint in sessionSet)
    {
      ghost var shown := (id: Identity) => if id.autoload then id.fingerprint !in hiddenSet
          else id.fingerprint in sessionSet;
      out := [];
      for i := 0 to |identities|
        invariant out == RowsWhere(identities[..i], shown)
      {
        var id := identities[i];
        assert identities[..i + 1][..i] == identities[..i];
        if id.autoload {
          if id.fingerprint in hiddenSet {
            continue;
          }
          out := out + [Row(id.publicKey, id.comment)];
          continue;
        }
        if id.fingerprint in sessionSet {
          out := out + [Row(id.publicKey, id.comment)];
        }
      }
      assert identities[..|identities|] == identities;
    }

    method GetIdentity(fingerprint: Fp) returns (blob: Bytes, autoload: bool, found: bool)
      ensures found == Find(identities, fingerprint).Some?
      ensures found ==> blob == Find(identities, fingerprint).value.encryptedBlob
                        && autoload == Find(identities, fingerprint).value.autoload
      ensures !found ==> blob == [] && !autoload
    {
      for i := 0 to |identities|
        invariant forall j :: 0 <= j < i ==> identities[j].fingerprint != fingerprint
      {
        if identities[i].fingerprint == fingerprint {
          FirstAt(identities, fingerprint, i);
          return identities[i].encryptedBlob, identities[i].autoload, true;
        }
      }
      return [], false, false;
    }

    /** Stamps the identity and overwrites the entry with its fingerprint, or appends it. */
    method AddOrReplaceIdentity(id: Identity, now: int)
      modifies this
      ensures identities == Put(old(identities), id.(addedAt := now))
      ensures metadata == old(metadata)
    {
      var stamped := id.(addedAt := now);
      for i := 0 to |identities|
        invariant identities == old(identities)
        invariant forall j :: 0 <= j < i ==> identities[j].fingerprint != id.fingerprint
      {
        if identities[i].fingerprint == id.fingerprint {
          FirstAt(identities, id.fingerprint, i);
          identities := identities[i := stamped];
          return;
        }
      }
      identities := identities + [stamped];
    }

    /** Compacts the list over itself: kept entries are written back at `n`, never past the one
        being read, and the list is cut there. */
    method RemoveIdentity(fingerprint: Fp) returns (removed: bool)
      modifies this
      ensures identities == Without(old(identities), {fingerprint})
      ensures removed == Find(old(identities), fingerprint).Some?
      ensures metadata == old(metadata)
    {
      ghost var was := identities;
      var n := 0;
      removed := false;
      for i := 0 to |identities|
        invariant |identities| == |was| && n <= i && metadata == old(metadata)
        invariant identities[i..] == was[i..]
        invariant identities[..n] == Without(was[..i], {fingerprint})
        invariant removed == exists j :: 0 <= j < i && was[j].fingerprint == fingerprint
      {
        var id := identities[i];
        assert id == was[i] by { assert identities[i..][0] == was[i..][0]; }
        assert was[..i + 1][..i] == was[..i];
        ghost var before := identities;
        if id.fingerprint != fingerprint {
          identities := identities[n := id];
          assert identities[..n + 1] == before[..n] + [id];
          assert identities[i + 1..] == before[i..][1..];
          n := n + 1;
        } else {
          removed := true;
          assert identities[i + 1..] == before[i..][1..];
        }
        assert was[i..][1..] == was[i + 1..];
      }
      identities := identities[..n];
      assert was[..|was|] == was;
    }

    method RemoveAllIdentities()
      modifies this
      ensures identities == [] && metadata == old(metadata)
    {
      identities := [];
    }

    method AllIdentities() returns (out: seq<Identity>)
      ensures out == identities
    {
      out := identities;
    }
  }
}
