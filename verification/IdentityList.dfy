/** The vault's identity list as a value: first-match lookup, replace-or-append, order-keeping
    removal, and the insertion-ordered map these implement. */
module IdentityList {
  import opened Wrappers
  import opened Bytes

  type Fp = Bytes

  datatype Identity = Identity(
    fingerprint: Fp,
    publicKey: Bytes,
    encryptedBlob: Bytes,
    comment: Bytes,
    filepath: Bytes,
    accessTime: Bytes,
    addedAt: int,
    autoload: bool,
    expiresAt: Option<int>)

  /** What List reports of an identity. */
  datatype Row = Row(publicKey: Bytes, comment: Bytes)

  ghost function Fps(ids: seq<Identity>): (r: set<Fp>)
    ensures forall id :: id in ids ==> id.fingerprint in r
  {
    set id | id in ids :: id.fingerprint
  }

  ghost predicate Unique(ids: seq<Identity>) {
    forall i, j :: 0 <= i < j < |ids| ==> ids[i].fingerprint != ids[j].fingerprint
  }

  /** Position of the first identity with this fingerprint, or the length of the list. */
  function IndexOf(ids: seq<Identity>, fp: Fp): (k: nat)
    ensures k <= |ids|
    ensures k < |ids| ==> ids[k].fingerprint == fp
    ensures forall j :: 0 <= j < k ==> ids[j].fingerprint != fp
  {
    if ids == [] then 0
    else if ids[0].fingerprint == fp then 0
    else 1 + IndexOf(ids[1..], fp)
  }

  function Find(ids: seq<Identity>, fp: Fp): (r: Option<Identity>)
    ensures r.Some? ==> r.value in ids && r.value.fingerprint == fp
    ensures r.None? <==> forall id :: id in ids ==> id.fingerprint != fp
  {
    var k := IndexOf(ids, fp);
    if k < |ids| then Some(ids[k]) else None
  }

  lemma FindUnique(ids: seq<Identity>, id: Identity)
    requires Unique(ids) && id in ids
    ensures Find(ids, id.fingerprint) == Some(id)
  {
  }

  /** Replaces the first identity with the same fingerprint where it stands, or appends. */
  function Put(ids: seq<Identity>, id: Identity): (r: seq<Identity>) {
    var k := IndexOf(ids, id.fingerprint);
    if k < |ids| then ids[k := id] else ids + [id]
  }

  /** Drops every identity whose fingerprint is in `gone`, keeping the others in order. */
  function Without(ids: seq<Identity>, gone: set<Fp>): (r: seq<Identity>) {
    if ids == [] then []
    else
      var last := ids[|ids| - 1];
      Without(ids[..|ids| - 1], gone) + (if last.fingerprint in gone then [] else [last])
  }

  lemma {:induction false} WithoutMembers(ids: seq<Identity>, gone: set<Fp>)
    ensures forall id :: id in Without(ids, gone) <==> id in ids && id.fingerprint !in gone
  {
    if ids == [] {
    } else {
      var front, last := ids[..|ids| - 1], ids[|ids| - 1];
      WithoutMembers(front, gone);
      assert ids == front + [last];
    }
  }

  /** The rows of the identities that `shown` selects, in store order. */
  function RowsWhere(ids: seq<Identity>, shown: Identity -> bool): (r: seq<Row>) {
    if ids == [] then []
    else
      var last := ids[|ids| - 1];
      RowsWhere(ids[..|ids| - 1], shown) + (if shown(last) then [Row(last.publicKey, last.comment)] else [])
  }

  lemma {:induction false} RowsAgree(ids: seq<Identity>, f: Identity -> bool, g: Identity -> bool)
    requires forall id :: id in ids ==> f(id) == g(id)
    ensures RowsWhere(ids, f) == RowsWhere(ids, g)
  {
    if ids == [] {
    } else {
      RowsAgree(ids[..|ids| - 1], f, g);
    }
  }

  /** Rows come in store order: listing distributes over concatenation, and one identity gives one row or
      none. */
  lemma {:induction false} RowsInOrder(a: seq<Identity>, b: seq<Identity>, shown: Identity -> bool)
    ensures RowsWhere(a + b, shown) == RowsWhere(a, shown) + RowsWhere(b, shown)
    ensures |a| == 1 ==> RowsWhere(a, shown) == if shown(a[0]) then [Row(a[0].publicKey, a[0].comment)] else []
  {
    if |a| == 1 { assert a[..0] == []; }
    if b == [] {
      assert a + b == a;
    } else {
      var front, last := b[..|b| - 1], b[|b| - 1];
      assert (a + b)[..|a + b| - 1] == a + front;
      RowsInOrder(a, front, shown);
    }
  }

  /** A row is reported exactly for the identities selected. */
  lemma {:induction false} RowsExactly(ids: seq<Identity>, shown: Identity -> bool, row: Row)
    ensures row in RowsWhere(ids, shown) <==>
            exists id :: id in ids && shown(id) && row == Row(id.publicKey, id.comment)
  {
    if ids == [] {
    } else {
      var front, last := ids[..|ids| - 1], ids[|ids| - 1];
      RowsExactly(front, shown, row);
      assert forall id :: id in ids <==> id in front || id == last;
    }
  }

  /** Listing after removal is listing with the removed fingerprints deselected. */
  lemma {:induction false} RowsOfWithout(ids: seq<Identity>, gone: set<Fp>, shown: Identity -> bool,
      kept: Identity -> bool)
    requires forall id :: id in ids ==> kept(id) == (id.fingerprint !in gone && shown(id))
    ensures RowsWhere(Without(ids, gone), shown) == RowsWhere(ids, kept)
  {
    if ids == [] {
    } else {
      var front, last := ids[..|ids| - 1], ids[|ids| - 1];
      assert last in ids && forall id :: id in front ==> id in ids;
      RowsOfWithout(front, gone, shown, kept);
      var after := Without(front, gone);
      if last.fingerprint in gone {
        assert Without(ids, gone) == after;
        assert RowsWhere(ids, kept) == RowsWhere(front, kept);
      } else {
        assert (after + [last])[..|after|] == after;
      }
    }
  }

  // ----- the insertion-ordered map -----

  ghost function Order(ids: seq<Identity>): (r: seq<Fp>) {
    seq(|ids|, i requires 0 <= i < |ids| => ids[i].fingerprint)
  }

  ghost function AsMap(ids: seq<Identity>): (r: map<Fp, Identity>)
    ensures r.Keys == Fps(ids)
  {
    map fp | fp in Fps(ids) :: ids[IndexOf(ids, fp)]
  }

  lemma PutMembers(ids: seq<Identity>, id: Identity)
    ensures forall x :: x in Put(ids, id) ==> x == id || x in ids
    ensures id in Put(ids, id)
    ensures Fps(Put(ids, id)) == Fps(ids) + {id.fingerprint}
    ensures id.fingerprint in Fps(ids) <==> IndexOf(ids, id.fingerprint) < |ids|
  {
    var after := Put(ids, id);
    assert after[IndexOf(ids, id.fingerprint)] == id;
    InFps(ids, id.fingerprint);
    forall fp | fp in Fps(ids)
      ensures fp in Fps(after)
    {
      PutKeepsFp(ids, id, fp);
    }
  }

  lemma PutKeepsFp(ids: seq<Identity>, id: Identity, fp: Fp)
    requires fp in Fps(ids)
    ensures fp in Fps(Put(ids, id))
  {
    var x :| x in ids && x.fingerprint == fp;
    var i :| 0 <= i < |ids| && ids[i] == x;
    assert Put(ids, id)[i].fingerprint == fp;
    assert Put(ids, id)[i] in Put(ids, id);
  }

  lemma OrderOfUpdate(ids: seq<Identity>, k: nat, id: Identity)
    requires k < |ids| && ids[k].fingerprint == id.fingerprint
    ensures Order(ids[k := id]) == Order(ids)
  {
  }

  lemma OrderOfAppend(ids: seq<Identity>, id: Identity)
    ensures Order(ids + [id]) == Order(ids) + [id.fingerprint]
  {
  }

  lemma PutKeepsOrder(ids: seq<Identity>, id: Identity)
    ensures Order(Put(ids, id)) ==
            if IndexOf(ids, id.fingerprint) < |ids| then Order(ids) else Order(ids) + [id.fingerprint]
  {
    var k := IndexOf(ids, id.fingerprint);
    if k < |ids| { OrderOfUpdate(ids, k, id); } else { OrderOfAppend(ids, id); }
  }

  lemma AsMapAt(ids: seq<Identity>, fp: Fp)
    ensures fp in AsMap(ids) <==> IndexOf(ids, fp) < |ids|
    ensures fp in AsMap(ids) ==> AsMap(ids)[fp] == ids[IndexOf(ids, fp)]
  {
    InFps(ids, fp);
  }

  lemma PutMapsTo(ids: seq<Identity>, id: Identity, fp: Fp)
    ensures fp in AsMap(Put(ids, id)) <==> fp == id.fingerprint || fp in AsMap(ids)
    ensures fp in AsMap(Put(ids, id)) ==> AsMap(Put(ids, id))[fp] == if fp == id.fingerprint then id else AsMap(ids)[fp]
  {
    AsMapAt(ids, fp);
    AsMapAt(Put(ids, id), fp);
    if fp == id.fingerprint || fp in AsMap(ids) {
      PutLooksUp(ids, id, fp);
    } else {
      assert fp !in Fps(Put(ids, id)) by { PutMembers(ids, id); }
    }
  }

  lemma UpdatedMap(m: map<Fp, Identity>, was: map<Fp, Identity>, key: Fp, value: Identity)
    requires forall fp :: fp in m <==> fp == key || fp in was
    requires forall fp :: fp in m ==> m[fp] == if fp == key then value else was[fp]
    ensures m == was[key := value]
  {
  }

  lemma PutUpdatesMap(ids: seq<Identity>, id: Identity)
    ensures AsMap(Put(ids, id)) == AsMap(ids)[id.fingerprint := id]
  {
    var was, now := AsMap(ids), AsMap(Put(ids, id));
    forall fp
      ensures fp in now <==> fp == id.fingerprint || fp in was
      ensures fp in now ==> now[fp] == if fp == id.fingerprint then id else was[fp]
    {
      PutMapsTo(ids, id, fp);
    }
    UpdatedMap(now, was, id.fingerprint, id);
  }

  /** Put is map update: an existing key keeps its place in the order, a new one goes last. */
  lemma PutRefines(ids: seq<Identity>, id: Identity)
    ensures AsMap(Put(ids, id)) == AsMap(ids)[id.fingerprint := id]
    ensures Order(Put(ids, id)) == if id.fingerprint in AsMap(ids) then Order(ids) else Order(ids) + [id.fingerprint]
  {
    PutUpdatesMap(ids, id);
    PutKeepsOrder(ids, id);
    InFps(ids, id.fingerprint);
  }

  lemma PutUnique(ids: seq<Identity>, id: Identity)
    requires Unique(ids)
    ensures Unique(Put(ids, id))
  {
  }

  lemma PutLooksUp(ids: seq<Identity>, id: Identity, fp: Fp)
    requires fp == id.fingerprint || IndexOf(ids, fp) < |ids|
    ensures var after := Put(ids, id);
            && IndexOf(after, fp) < |after|
            && after[IndexOf(after, fp)] == if fp == id.fingerprint then id else ids[IndexOf(ids, fp)]
  {
    FirstAt(Put(ids, id), fp, IndexOf(ids, fp));
  }

  lemma FirstAt(ids: seq<Identity>, fp: Fp, k: nat)
    requires k < |ids| && ids[k].fingerprint == fp
    requires forall j :: 0 <= j < k ==> ids[j].fingerprint != fp
    ensures IndexOf(ids, fp) == k
  {
  }

  lemma InFps(ids: seq<Identity>, fp: Fp)
    ensures fp in Fps(ids) <==> IndexOf(ids, fp) < |ids|
  {
    if IndexOf(ids, fp) < |ids| { assert ids[IndexOf(ids, fp)] in ids; }
  }

  /** Removal distributes over concatenation; with WithoutOne it is the order-preserving filter. */
  lemma {:induction false} WithoutAppend(a: seq<Identity>, b: seq<Identity>, gone: set<Fp>)
    ensures Without(a + b, gone) == Without(a, gone) + Without(b, gone)
  {
    if b == [] {
      assert a + b == a;
    } else {
      var front, last := b[..|b| - 1], b[|b| - 1];
      assert b == front + [last] && a + b == (a + front) + [last];
      WithoutAppend(a, front, gone);
      WithoutLast(a + front, last, gone);
      WithoutLast(front, last, gone);
      var tail := if last.fingerprint in gone then [] else [last];
      assert (Without(a, gone) + Without(front, gone)) + tail == Without(a, gone) + (Without(front, gone) + tail);
    }
  }

  lemma WithoutLast(front: seq<Identity>, last: Identity, gone: set<Fp>)
    ensures Without(front + [last], gone) == Without(front, gone) + (if last.fingerprint in gone then [] else [last])
  {
    assert (front + [last])[..|front|] == front;
  }

  lemma WithoutOne(id: Identity, gone: set<Fp>)
    ensures Without([id], gone) == if id.fingerprint in gone then [] else [id]
  {
    assert [id][..0] == [];
  }

  lemma {:induction false} WithoutNothing(ids: seq<Identity>, gone: set<Fp>)
    requires forall i :: 0 <= i < |ids| ==> ids[i].fingerprint !in gone
    ensures Without(ids, gone) == ids
  {
    if ids == [] {
    } else {
      WithoutNothing(ids[..|ids| - 1], gone);
    }
  }

  /** Removing one set of fingerprints and then another is removing both. */
  lemma {:induction false} WithoutTwice(ids: seq<Identity>, a: set<Fp>, b: set<Fp>)
    ensures Without(Without(ids, a), b) == Without(ids, a + b)
  {
    if ids == [] {
    } else {
      var front, last := ids[..|ids| - 1], ids[|ids| - 1];
      WithoutTwice(front, a, b);
      if last.fingerprint in a {
        assert Without(ids, a) == Without(front, a);
      } else {
        WithoutAppend(Without(front, a), [last], b);
        WithoutOne(last, b);
      }
    }
  }

  /** Removal is map restriction, keeps the order of what stays, and keeps fingerprints unique. */
  lemma {:induction false} WithoutRefines(ids: seq<Identity>, gone: set<Fp>)
    requires Unique(ids)
    ensures Unique(Without(ids, gone))
    ensures Fps(Without(ids, gone)) == Fps(ids) - gone
    ensures AsMap(Without(ids, gone)) == AsMap(ids) - gone
  {
    var after := Without(ids, gone);
    WithoutUnique(ids, gone);
    WithoutMembers(ids, gone);
    forall fp | fp in Fps(after)
      ensures fp in Fps(ids) && after[IndexOf(after, fp)] == AsMap(ids)[fp]
    {
      InFps(after, fp);
      var x := after[IndexOf(after, fp)];
      assert x in after;
      FindUnique(ids, x);
    }
  }

  lemma {:induction false} WithoutUnique(ids: seq<Identity>, gone: set<Fp>)
    requires Unique(ids)
    ensures Unique(Without(ids, gone))
  {
    if ids == [] {
    } else {
      var front, last := ids[..|ids| - 1], ids[|ids| - 1];
      WithoutUnique(front, gone);
      WithoutMembers(front, gone);
      forall i | 0 <= i < |Without(front, gone)|
        ensures Without(front, gone)[i].fingerprint != last.fingerprint
      {
        assert Without(front, gone)[i] in front;
      }
    }
  }
}
