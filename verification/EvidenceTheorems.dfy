/** Identity, stability and replay of evidence references. */
module EvidenceTheorems {
  import opened Sequences
  import opened Evidence

  /** References are 1, 2, 3, ... in order, and no two items share a key. */
  ghost predicate Inv(items: seq<Item>) {
    (forall i :: 0 <= i < |items| ==> items[i].ref == i + 1 && Acceptable(items[i].row)) &&
    (forall i, j :: 0 <= i < j < |items| ==> KeyOf(items[i].row) != KeyOf(items[j].row))
  }

  lemma AddKeepsInv(items: seq<Item>, r: Row, now: int)
    requires Inv(items) && Acceptable(r)
    ensures Inv(After(items, r, now)) && items <= After(items, r, now)
    ensures Answer(items, r, now) in After(items, r, now)
    ensures KeyOf(Answer(items, r, now).row) == KeyOf(r)
  {
    hide KeyOf, Acceptable;
    var n := After(items, r, now);
    if Find(items, KeyOf(r)).None? {
      assert n[|items|] == Answer(items, r, now);
      assert forall i :: 0 <= i < |items| ==> items[i] in items;
    }
  }

  /** Over any run of adds the references stay 1..n and no item already there is moved or changed. */
  lemma {:induction false} RunKeepsInv(items: seq<Item>, rows: seq<Row>, times: nat -> int)
    requires Inv(items)
    ensures Inv(AfterAll(items, rows, times)) && items <= AfterAll(items, rows, times)
  {
    hide Acceptable, Inv;
    if rows != [] {
      RunKeepsInv(items, rows[..|rows| - 1], times);
      if Acceptable(rows[|rows| - 1]) {
        AddKeepsInv(AfterAll(items, rows[..|rows| - 1], times), rows[|rows| - 1], times(|rows| - 1));
      }
    }
  }

  lemma {:induction false} AfterOneMore(items: seq<Item>, rows: seq<Row>, r: Row, times: nat -> int)
    ensures var before := AfterAll(items, rows, times);
      AfterAll(items, rows + [r], times) == (if Acceptable(r) then After(before, r, times(|rows|)) else before)
  {
    hide Acceptable, After;
    assert (rows + [r])[..|rows|] == rows;
  }

  lemma KeyHasOneItem(items: seq<Item>, a: Item, b: Item)
    requires Inv(items) && a in items && b in items && KeyOf(a.row) == KeyOf(b.row)
    ensures a == b
  {
    hide KeyOf, Acceptable;
    var i :| 0 <= i < |items| && items[i] == a;
    var j :| 0 <= j < |items| && items[j] == b;
    assert !(i < j) && !(j < i);
  }

  /** Adding what is already there answers the item already there and changes nothing. */
  lemma ReAddIsNoOp(items: seq<Item>, it: Item, r: Row, now: int)
    requires Inv(items) && it in items && KeyOf(r) == KeyOf(it.row)
    ensures After(items, r, now) == items && Answer(items, r, now) == it
  {
    KeyHasOneItem(items, it, Find(items, KeyOf(r)).value);
  }

  /** Two adds, with any other adds between them, answer the same reference exactly when their keys agree. */
  lemma {:induction false} SameRefIffSameKey(items: seq<Item>, r: Row, between: seq<Row>, q: Row, times: nat -> int,
                                             t: int, u: int)
    requires Inv(items) && Acceptable(r) && Acceptable(q)
    ensures var later := AfterAll(After(items, r, t), between, times);
      Answer(items, r, t).ref == Answer(later, q, u).ref <==> KeyOf(r) == KeyOf(q)
    ensures KeyOf(r) == KeyOf(q) <==> SameObservation(r, q)
  {
    hide KeyOf, Acceptable, SameObservation;
    SameKeyIff(r, q);
    var mine := After(items, r, t);
    var a := Answer(items, r, t);
    AddKeepsInv(items, r, t);
    RunKeepsInv(mine, between, times);
    var later := AfterAll(mine, between, times);
    assert a in later;
    if KeyOf(r) == KeyOf(q) {
      ReAddIsNoOp(later, a, q, u);
    } else {
      AddKeepsInv(later, q, u);
      var b := Answer(later, q, u);
      var n := After(later, q, u);
      RefIsPosition(n, a);
      RefIsPosition(n, b);
    }
  }

  lemma RefIsPosition(items: seq<Item>, it: Item)
    requires Inv(items) && it in items
    ensures 1 <= it.ref <= |items| && items[it.ref - 1] == it
  {
  }

  // ----------------------------------------------------------------- what counts as the same, and as evidence

  /** The same source, and the same image by digest, or else the same raw text at the same positive line number or
      both without one. */
  ghost predicate SameObservation(a: Row, b: Row) {
    a.source == b.source &&
    ((ImageOf(a).Some? || ImageOf(b).Some?) ==> ImageOf(a) == ImageOf(b)) &&
    ((ImageOf(a).None? && ImageOf(b).None?) ==> a.raw == b.raw && LineNo(a) == LineNo(b))
  }

  function ImageOf(r: Row): Option<Digest> {
    if r.meta.image then r.meta.sha else None
  }

  function LineNo(r: Row): int {
    match r.meta.line
    case Some(n) => if n <= 0 then 0 else n
    case None => 0
  }

  lemma SameKeyIff(a: Row, b: Row)
    ensures KeyOf(a) == KeyOf(b) <==> SameObservation(a, b)
  {
  }

  /** The characters that count as white space, by code point. */
  lemma SpaceMeaning(c: char)
    ensures IsSpace(c) <==>
      c as int in {9, 10, 11, 12, 13, 28, 29, 30, 31, 32, 133, 160, 5760, 8192, 8193, 8194, 8195, 8196, 8197, 8198,
                   8199, 8200, 8201, 8202, 8232, 8233, 8239, 8287, 12288}
  {
  }

  ghost predicate HasText(s: string) {
    exists i :: 0 <= i < |s| && !IsSpace(s[i])
  }

  /** Some row of the run with text in its source and in its raw part has the key `k`. */
  ghost predicate Offered(rows: seq<Row>, k: Key) {
    exists i :: 0 <= i < |rows| && HasText(rows[i].source) && HasText(rows[i].raw) && KeyOf(rows[i]) == k
  }

  lemma OfferedPush(init: seq<Row>, r: Row, k: Key)
    ensures Offered(init + [r], k) <==> Offered(init, k) || (Acceptable(r) && KeyOf(r) == k)
  {
    hide IsSpace, KeyOf;
    var rows := init + [r];
    assert rows[|init|] == r;
    assert forall i :: 0 <= i < |init| ==> rows[i] == init[i];
  }

  lemma FindAfter(items: seq<Item>, r: Row, now: int, k: Key)
    ensures Find(After(items, r, now), k).Some? <==> Find(items, k).Some? || KeyOf(r) == k
  {
    hide KeyOf;
    var it := Item(|items| + 1, r, now);
    assert (items + [it])[|items|] == it;
    assert forall x :: x in items ==> x in items + [it];
    assert forall x :: x in items + [it] ==> x in items || x == it;
  }

  /** Over any run the catalog holds exactly the keys it held and those of the rows with text. */
  lemma {:induction false} CatalogIsComplete(items: seq<Item>, rows: seq<Row>, times: nat -> int, k: Key)
    ensures Find(AfterAll(items, rows, times), k).Some? <==> Find(items, k).Some? || Offered(rows, k)
  {
    hide Acceptable, KeyOf, Find, Offered, After;
    if rows == [] {
      NothingOffered(k);
    } else {
      var init, r := rows[..|rows| - 1], rows[|rows| - 1];
      CatalogIsComplete(items, init, times, k);
      OfferedPush(init, r, k);
      FindAfter(AfterAll(items, init, times), r, times(|init|), k);
      assert rows == init + [r];
    }
  }

  lemma NothingOffered(k: Key)
    ensures !Offered([], k)
  {
  }

  // ----------------------------------------------------------------- replay

  /** Reference `r` occurs among the first `n` saved rows. */
  ghost predicate RefIn(saved: seq<Saved>, n: nat, r: nat)
    requires n <= |saved|
  {
    exists j :: 0 <= j < n && saved[j].ref == r
  }

  /** Each saved row is found under its own reference: the first one with that reference itself, a later
      one by its key. */
  ghost predicate Rebuilt(items: seq<Item>, saved: seq<Saved>) {
    forall i :: 0 <= i < |saved| ==> RebuiltAt(items, saved, i)
  }

  ghost predicate RebuiltAt(items: seq<Item>, saved: seq<Saved>, i: nat)
    requires i < |saved|
  {
    1 <= saved[i].ref <= |items| && KeyOf(items[saved[i].ref - 1].row) == KeyOf(saved[i].row) &&
    (RefIn(saved, i, saved[i].ref) || items[saved[i].ref - 1].row == saved[i].row)
  }

  /** No item comes from anywhere else. */
  ghost predicate AllSaved(items: seq<Item>, saved: seq<Saved>) {
    forall r: nat :: 1 <= r <= |items| ==> RefIn(saved, |saved|, r)
  }

  lemma RefInPush(init: seq<Saved>, s: Saved, n: nat, r: nat)
    requires n <= |init|
    ensures RefIn(init + [s], n, r) <==> RefIn(init, n, r)
    ensures RefIn(init + [s], |init| + 1, r) <==> RefIn(init, |init|, r) || r == s.ref
  {
    var all := init + [s];
    assert all[|init|] == s;
    assert forall j :: 0 <= j < |init| ==> all[j] == init[j];
  }

  lemma RebuiltGrows(items: seq<Item>, more: seq<Item>, init: seq<Saved>, s: Saved)
    requires Rebuilt(items, init) && AllSaved(items, init) && items <= more && 1 <= s.ref <= |more|
    requires KeyOf(more[s.ref - 1].row) == KeyOf(s.row)
    requires more == items || (|more| == |items| + 1 == s.ref && more[|items|].row == s.row)
    ensures Rebuilt(more, init + [s]) && AllSaved(more, init + [s])
  {
    hide KeyOf, RefIn;
    var all := init + [s];
    forall i | 0 <= i < |all| ensures RebuiltAt(more, all, i) {
      RefInPush(init, s, if i < |init| then i else |init|, all[i].ref);
      if i < |init| {
        assert all[i] == init[i] && RebuiltAt(items, init, i);
      } else {
        assert all[i] == s;
        assert more == items ==> RefIn(init, |init|, s.ref);
      }
    }
    forall r: nat | 1 <= r <= |more| ensures RefIn(all, |all|, r) {
      RefInPush(init, s, |init|, r);
      assert r <= |items| ==> RefIn(init, |init|, r);
    }
  }

  /** A load that succeeds is exact: under each saved reference the rebuilt catalog holds the first row saved
      with it, and any later row saved with it has the same key; nothing else is in the catalog. */
  lemma {:induction false} ReplayIsExact(saved: seq<Saved>, times: nat -> int)
    requires Replay(saved, times).Some?
    ensures var items := Replay(saved, times).value;
      Rebuilt(items, saved) && AllSaved(items, saved) && Inv(items)
  {
    hide KeyOf, Acceptable, Rebuilt, AllSaved, Find;
    if saved == [] {
      NothingRebuilt();
    } else {
      var init, s := saved[..|saved| - 1], saved[|saved| - 1];
      ReplayIsExact(init, times);
      assert saved == init + [s];
      var items, now := Replay(init, times).value, times(|saved| - 1);
      AddKeepsInv(items, s.row, now);
      RefIsPosition(After(items, s.row, now), Answer(items, s.row, now));
      RebuiltGrows(items, After(items, s.row, now), init, s);
    }
  }

  lemma NothingRebuilt()
    ensures Rebuilt([], []) && AllSaved([], [])
  {
  }

  /** So a list loads only if its references tell its rows apart exactly as their keys do. */
  lemma {:induction false} LoadedRefsIdentifyKeys(saved: seq<Saved>, times: nat -> int, i: nat, j: nat)
    requires Replay(saved, times).Some? && i < |saved| && j < |saved|
    ensures saved[i].ref == saved[j].ref <==> KeyOf(saved[i].row) == KeyOf(saved[j].row)
  {
    hide KeyOf, Acceptable, Replay;
    ReplayIsExact(saved, times);
    var items := Replay(saved, times).value;
    assert RebuiltAt(items, saved, i) && RebuiltAt(items, saved, j);
    var a, b := saved[i].ref - 1, saved[j].ref - 1;
    assert a < b ==> KeyOf(items[a].row) != KeyOf(items[b].row);
    assert b < a ==> KeyOf(items[b].row) != KeyOf(items[a].row);
  }

  /** The snapshot of any catalog loads again, with every reference and every row unchanged. */
  lemma {:induction false} SnapshotReplays(items: seq<Item>, times: nat -> int)
    requires Inv(items)
    ensures Replay(Snapshot(items), times).Some? && Snapshot(Replay(Snapshot(items), times).value) == Snapshot(items)
  {
    hide KeyOf, Acceptable, Inv, Find;
    if items != [] {
      var init, it := items[..|items| - 1], items[|items| - 1];
      assert items == init + [it];
      InvInit(init, it);
      SnapshotReplays(init, times);
      var c := Replay(Snapshot(init), times).value;
      var n := Item(|c| + 1, it.row, times(|init|));
      SnapshotPush(init, it);
      SnapshotPush(c, n);
      hide Snapshot, Replay;
      NewKeyInCopy(init, it, c);
      ReplayPush(Snapshot(init), Saved(it.ref, it.row), times);
    }
  }

  lemma InvInit(init: seq<Item>, it: Item)
    requires Inv(init + [it])
    ensures Inv(init) && it.ref == |init| + 1 && Acceptable(it.row)
    ensures forall k :: 0 <= k < |init| ==> KeyOf(init[k].row) != KeyOf(it.row)
  {
    hide KeyOf, Acceptable;
    var items := init + [it];
    assert items[|init|] == it;
    assert forall k :: 0 <= k < |init| ==> items[k] == init[k];
  }

  /** Loading one more row whose key is new and whose reference is the next one. */
  lemma {:induction false} ReplayPush(saved: seq<Saved>, s: Saved, times: nat -> int)
    requires Replay(saved, times).Some? && Acceptable(s.row)
    requires var c := Replay(saved, times).value; Find(c, KeyOf(s.row)).None? && s.ref == |c| + 1
    ensures var c := Replay(saved, times).value;
      Replay(saved + [s], times) == Some(c + [Item(|c| + 1, s.row, times(|saved|))])
  {
    hide KeyOf, Acceptable, Find;
    assert (saved + [s])[..|saved|] == saved;
  }

  lemma {:induction false} SnapshotPush(items: seq<Item>, it: Item)
    ensures Snapshot(items + [it]) == Snapshot(items) + [Saved(it.ref, it.row)]
  {
    assert (items + [it])[..|items|] == items;
  }

  /** A rebuilt prefix knows no key of the next item, and the next reference is free. */
  lemma {:induction false} NewKeyInCopy(init: seq<Item>, it: Item, copy: seq<Item>)
    requires Inv(init + [it]) && Snapshot(copy) == Snapshot(init)
    ensures Find(copy, KeyOf(it.row)).None? && it.ref == |copy| + 1 && Acceptable(it.row)
    ensures |copy| == |init| == |Snapshot(init)|
  {
    hide KeyOf, Acceptable, Find;
    InvInit(init, it);
    assert |copy| == |Snapshot(copy)|;
    forall k | 0 <= k < |copy| ensures KeyOf(copy[k].row) != KeyOf(it.row) {
      assert Snapshot(copy)[k] == Snapshot(init)[k];
      assert KeyOf(init[k].row) != KeyOf(it.row);
    }
    assert forall x :: x in copy ==> KeyOf(x.row) != KeyOf(it.row);
  }
}
