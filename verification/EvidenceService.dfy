/** `EvidenceCatalog`: the item list with its two dictionary indexes. */
module EvidenceService {
  import opened Sequences
  import opened Evidence
  import opened EvidenceTheorems

  class EvidenceCatalog {
    var items: seq<Item>
    var byRef: map<nat, Item>
    var dedupe: map<Key, Item>

    /** Both indexes agree with a linear search of the list. */
    ghost predicate Valid()
      reads this
    {
      Inv(items) &&
      (forall r :: r in byRef <==> 1 <= r <= |items|) &&
      (forall r :: r in byRef ==> byRef[r] == items[r - 1]) &&
      IndexOk(items, dedupe)
    }

    constructor ()
      ensures Valid() && items == []
    {
      items, byRef, dedupe := [], map[], map[];
    }

    /** `add`; None stands for the ValueError on a blank source or a blank raw text. */
    method Add(r: Row, now: int) returns (item: Option<Item>)
      requires Valid()
      modifies this
      ensures Valid()
      ensures item == (if Acceptable(r) then Some(Answer(old(items), r, now)) else None)
      ensures items == (if Acceptable(r) then After(old(items), r, now) else old(items))
    {
      hide Inv, KeyOf, Blank;
      if Blank(r.source) {
        return None;
      }
      if Blank(r.raw) {
        return None;
      }
      AddKeepsInv(items, r, now);
      var key := KeyOf(r);
      if key in dedupe {
        return Some(dedupe[key]);
      }
      var ref := |items| + 1;
      var it := Item(ref, r, now);
      IndexPush(items, dedupe, it);
      items := items + [it];
      byRef := byRef[ref := it];
      dedupe := dedupe[key := it];
      return Some(it);
    }

    /** `get`; None stands for the KeyError. */
    method Get(ref: nat) returns (item: Option<Item>)
      requires Valid()
      ensures item.Some? <==> exists it :: it in items && it.ref == ref
      ensures item.Some? ==> item.value in items && item.value.ref == ref
    {
      hide KeyOf, Acceptable;
      if ref in byRef {
        assert items[ref - 1].ref == ref;
        return Some(byRef[ref]);
      }
      return None;
    }

    /** `load_saved`'s loop over the stored items, into a new catalog. */
    method Load(saved: seq<Saved>, times: nat -> int) returns (ok: bool)
      requires Valid() && items == []
      modifies this
      ensures Valid()
      ensures ok <==> Replay(saved, times).Some?
      ensures ok ==> items == Replay(saved, times).value && Rebuilt(items, saved)
    {
      hide Inv, KeyOf, Acceptable, Rebuilt, Valid;
      var i := 0;
      while i < |saved|
        invariant 0 <= i <= |saved| && Valid() && Replay(saved[..i], times) == Some(items)
      {
        assert saved[..i + 1][..i] == saved[..i];
        var item := Add(saved[i].row, times(i));
        if item.None? || item.value.ref != saved[i].ref {
          assert Replay(saved[..i + 1], times).None?;
          ReplayNeverRecovers(saved, i + 1, times);
          return false;
        }
        i := i + 1;
      }
      assert saved[..i] == saved;
      ReplayIsExact(saved, times);
      return true;
    }
  }

  ghost predicate IndexOk(items: seq<Item>, dedupe: map<Key, Item>) {
    (forall k :: k in dedupe <==> Find(items, k).Some?) &&
    (forall k :: k in dedupe ==> Find(items, k) == Some(dedupe[k]))
  }

  lemma {:induction false} FindPush(items: seq<Item>, it: Item, k: Key)
    ensures Find(items + [it], k) ==
      (if Find(items, k).Some? then Find(items, k) else if KeyOf(it.row) == k then Some(it) else None)
  {
    hide KeyOf;
    if items == [] {
      assert ([] + [it])[1..] == [];
    } else {
      FindPush(items[1..], it, k);
      assert (items + [it])[1..] == items[1..] + [it];
    }
  }

  lemma IndexPush(items: seq<Item>, dedupe: map<Key, Item>, it: Item)
    requires IndexOk(items, dedupe) && KeyOf(it.row) !in dedupe
    ensures IndexOk(items + [it], dedupe[KeyOf(it.row) := it])
  {
    hide KeyOf, Find;
    forall k ensures Find(items + [it], k) ==
      (if Find(items, k).Some? then Find(items, k) else if KeyOf(it.row) == k then Some(it) else None)
    {
      FindPush(items, it, k);
    }
  }

  lemma {:induction false} ReplayNeverRecovers(saved: seq<Saved>, i: nat, times: nat -> int)
    requires i <= |saved| && Replay(saved[..i], times).None?
    ensures Replay(saved, times).None?
    decreases |saved| - i
  {
    if i < |saved| {
      assert saved[..i + 1][..i] == saved[..i];
      ReplayNeverRecovers(saved, i + 1, times);
    } else {
      assert saved[..i] == saved;
    }
  }
}
