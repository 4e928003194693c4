/** Facts about order and membership in sequences that several models share. */
module Sequences {

  datatype Option<+T> = None | Some(value: T)

  ghost predicate NoDup<T(!new)>(s: seq<T>) {
    forall i, j :: 0 <= i < j < |s| ==> s[i] != s[j]
  }

  /** `a` can be obtained from `b` by deleting elements and keeping the order of the rest. */
  ghost predicate Subsequence<T(!new)>(a: seq<T>, b: seq<T>)
    decreases |b|
  {
    if a == [] then true
    else if b == [] then false
    else (a[|a| - 1] == b[|b| - 1] && Subsequence(a[..|a| - 1], b[..|b| - 1])) || Subsequence(a, b[..|b| - 1])
  }

  lemma {:induction false} SubsequenceRefl<T(!new)>(a: seq<T>)
    ensures Subsequence(a, a)
  {
    if a != [] {
      SubsequenceRefl(a[..|a| - 1]);
    }
  }

  lemma {:induction false} SubsequencePush<T(!new)>(a: seq<T>, b: seq<T>, x: T)
    requires Subsequence(a, b)
    ensures Subsequence(a, b + [x])
    ensures Subsequence(a + [x], b + [x])
  {
    assert (b + [x])[..|b|] == b;
    assert (a + [x])[..|a|] == a;
  }

  lemma {:induction false} SubsequenceInit<T(!new)>(a: seq<T>, b: seq<T>)
    requires a != [] && Subsequence(a, b)
    ensures Subsequence(a[..|a| - 1], b)
    decreases |b|
  {
    if a[|a| - 1] == b[|b| - 1] && Subsequence(a[..|a| - 1], b[..|b| - 1]) {
      SubsequencePush(a[..|a| - 1], b[..|b| - 1], b[|b| - 1]);
      assert b == b[..|b| - 1] + [b[|b| - 1]];
    } else {
      SubsequenceInit(a, b[..|b| - 1]);
      SubsequencePush(a[..|a| - 1], b[..|b| - 1], b[|b| - 1]);
      assert b == b[..|b| - 1] + [b[|b| - 1]];
    }
  }

  lemma {:induction false} SubsequenceTrans<T(!new)>(a: seq<T>, b: seq<T>, c: seq<T>)
    requires Subsequence(a, b) && Subsequence(b, c)
    ensures Subsequence(a, c)
    decreases |c|
  {
    if a != [] {
      var c' := c[..|c| - 1];
      if b[|b| - 1] == c[|c| - 1] && Subsequence(b[..|b| - 1], c') {
        if a[|a| - 1] == b[|b| - 1] && Subsequence(a[..|a| - 1], b[..|b| - 1]) {
          SubsequenceTrans(a[..|a| - 1], b[..|b| - 1], c');
        } else {
          SubsequenceTrans(a, b[..|b| - 1], c');
        }
      } else {
        SubsequenceTrans(a, b, c');
      }
    }
  }

  /** A common prefix does not disturb the subsequence relation. */
  lemma {:induction false} SubsequencePrefix<T(!new)>(p: seq<T>, a: seq<T>, b: seq<T>)
    requires Subsequence(a, b)
    ensures Subsequence(p + a, p + b)
    decreases |b|
  {
    if b == [] {
      assert p + a == p && p + b == p;
      SubsequenceRefl(p);
    } else {
      var b' := b[..|b| - 1];
      assert p + b == (p + b') + [b[|b| - 1]];
      if a == [] {
        SubsequencePrefix(p, a, b');
        SubsequencePush(p + a, p + b', b[|b| - 1]);
      } else if a[|a| - 1] == b[|b| - 1] && Subsequence(a[..|a| - 1], b') {
        SubsequencePrefix(p, a[..|a| - 1], b');
        SubsequencePush(p + a[..|a| - 1], p + b', b[|b| - 1]);
        assert p + a == (p + a[..|a| - 1]) + [a[|a| - 1]];
      } else {
        SubsequencePrefix(p, a, b');
        SubsequencePush(p + a, p + b', b[|b| - 1]);
      }
    }
  }

  lemma {:induction false} SubsequenceMember<T(!new)>(a: seq<T>, b: seq<T>)
    requires Subsequence(a, b)
    ensures forall x :: x in a ==> x in b
    decreases |b|
  {
    if a != [] {
      var b' := b[..|b| - 1];
      assert a == a[..|a| - 1] + [a[|a| - 1]];
      if a[|a| - 1] == b[|b| - 1] && Subsequence(a[..|a| - 1], b') {
        SubsequenceMember(a[..|a| - 1], b');
      } else {
        SubsequenceMember(a, b');
      }
    }
  }

  /** The position of a member of a sequence without repetitions. */
  ghost function IndexOf<T(!new)>(s: seq<T>, x: T): (i: nat)
    requires x in s
    ensures i < |s| && s[i] == x
  {
    var i :| 0 <= i < |s| && s[i] == x; i
  }

  lemma IndexOfUnique<T(!new)>(s: seq<T>, i: nat)
    requires NoDup(s) && i < |s|
    ensures IndexOf(s, s[i]) == i
  {
  }

  /** In a subsequence of a repetition-free sequence, order of positions is inherited. */
  lemma {:induction false} SubsequenceOrder<T(!new)>(a: seq<T>, b: seq<T>, i: nat, j: nat)
    requires Subsequence(a, b) && NoDup(b) && i < j < |a|
    ensures a[i] in b && a[j] in b && IndexOf(b, a[i]) < IndexOf(b, a[j])
    decreases |b|
  {
    SubsequenceMember(a, b);
    var b' := b[..|b| - 1];
    if a[|a| - 1] == b[|b| - 1] && Subsequence(a[..|a| - 1], b') {
      SubsequenceMember(a[..|a| - 1], b');
      if j == |a| - 1 {
        assert a[i] == a[..|a| - 1][i];
        assert a[i] in b';
        var p :| 0 <= p < |b'| && b'[p] == a[i];
        assert b[p] == a[i];
        IndexOfUnique(b, p);
        IndexOfUnique(b, |b| - 1);
      } else {
        SubsequenceOrder(a[..|a| - 1], b', i, j);
        LiftOrder(b, a[i], a[j]);
      }
    } else {
      SubsequenceOrder(a, b', i, j);
      LiftOrder(b, a[i], a[j]);
    }
  }

  lemma LiftOrder<T(!new)>(b: seq<T>, x: T, y: T)
    requires NoDup(b) && b != []
    requires x in b[..|b| - 1] && y in b[..|b| - 1]
    requires IndexOf(b[..|b| - 1], x) < IndexOf(b[..|b| - 1], y)
    ensures IndexOf(b, x) < IndexOf(b, y)
  {
    IndexOfUnique(b, IndexOf(b[..|b| - 1], x));
    IndexOfUnique(b, IndexOf(b[..|b| - 1], y));
  }

  /** A repetition-free sequence has as many members as positions. */
  lemma {:induction false} NoDupCardinality<T(!new)>(s: seq<T>)
    requires NoDup(s)
    ensures |set x | x in s| == |s|
  {
    if s == [] {
      assert (set x | x in s) == {};
    } else {
      var t := s[..|s| - 1];
      NoDupCardinality(t);
      assert (set x | x in s) == (set x | x in t) + {s[|s| - 1]};
    }
  }

  lemma SubsetSize<T>(a: set<T>, b: set<T>)
    requires a <= b
    ensures |a| <= |b|
  {
    assert b == a + (b - a);
  }

  function Min(a: nat, b: nat): nat {
    if a <= b then a else b
  }
}
