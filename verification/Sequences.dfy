// Sequences without repetition, the multisets of their elements, and parts of sequences in order.
module Sequences {

  ghost predicate Distinct<T>(s: seq<T>) {
    forall i, j | 0 <= i < j < |s| :: s[i] != s[j]
  }

  lemma {:induction false} DistinctCount<T>(s: seq<T>, x: T)
    requires Distinct(s)
    ensures multiset(s)[x] <= 1
  {
    if s != [] {
      var init, last := s[..|s| - 1], s[|s| - 1];
      assert s == init + [last];
      DistinctCount(init, x);
      assert last !in init;
    }
  }

  lemma RepeatedCount<T>(a: seq<T>, i: nat, j: nat)
    requires i < j < |a| && a[i] == a[j]
    ensures multiset(a)[a[i]] >= 2
  {
    assert a == a[..j] + a[j..];
    assert a[..j][i] == a[i] && a[j..][0] == a[i];
    assert a[i] in multiset(a[..j]) && a[i] in multiset(a[j..]);
  }

  // A part of a sequence without repetition has none either.
  lemma PartOfDistinct<T>(a: seq<T>, b: seq<T>)
    requires Distinct(b) && multiset(a) <= multiset(b)
    ensures Distinct(a) && forall i | 0 <= i < |a| :: a[i] in b
  {
    forall i | 0 <= i < |a|
      ensures a[i] in b
    {
      assert a[i] in multiset(a);
      assert a[i] in multiset(b);
    }
    forall i, j | 0 <= i < j < |a|
      ensures a[i] != a[j]
    {
      DistinctCount(b, a[i]);
      if a[i] == a[j] {
        RepeatedCount(a, i, j);
      }
    }
  }

  // ----- the elements with a property, in order -----

  // pos: in rising order, exactly the positions of the elements to keep.
  ghost predicate Positions<T>(pos: seq<nat>, whole: seq<T>, keep: T -> bool) {
    && (forall i, j | 0 <= i < j < |pos| :: pos[i] < pos[j])
    && (forall i | 0 <= i < |pos| :: pos[i] < |whole|)
    && (forall p: nat | p < |whole| :: p in pos <==> keep(whole[p]))
  }

  ghost predicate PickedAt<T>(part: seq<T>, whole: seq<T>, pos: seq<nat>) {
    |part| == |pos| && forall i | 0 <= i < |pos| :: pos[i] < |whole| && part[i] == whole[pos[i]]
  }

  // part: the elements of whole to keep, each as often as it occurs, in order.
  ghost predicate IsFilter<T(!new)>(part: seq<T>, whole: seq<T>, keep: T -> bool) {
    exists pos: seq<nat> :: Positions(pos, whole, keep) && PickedAt(part, whole, pos)
  }

  lemma FilterOfNothing<T(!new)>(keep: T -> bool)
    ensures IsFilter([], [], keep)
  {
    var none: seq<T> := [];
    assert Positions([], none, keep) && PickedAt(none, none, []);
  }

  lemma PositionsOfMore<T>(pos: seq<nat>, whole: seq<T>, last: T, keep: T -> bool)
    requires Positions(pos, whole, keep)
    ensures Positions(if keep(last) then pos + [|whole|] else pos, whole + [last], keep)
  {
    assert |whole| !in pos;
    assert forall p: nat | p < |whole| :: (whole + [last])[p] == whole[p];
  }

  lemma PickedFromMore<T>(part: seq<T>, whole: seq<T>, pos: seq<nat>, last: T)
    requires PickedAt(part, whole, pos)
    ensures PickedAt(part, whole + [last], pos)
    ensures PickedAt(part + [last], whole + [last], pos + [|whole|])
  {
  }

  lemma FilterOfMore<T(!new)>(part: seq<T>, whole: seq<T>, last: T, keep: T -> bool)
    requires IsFilter(part, whole, keep)
    ensures IsFilter(if keep(last) then part + [last] else part, whole + [last], keep)
  {
    hide Positions, PickedAt;
    var pos: seq<nat> :| Positions(pos, whole, keep) && PickedAt(part, whole, pos);
    PositionsOfMore(pos, whole, last, keep);
    PickedFromMore(part, whole, pos, last);
    if keep(last) {
      var longer: seq<nat> := pos + [|whole|];
      assert Positions(longer, whole + [last], keep);
    } else {
      assert Positions(pos, whole + [last], keep);
    }
  }

  // There is only one.
  lemma {:induction false} FilterIsUnique<T(!new)>(a: seq<T>, b: seq<T>, whole: seq<T>, keep: T -> bool)
    requires IsFilter(a, whole, keep) && IsFilter(b, whole, keep)
    ensures a == b
  {
    var p: seq<nat> :| Positions(p, whole, keep) && PickedAt(a, whole, p);
    var q: seq<nat> :| Positions(q, whole, keep) && PickedAt(b, whole, q);
    forall x
      ensures x in p <==> x in q
    {
    }
    RisingIsUnique(p, q);
  }

  lemma {:induction false} RisingIsUnique(p: seq<nat>, q: seq<nat>)
    requires forall i, j | 0 <= i < j < |p| :: p[i] < p[j]
    requires forall i, j | 0 <= i < j < |q| :: q[i] < q[j]
    requires forall x :: x in p <==> x in q
    ensures p == q
  {
    if q != [] {
      assert q[|q| - 1] in q;
      assert q[|q| - 1] in p;
    }
    if p != [] {
      assert p[|p| - 1] in p;
      assert p[|p| - 1] in q;
      var m, n := p[|p| - 1], q[|q| - 1];
      assert n in q;
      assert n in p;
      assert m == n;
      var a, b := p[..|p| - 1], q[..|q| - 1];
      forall x
        ensures x in a <==> x in b
      {
        assert x in p <==> x in a || x == m;
        assert x in q <==> x in b || x == n;
        assert m !in a && n !in b;
      }
      RisingIsUnique(a, b);
      assert p == a + [m] && q == b + [n];
    }
  }
}
