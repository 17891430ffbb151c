// What filter_clean writes, told from the pooled rows: which rows, in which order, and when it stops.
module FilterOrder {
  import opened Wrappers
  import opened Blanks
  import opened Sequences
  import opened Pipeline
  import Dedup

  predicate SaysSomething(f: Dedup.Field) {
    f.Str? && exists i | 0 <= i < |f.text| :: !Blank(f.text[i])
  }

  // No error, stopped by itself, and a question and an answer that are not blank.
  predicate Usable(r: Dedup.Row) {
    && r.httpError.Null? && r.parseError.Null? && r.finish == Dedup.Str("stop")
    && r.qa.Some? && SaysSomething(r.qa.value.q) && SaysSomething(r.qa.value.a)
  }

  predicate IdIn(r: Dedup.Row, valid: set<string>) {
    exists id | id in valid :: r.id == Some(id)
  }

  lemma CleanIsUsable(r: Dedup.Row)
    ensures Dedup.IsClean(r) <==> Usable(r)
  {
  }

  lemma {:induction false} CleanRowsInOrder(pooled: seq<Dedup.Row>)
    ensures IsFilter(CleanOf(pooled), pooled, r => Usable(r))
  {
    hide IsFilter, Usable, Dedup.IsClean;
    if pooled == [] {
      FilterOfNothing<Dedup.Row>(r => Usable(r));
    } else {
      var init, last := pooled[..|pooled| - 1], pooled[|pooled| - 1];
      CleanRowsInOrder(init);
      CleanIsUsable(last);
      FilterOfMore(CleanOf(init), init, last, r => Usable(r));
      assert pooled == init + [last];
    }
  }

  lemma {:induction false} ValidRowsInOrder(rows: seq<Dedup.Row>, valid: set<string>)
    ensures IsFilter(ValidOf(rows, valid), rows, r => IdIn(r, valid))
  {
    hide IsFilter;
    if rows == [] {
      FilterOfNothing<Dedup.Row>(r => IdIn(r, valid));
    } else {
      var init, last := rows[..|rows| - 1], rows[|rows| - 1];
      ValidRowsInOrder(init, valid);
      FilterOfMore(ValidOf(init, valid), init, last, r => IdIn(r, valid));
      assert rows == init + [last];
    }
  }

  // More than the allowed fraction of n rows is dropped.
  predicate OverLimit(dropped: nat, n: nat, maxDropFraction: real) {
    dropped as real > maxDropFraction * n as real || (n == 0 && maxDropFraction < 0.0)
  }

  lemma DropFractionIs(dropped: nat, n: nat, maxDropFraction: real)
    requires dropped <= n
    ensures DropFraction(dropped, n) > maxDropFraction <==> OverLimit(dropped, n, maxDropFraction)
  {
    if n > 0 {
      var q := dropped as real / n as real;
      assert q * n as real == dropped as real;
      ScaledOrder(q, maxDropFraction, n as real);
    }
  }

  lemma ScaledOrder(x: real, y: real, n: real)
    requires n > 0.0
    ensures x > y <==> x * n > y * n
  {
    if x > y {
      assert (x - y) * n > 0.0;
    } else {
      assert (y - x) * n >= 0.0;
    }
  }

  // clean: the usable rows of the pool; kept: those of the deduplicated ones with a valid id. Without
  // ids everything deduplicated is written; an empty set of ids stops the program, and so does a set
  // with which more than the allowed fraction would be dropped.
  lemma FilterOutcomeExactly(pooled: seq<Dedup.Row>, valid: Option<set<string>>, maxDropFraction: real,
      clean: seq<Dedup.Row>, kept: seq<Dedup.Row>)
    requires IsFilter(clean, pooled, r => Usable(r))
    requires valid.Some? ==> IsFilter(kept, Dedup.LoopResult(clean), r => IdIn(r, valid.value))
    ensures var outcome, deduped := FilterSpec(pooled, valid, maxDropFraction), Dedup.LoopResult(clean);
            && (valid.None? ==> outcome == Clean(deduped))
            && (valid == Some({}) ==> outcome == EmptyValidIds)
            && (valid.Some? && valid.value != {} ==>
                  && |kept| <= |deduped|
                  && var dropped := |deduped| - |kept|;
                     outcome ==
                     if OverLimit(dropped, |deduped|, maxDropFraction) then TooManyDropped(dropped, |deduped|)
                     else Clean(kept))
  {
    hide IsFilter, Usable, Dedup.LoopResult, DropFraction, OverLimit;
    CleanRowsInOrder(pooled);
    FilterIsUnique(clean, CleanOf(pooled), pooled, r => Usable(r));
    var deduped := Dedup.LoopResult(clean);
    if valid.Some? {
      ValidRowsInOrder(deduped, valid.value);
      FilterIsUnique(kept, ValidOf(deduped, valid.value), deduped, r => IdIn(r, valid.value));
      DropFractionIs(|deduped| - |kept|, |deduped|, maxDropFraction);
    }
  }

  // ----- which of the rows with one id is written -----

  // Row i of the pool is usable, and no usable row with its id has a longer answer, or one as long and
  // an earlier place.
  ghost predicate BestOfPool(pooled: seq<Dedup.Row>, i: nat)
    requires i < |pooled|
  {
    Usable(pooled[i]) &&
    forall j | 0 <= j < |pooled| && Usable(pooled[j]) && pooled[j].id == pooled[i].id ::
      var mine, other := |pooled[i].qa.value.a.text|, |pooled[j].qa.value.a.text|;
      other <= mine && (j < i ==> other < mine)
  }

  lemma FirstLongestIsBest(pooled: seq<Dedup.Row>, clean: seq<Dedup.Row>, pos: seq<nat>, k: nat)
    requires Positions(pos, pooled, (r: Dedup.Row) => Usable(r)) && PickedAt(clean, pooled, pos)
    requires k < |clean| && Dedup.FirstLongest(clean, k)
    ensures pos[k] < |pooled| && pooled[pos[k]] == clean[k] && BestOfPool(pooled, pos[k])
  {
    assert pos[k] in pos;
    forall j | 0 <= j < |pooled| && Usable(pooled[j]) && pooled[j].id == clean[k].id
      ensures var mine, other := |clean[k].qa.value.a.text|, |pooled[j].qa.value.a.text|;
              other <= mine && (j < pos[k] ==> other < mine)
    {
      assert j in pos;
      var l :| 0 <= l < |pos| && pos[l] == j;
      assert clean[l] == pooled[j];
    }
  }

  lemma {:induction false} EntriesAreBest(pooled: seq<Dedup.Row>, r: Dedup.Row) returns (i: nat)
    requires Dedup.IsFirstLongest(CleanOf(pooled), r)
    ensures i < |pooled| && BestOfPool(pooled, i) && pooled[i] == r
  {
    var clean := CleanOf(pooled);
    hide BestOfPool, Usable;
    CleanRowsInOrder(pooled);
    var pos: seq<nat> :| Positions(pos, pooled, (r: Dedup.Row) => Usable(r)) && PickedAt(clean, pooled, pos);
    var k: nat :| Dedup.FirstLongest(clean, k) && clean[k] == r;
    hide Dedup.FirstLongest;
    FirstLongestIsBest(pooled, clean, pos, k);
    i := pos[k];
  }

  lemma {:induction false} UsableIsClean(pooled: seq<Dedup.Row>, r: Dedup.Row)
    requires r in pooled && Usable(r)
    ensures r in CleanOf(pooled)
  {
    CleanRowsInOrder(pooled);
    var clean := CleanOf(pooled);
    var pos: seq<nat> :| Positions(pos, pooled, (r: Dedup.Row) => Usable(r)) && PickedAt(clean, pooled, pos);
    var j :| 0 <= j < |pooled| && pooled[j] == r;
    assert j in pos;
    var l :| 0 <= l < |pos| && pos[l] == j;
    assert clean[l] == r;
  }

  // Without a clash, each written row with an id is the first with the longest answer among the usable
  // rows of the pool with that id, and no such id, if it is valid, is missing.
  lemma {:induction false} WrittenRowsAreBest(pooled: seq<Dedup.Row>, valid: Option<set<string>>,
      maxDropFraction: real)
    requires FilterSpec(pooled, valid, maxDropFraction).Clean? && !Dedup.Clash(CleanOf(pooled))
    ensures var rows := FilterSpec(pooled, valid, maxDropFraction).rows;
            && (forall r | r in rows && r.id.Some? ::
                  exists i: nat :: i < |pooled| && BestOfPool(pooled, i) && pooled[i] == r)
            && (forall r | r in pooled && Usable(r) && r.id.Some? && (valid.Some? ==> r.id.value in valid.value) ::
                  exists e :: e in rows && e.id == r.id)
  {
    var clean, rows := CleanOf(pooled), FilterSpec(pooled, valid, maxDropFraction).rows;
    hide FilterSpec, BestOfPool, Usable, CleanEntries, Dedup.IsFirstLongest, Dedup.Clash, Dedup.Simple;
    WrittenRowsAreCleanAndUnique(pooled, valid, maxDropFraction);
    Dedup.EntryIsFirstLongest(clean);
    forall r | r in rows && r.id.Some?
      ensures exists i: nat :: i < |pooled| && BestOfPool(pooled, i) && pooled[i] == r
    {
      var i := EntriesAreBest(pooled, r);
    }
    forall r | r in pooled && Usable(r) && r.id.Some? && (valid.Some? ==> r.id.value in valid.value)
      ensures exists e :: e in rows && e.id == r.id
    {
      UsableIsClean(pooled, r);
      var p := Dedup.Find(Dedup.Simple(clean), r.id.value);
      assert Dedup.Simple(clean)[p] in rows;
    }
  }
}
