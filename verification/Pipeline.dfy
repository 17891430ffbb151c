// From pooled teacher responses to training splits: filter_clean, chat conversion and the
// group-stratified split, one after the other.
module Pipeline {
  import opened Wrappers
  import Dedup
  import Splitter

  datatype FilterOutcome = EmptyValidIds | TooManyDropped(dropped: nat, deduped: nat) | Clean(rows: seq<Dedup.Row>)

  function CleanOf(rows: seq<Dedup.Row>): seq<Dedup.Row> {
    if rows == [] then []
    else
      var init, last := CleanOf(rows[..|rows| - 1]), rows[|rows| - 1];
      if Dedup.IsClean(last) then init + [last] else init
  }

  function ValidOf(rows: seq<Dedup.Row>, valid: set<string>): (kept: seq<Dedup.Row>)
    ensures |kept| <= |rows|
  {
    if rows == [] then []
    else
      var init, last := ValidOf(rows[..|rows| - 1], valid), rows[|rows| - 1];
      if last.id.Some? && last.id.value in valid then init + [last] else init
  }

  function DropFraction(dropped: nat, deduped: nat): real {
    if deduped == 0 then 0.0 else dropped as real / deduped as real
  }

  // The rows that filter_clean writes, when it writes. valid: the ids of the prompt files, if given.
  function FilterSpec(pooled: seq<Dedup.Row>, valid: Option<set<string>>, maxDropFraction: real): FilterOutcome {
    var deduped := Dedup.LoopResult(CleanOf(pooled));
    if valid.None? then Clean(deduped)
    else if valid.value == {} then EmptyValidIds
    else
      var kept := ValidOf(deduped, valid.value);
      var dropped := |deduped| - |kept|;
      if DropFraction(dropped, |deduped|) > maxDropFraction then TooManyDropped(dropped, |deduped|) else Clean(kept)
  }

  method KeepClean(rows: seq<Dedup.Row>) returns (clean: seq<Dedup.Row>)
    ensures clean == CleanOf(rows)
  {
    clean := [];
    for i := 0 to |rows|
      invariant clean == CleanOf(rows[..i])
    {
      assert rows[..i + 1][..i] == rows[..i];
      if Dedup.IsClean(rows[i]) {
        clean := clean + [rows[i]];
      }
    }
    assert rows[..|rows|] == rows;
  }

  method KeepValid(rows: seq<Dedup.Row>, valid: set<string>) returns (kept: seq<Dedup.Row>)
    ensures kept == ValidOf(rows, valid)
  {
    kept := [];
    for i := 0 to |rows|
      invariant kept == ValidOf(rows[..i], valid)
    {
      assert rows[..i + 1][..i] == rows[..i];
      if rows[i].id.Some? && rows[i].id.value in valid {
        kept := kept + [rows[i]];
      }
    }
    assert rows[..|rows|] == rows;
  }

  method FilterClean(pooled: seq<Dedup.Row>, valid: Option<set<string>>, maxDropFraction: real)
    returns (outcome: FilterOutcome)
    ensures outcome == FilterSpec(pooled, valid, maxDropFraction)
  {
    var clean := KeepClean(pooled);
    var deduped, collisions := Dedup.DedupById(clean);
    if valid.None? {
      return Clean(deduped);
    }
    if valid.value == {} {
      return EmptyValidIds;
    }
    var kept := KeepValid(deduped, valid.value);
    var dropped := |deduped| - |kept|;
    outcome :=
      if DropFraction(dropped, |deduped|) > maxDropFraction then TooManyDropped(dropped, |deduped|) else Clean(kept);
  }

  // to_chat_format: None for a row it skips.
  function ToChat(r: Dedup.Row): Option<Splitter.Row> {
    if r.qa.Some? && Dedup.HasText(r.qa.value.q) && Dedup.HasText(r.qa.value.a) then
      Some(Splitter.Row(r.id, r.grounding, r.qa.value.q.text, r.qa.value.a.text))
    else None
  }

  function ChatRows(rows: seq<Dedup.Row>): seq<Splitter.Row> {
    if rows == [] then []
    else
      var init, last := ChatRows(rows[..|rows| - 1]), ToChat(rows[|rows| - 1]);
      if last.Some? then init + [last.value] else init
  }

  ghost predicate CleanEntries(rows: seq<Dedup.Row>) {
    (forall r | r in rows :: Dedup.IsClean(r)) && Dedup.OneEntryEach(rows)
  }

  lemma {:induction false} CleanOfIsClean(rows: seq<Dedup.Row>)
    ensures forall r | r in CleanOf(rows) :: Dedup.IsClean(r) && r in rows
  {
    if rows != [] {
      CleanOfIsClean(rows[..|rows| - 1]);
    }
  }

  lemma {:induction false} ValidOfKeeps(rows: seq<Dedup.Row>, valid: set<string>)
    requires CleanEntries(rows)
    ensures CleanEntries(ValidOf(rows, valid))
    ensures forall r :: r in ValidOf(rows, valid) <==> r in rows && r.id.Some? && r.id.value in valid
  {
    if rows != [] {
      var init, last := rows[..|rows| - 1], rows[|rows| - 1];
      assert rows == init + [last];
      ValidOfKeeps(init, valid);
    }
  }

  // What is written: clean rows, at most one for each id, exactly the deduplicated ones, with a valid
  // id when ids are given, and no more than the allowed fraction missing. Without a clash the
  // deduplicated rows are those of the plain specification.
  lemma {:induction false} WrittenRowsAreCleanAndUnique(pooled: seq<Dedup.Row>, valid: Option<set<string>>,
      maxDropFraction: real)
    requires FilterSpec(pooled, valid, maxDropFraction).Clean?
    ensures var rows := FilterSpec(pooled, valid, maxDropFraction).rows;
            var deduped := Dedup.LoopResult(CleanOf(pooled));
            && CleanEntries(rows) && (forall r | r in rows :: r in pooled)
            && (forall r :: r in rows <==> r in deduped && (valid.Some? ==> r.id.Some? && r.id.value in valid.value))
            && (valid.Some? ==> |rows| <= |deduped| && DropFraction(|deduped| - |rows|, |deduped|) <= maxDropFraction)
    ensures !Dedup.Clash(CleanOf(pooled)) ==> Dedup.LoopResult(CleanOf(pooled)) == Dedup.Simple(CleanOf(pooled))
  {
    hide Dedup.IsClean, Dedup.Clash, Dedup.LoopResult, Dedup.OneEntryEach;
    var clean := CleanOf(pooled);
    CleanOfIsClean(pooled);
    Dedup.LoopIsSimpleExactlyWhen(clean);
    Dedup.LoopKeepsDistinctIds(clean);
    if valid.Some? {
      ValidOfKeeps(Dedup.LoopResult(clean), valid.value);
    }
  }

  predicate HasBoth(r: Dedup.Row) {
    r.qa.Some? && r.qa.value.q.Str? && r.qa.value.a.Str?
  }

  // Row for row, with the id, the grounding id, the question and the answer it had.
  predicate IsChatOf(chat: seq<Splitter.Row>, rows: seq<Dedup.Row>) {
    && |chat| == |rows|
    && forall i | 0 <= i < |rows| ::
         && HasBoth(rows[i])
         && chat[i] == Splitter.Row(rows[i].id, rows[i].grounding, rows[i].qa.value.q.text, rows[i].qa.value.a.text)
  }

  // Chat conversion skips no clean row, and changes none.
  lemma {:induction false} ChatSkipsNone(rows: seq<Dedup.Row>)
    requires forall r | r in rows :: Dedup.IsClean(r)
    ensures |ChatRows(rows)| == |rows|
    ensures forall i | 0 <= i < |rows| :: ToChat(rows[i]) == Some(ChatRows(rows)[i])
    ensures IsChatOf(ChatRows(rows), rows)
  {
    if rows != [] {
      var init, last := rows[..|rows| - 1], rows[|rows| - 1];
      assert rows == init + [last] && last in rows;
      ChatSkipsNone(init);
    }
  }

  lemma {:induction false} IdOccursOnce(rows: seq<Splitter.Row>, x: Splitter.Row)
    requires x.id.Some?
    requires forall i, j | 0 <= i < j < |rows| && rows[i].id.Some? :: rows[i].id != rows[j].id
    ensures multiset(rows)[x] <= 1
  {
    if rows != [] {
      var init, last := rows[..|rows| - 1], rows[|rows| - 1];
      assert rows == init + [last];
      IdOccursOnce(init, x);
      if x == last {
        forall i | 0 <= i < |init|
          ensures init[i] != x
        {
          assert init[i] == rows[i];
        }
        assert x !in init;
      }
    }
  }

  // Which splits hold row x, and how often.
  function Holders(splits: Splitter.Splits, x: Splitter.Row): nat {
    multiset(splits[0])[x] + multiset(splits[1])[x] + multiset(splits[2])[x]
  }

  lemma {:induction false} DistinctIdsInChat(rows: seq<Dedup.Row>)
    requires CleanEntries(rows)
    ensures forall i, j | 0 <= i < j < |ChatRows(rows)| && ChatRows(rows)[i].id.Some? ::
              ChatRows(rows)[i].id != ChatRows(rows)[j].id
  {
    var chat := ChatRows(rows);
    ChatSkipsNone(rows);
    forall i, j | 0 <= i < j < |chat| && chat[i].id.Some?
      ensures chat[i].id != chat[j].id
    {
      assert ToChat(rows[i]) == Some(chat[i]) && ToChat(rows[j]) == Some(chat[j]);
    }
  }

  // Any clean rows, one for each id.
  lemma {:induction false} CleanRowsReachOneSplit(rows: seq<Dedup.Row>, w: Splitter.Weights,
      shuffle: seq<Splitter.Group> -> seq<Splitter.Group>)
    requires CleanEntries(rows) && Splitter.Shuffles(shuffle)
    ensures var splits := Splitter.SplitSpec(ChatRows(rows), w, shuffle);
            && (forall r | r in rows && r.id.Some? ::
                  && HasBoth(r)
                  && Holders(splits, Splitter.Row(r.id, r.grounding, r.qa.value.q.text, r.qa.value.a.text)) == 1)
            && Splitter.RowsIn(splits) == multiset(ChatRows(rows)) && IsChatOf(ChatRows(rows), rows)
            && !Splitter.Leaks(splits)
  {
    var chat := ChatRows(rows);
    ChatSkipsNone(rows);
    DistinctIdsInChat(rows);
    Splitter.SplitIsPartition(chat, w, shuffle);
    Splitter.NoLeakage(chat, w, shuffle);
    var splits := Splitter.SplitSpec(chat, w, shuffle);
    hide CleanEntries, Splitter.SplitSpec, Splitter.Leaks, Splitter.Shuffles;
    forall r | r in rows && r.id.Some?
      ensures HasBoth(r)
      ensures Holders(splits, Splitter.Row(r.id, r.grounding, r.qa.value.q.text, r.qa.value.a.text)) == 1
    {
      var i :| 0 <= i < |rows| && rows[i] == r;
      assert ToChat(r) == Some(chat[i]) && chat[i] in chat;
      IdOccursOnce(chat, chat[i]);
      assert chat[i] in multiset(chat);
      assert Splitter.RowsIn(splits)[chat[i]] == Holders(splits, chat[i]);
    }
  }

  // Every row with an id that filter_clean writes reaches exactly one place in exactly one split,
  // with its own question, answer and grounding id; the splits hold nothing else, and rows of one
  // grounding id are together.
  lemma WrittenRowsReachOneSplit(pooled: seq<Dedup.Row>, valid: Option<set<string>>, maxDropFraction: real,
      w: Splitter.Weights, shuffle: seq<Splitter.Group> -> seq<Splitter.Group>)
    requires FilterSpec(pooled, valid, maxDropFraction).Clean? && Splitter.Shuffles(shuffle)
    ensures var rows := FilterSpec(pooled, valid, maxDropFraction).rows;
            var splits := Splitter.SplitSpec(ChatRows(rows), w, shuffle);
            && (forall r | r in rows && r.id.Some? ::
                  && HasBoth(r)
                  && Holders(splits, Splitter.Row(r.id, r.grounding, r.qa.value.q.text, r.qa.value.a.text)) == 1)
            && Splitter.RowsIn(splits) == multiset(ChatRows(rows)) && IsChatOf(ChatRows(rows), rows)
            && !Splitter.Leaks(splits)
  {
    WrittenRowsAreCleanAndUnique(pooled, valid, maxDropFraction);
    CleanRowsReachOneSplit(FilterSpec(pooled, valid, maxDropFraction).rows, w, shuffle);
  }
}
