// pass3_dedup: diet-friendly recipes, first seen wins against near-duplicates.
module NearDup {
  import opened Wrappers
  import opened Sequences

  datatype Recipe = Recipe(id: string, contentType: string, diet: Option<string>, tokens: set<string>)

  // Whether the index returns one signature when queried with another.
  type Near = (set<string>, set<string>) -> bool

  predicate Candidate(r: Recipe) {
    r.contentType == "structured_recipe" && r.diet.Some? && r.diet.value in {"vegan", "vegetarian"}
  }

  function Candidates(rows: seq<Recipe>): seq<Recipe> {
    if rows == [] then []
    else
      var init, last := Candidates(rows[..|rows| - 1]), rows[|rows| - 1];
      if Candidate(last) then init + [last] else init
  }

  function NonEmpty(rows: seq<Recipe>): seq<Recipe> {
    if rows == [] then []
    else
      var init, last := NonEmpty(rows[..|rows| - 1]), rows[|rows| - 1];
      if last.tokens != {} then init + [last] else init
  }

  predicate NearAny(index: seq<Recipe>, r: Recipe, near: Near) {
    exists i | 0 <= i < |index| :: near(index[i].tokens, r.tokens)
  }

  function Greedy(rows: seq<Recipe>, near: Near): seq<Recipe> {
    if rows == [] then []
    else
      var kept, last := Greedy(rows[..|rows| - 1], near), rows[|rows| - 1];
      if NearAny(kept, last, near) then kept else kept + [last]
  }

  // Inserting an id that the index already has raises.
  datatype Outcome = DuplicateKey | Deduped(kept: seq<Recipe>, candidates: nat, duplicates: nat, empties: nat)

  predicate DistinctIds(rows: seq<Recipe>) {
    forall i, j | 0 <= i < j < |rows| :: rows[i].id != rows[j].id
  }

  // The first pass: candidates with a signature are collected, the others counted.
  method Collect(rows: seq<Recipe>) returns (pending: seq<Recipe>, candidates: nat, empties: nat)
    ensures pending == NonEmpty(Candidates(rows))
    ensures candidates == |Candidates(rows)| && candidates == |pending| + empties
  {
    pending, candidates, empties := [], 0, 0;
    for i := 0 to |rows|
      invariant pending == NonEmpty(Candidates(rows[..i]))
      invariant candidates == |Candidates(rows[..i])| && candidates == |pending| + empties
    {
      assert rows[..i + 1][..i] == rows[..i];
      if !Candidate(rows[i]) {
        continue;
      }
      ghost var before := Candidates(rows[..i]);
      assert (before + [rows[i]])[..|before|] == before;
      candidates := candidates + 1;
      if rows[i].tokens == {} {
        empties := empties + 1;
      } else {
        pending := pending + [rows[i]];
      }
    }
    assert rows[..|rows|] == rows;
  }

  predicate HasId(index: seq<Recipe>, id: string) {
    exists i | 0 <= i < |index| :: index[i].id == id
  }

  lemma {:induction false} NextKept(pending: seq<Recipe>, near: Near, i: nat)
    requires i < |pending| && !NearAny(Greedy(pending[..i], near), pending[i], near)
    ensures Greedy(pending[..i], near) + [pending[i]] <= Greedy(pending, near)
  {
    var upTo := pending[..i + 1];
    assert upTo[..|upTo| - 1] == pending[..i] && upTo[|upTo| - 1] == pending[i];
    assert Greedy(upTo, near) == Greedy(pending[..i], near) + [pending[i]];
    hide Greedy;
    GreedyGrows(pending, near, i + 1, |pending|);
    assert pending[..|pending|] == pending;
  }

  lemma SameIdStays(index: seq<Recipe>, r: Recipe, all: seq<Recipe>)
    requires index + [r] <= all && HasId(index, r.id)
    ensures !DistinctIds(all)
  {
    var k :| 0 <= k < |index| && index[k].id == r.id;
    assert all[k] == (index + [r])[k] && all[|index|] == (index + [r])[|index|];
  }

  // The second pass over the index, from which nothing is ever removed.
  method Index(pending: seq<Recipe>, near: Near) returns (ok: bool, index: seq<Recipe>, duplicates: nat)
    ensures ok <==> DistinctIds(Greedy(pending, near))
    ensures ok ==> index == Greedy(pending, near) && |pending| == |index| + duplicates
  {
    index, duplicates := [], 0;
    for i := 0 to |pending|
      invariant index == Greedy(pending[..i], near) && DistinctIds(index)
      invariant i == |index| + duplicates
    {
      assert pending[..i + 1][..i] == pending[..i];
      if NearAny(index, pending[i], near) {
        duplicates := duplicates + 1;
        continue;
      }
      if HasId(index, pending[i].id) {
        NextKept(pending, near, i);
        SameIdStays(index, pending[i], Greedy(pending, near));
        return false, index, duplicates;
      }
      index := index + [pending[i]];
    }
    assert pending[..|pending|] == pending;
    ok := true;
  }

  method Dedup(rows: seq<Recipe>, near: Near) returns (outcome: Outcome)
    ensures outcome.DuplicateKey? <==> !DistinctIds(Greedy(NonEmpty(Candidates(rows)), near))
    ensures outcome.Deduped? ==>
              && outcome.kept == Greedy(NonEmpty(Candidates(rows)), near)
              && outcome.candidates == |Candidates(rows)|
              && outcome.empties == outcome.candidates - |NonEmpty(Candidates(rows))|
              && outcome.candidates == |outcome.kept| + outcome.duplicates + outcome.empties
  {
    var pending, candidates, empties := Collect(rows);
    var ok, kept, duplicates := Index(pending, near);
    outcome := if ok then Deduped(kept, candidates, duplicates, empties) else DuplicateKey;
  }

  lemma {:induction false} GreedyGrows(rows: seq<Recipe>, near: Near, m: nat, n: nat)
    requires m <= n <= |rows|
    ensures Greedy(rows[..m], near) <= Greedy(rows[..n], near)
  {
    if m < n {
      GreedyGrows(rows, near, m, n - 1);
      assert rows[..n][..n - 1] == rows[..n - 1];
    }
  }

  ghost predicate Independent(kept: seq<Recipe>, near: Near) {
    forall i, j | 0 <= i < j < |kept| :: !near(kept[i].tokens, kept[j].tokens)
  }

  // No kept row is near an earlier kept one.
  lemma {:induction false} KeptAreIndependent(rows: seq<Recipe>, near: Near)
    ensures Independent(Greedy(rows, near), near)
  {
    if rows != [] {
      KeptAreIndependent(rows[..|rows| - 1], near);
    }
  }

  // A row is dropped exactly when it is near a row kept before it: the kept rows are maximal.
  lemma {:induction false} DroppedExactlyWhenNear(rows: seq<Recipe>, near: Near, i: nat)
    requires i < |rows|
    ensures var before := Greedy(rows[..i], near);
            && before <= Greedy(rows, near)
            && Greedy(rows[..i + 1], near) == if NearAny(before, rows[i], near) then before else before + [rows[i]]
  {
    GreedyGrows(rows, near, i, |rows|);
    assert rows[..|rows|] == rows;
    assert rows[..i + 1][..i] == rows[..i];
  }

  // Every row is near a kept one: nothing could be added and stay independent.
  lemma {:induction false} KeptAreMaximal(rows: seq<Recipe>, near: Near, r: Recipe)
    requires r in rows && near(r.tokens, r.tokens)
    ensures NearAny(Greedy(rows, near), r, near)
  {
    var i :| 0 <= i < |rows| && rows[i] == r;
    DroppedExactlyWhenNear(rows, near, i);
    GreedyGrows(rows, near, i + 1, |rows|);
    assert rows[..|rows|] == rows;
    var before, after := Greedy(rows[..i], near), Greedy(rows[..i + 1], near);
    if NearAny(before, r, near) {
      var k :| 0 <= k < |before| && near(before[k].tokens, r.tokens);
      assert Greedy(rows, near)[k] == before[k];
    } else {
      assert after[|before|] == r;
      assert Greedy(rows, near)[|before|] == r;
    }
  }

  // Running the loop again on the kept rows changes nothing.
  lemma {:induction false} GreedyTwice(kept: seq<Recipe>, near: Near)
    requires Independent(kept, near)
    ensures Greedy(kept, near) == kept
  {
    if kept != [] {
      GreedyTwice(kept[..|kept| - 1], near);
      assert kept == kept[..|kept| - 1] + [kept[|kept| - 1]];
    }
  }

  lemma IdIsNew(rows: seq<Recipe>, part: seq<Recipe>)
    requires rows != [] && DistinctIds(rows) && DistinctIds(part)
    requires forall r | r in part :: r in rows[..|rows| - 1]
    ensures DistinctIds(part + [rows[|rows| - 1]])
  {
    forall i | 0 <= i < |part|
      ensures part[i].id != rows[|rows| - 1].id
    {
      assert part[i] in part;
      assert part[i] in rows[..|rows| - 1];
    }
  }

  lemma {:induction false} SubsequenceIds(rows: seq<Recipe>, near: Near)
    ensures forall r | r in Greedy(rows, near) :: r in rows
    ensures DistinctIds(rows) ==> DistinctIds(Greedy(rows, near))
  {
    if rows != [] {
      SubsequenceIds(rows[..|rows| - 1], near);
      assert rows == rows[..|rows| - 1] + [rows[|rows| - 1]];
      if DistinctIds(rows) {
        IdIsNew(rows, Greedy(rows[..|rows| - 1], near));
      }
    }
  }

  lemma {:induction false} FilteredIds(rows: seq<Recipe>)
    ensures forall r | r in Candidates(rows) :: r in rows && Candidate(r)
    ensures forall r | r in NonEmpty(rows) :: r in rows && r.tokens != {}
    ensures DistinctIds(rows) ==> DistinctIds(Candidates(rows)) && DistinctIds(NonEmpty(rows))
  {
    if rows != [] {
      FilteredIds(rows[..|rows| - 1]);
      assert rows == rows[..|rows| - 1] + [rows[|rows| - 1]];
      if DistinctIds(rows) {
        IdIsNew(rows, Candidates(rows[..|rows| - 1]));
        IdIsNew(rows, NonEmpty(rows[..|rows| - 1]));
      }
    }
  }

  lemma {:induction false} AllPass(rows: seq<Recipe>)
    ensures (forall r | r in rows :: Candidate(r)) ==> Candidates(rows) == rows
    ensures (forall r | r in rows :: r.tokens != {}) ==> NonEmpty(rows) == rows
  {
    if rows != [] {
      AllPass(rows[..|rows| - 1]);
      assert rows == rows[..|rows| - 1] + [rows[|rows| - 1]];
    }
  }

  // With distinct ids nothing raises, and a second pass over the output keeps all of it.
  lemma {:induction false} OutputIsStable(rows: seq<Recipe>, near: Near)
    requires DistinctIds(rows)
    ensures var kept := Greedy(NonEmpty(Candidates(rows)), near);
            DistinctIds(kept) && Greedy(NonEmpty(Candidates(kept)), near) == kept
  {
    FilteredIds(rows);
    FilteredIds(Candidates(rows));
    SubsequenceIds(NonEmpty(Candidates(rows)), near);
    var kept := Greedy(NonEmpty(Candidates(rows)), near);
    AllPass(kept);
    KeptAreIndependent(NonEmpty(Candidates(rows)), near);
    GreedyTwice(kept, near);
  }

  // ----- which rows the index sees -----

  // A recipe that its data marks as structured and as vegan or vegetarian.
  predicate MarkedFriendly(r: Recipe) {
    r.contentType == "structured_recipe" && (r.diet == Some("vegan") || r.diet == Some("vegetarian"))
  }

  lemma CandidateIsMarked(r: Recipe)
    ensures Candidate(r) <==> MarkedFriendly(r)
  {
  }

  // The candidates are the marked rows, and the pending ones those of them with a token, in input order.
  lemma {:induction false} PendingInOrder(rows: seq<Recipe>)
    ensures IsFilter(Candidates(rows), rows, r => MarkedFriendly(r))
    ensures IsFilter(NonEmpty(Candidates(rows)), rows, r => MarkedFriendly(r) && exists t :: t in r.tokens)
  {
    hide IsFilter, MarkedFriendly, Candidate;
    if rows == [] {
      FilterOfNothing<Recipe>(r => MarkedFriendly(r));
      FilterOfNothing<Recipe>(r => MarkedFriendly(r) && exists t :: t in r.tokens);
    } else {
      var init, last := rows[..|rows| - 1], rows[|rows| - 1];
      PendingInOrder(init);
      CandidateIsMarked(last);
      var before := Candidates(init);
      assert (before + [last])[..|before|] == before;
      FilterOfMore(before, init, last, r => MarkedFriendly(r));
      FilterOfMore(NonEmpty(before), init, last, r => MarkedFriendly(r) && exists t :: t in r.tokens);
      assert rows == init + [last];
    }
  }

  // The kept rows, of any rows: marked rows with tokens, no two of them near, and every other such
  // row near one of them.
  lemma {:induction false} KeptOfRows(rows: seq<Recipe>, near: Near)
    requires forall a: set<string> :: near(a, a)
    ensures var kept := Greedy(NonEmpty(Candidates(rows)), near);
            && Independent(kept, near)
            && (forall r | r in kept :: r in rows && MarkedFriendly(r) && r.tokens != {})
            && (forall r | r in rows && MarkedFriendly(r) && r.tokens != {} ::
                  exists k | 0 <= k < |kept| :: near(kept[k].tokens, r.tokens))
  {
    var pending := NonEmpty(Candidates(rows));
    FilteredIds(rows);
    FilteredIds(Candidates(rows));
    SubsequenceIds(pending, near);
    KeptAreIndependent(pending, near);
    forall r | r in Greedy(pending, near)
      ensures r in rows && MarkedFriendly(r) && r.tokens != {}
    {
      CandidateIsMarked(r);
    }
    forall r | r in rows && MarkedFriendly(r) && r.tokens != {}
      ensures exists k | 0 <= k < |Greedy(pending, near)| :: near(Greedy(pending, near)[k].tokens, r.tokens)
    {
      MarkedIsPending(rows, r);
      KeptAreMaximal(pending, near, r);
    }
  }

  lemma {:induction false} MarkedIsPending(rows: seq<Recipe>, r: Recipe)
    requires r in rows && MarkedFriendly(r) && r.tokens != {}
    ensures r in NonEmpty(Candidates(rows))
  {
    var init, last := rows[..|rows| - 1], rows[|rows| - 1];
    var before := Candidates(init);
    assert rows == init + [last];
    assert (before + [last])[..|before|] == before;
    if r in init {
      MarkedIsPending(init, r);
    }
  }
}
