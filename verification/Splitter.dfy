// Group-stratified split: rows with the same grounding id stay together; groups are placed
// largest first into the split furthest below its target.
module Splitter {
  import opened Wrappers
  import opened Sequences
  import Decimal

  datatype Row = Row(id: Option<string>, grounding: Option<int>, question: string, answer: string)

  datatype Group = Group(key: string, members: seq<Row>)

  // Python's dict of lists: keys in order of first insertion.
  datatype Groups = Groups(order: seq<string>, members: map<string, seq<Row>>)

  const SPLITS := 3

  // train, val, test
  type Splits = s: seq<seq<Row>> | |s| == SPLITS witness [[], [], []]

  type Weights = w: seq<real> | |w| == SPLITS && (forall i | 0 <= i < SPLITS :: w[i] >= 0.0) && w[0] + w[1] + w[2] > 0.0
    witness [1.0, 0.0, 0.0]

  datatype Outcome = NoRows | Leakage | Written(splits: Splits)

  function GroupKey(r: Row, i: nat): string {
    match r.grounding
    case None => "__singleton_" + Decimal.OfNat(i)
    case Some(g) => "g" + Decimal.OfInt(g)
  }

  function Add(g: Groups, key: string, r: Row): Groups {
    if key in g.members then Groups(g.order, g.members[key := g.members[key] + [r]])
    else Groups(g.order + [key], g.members[key := [r]])
  }

  function GroupsOf(rows: seq<Row>, n: nat): Groups
    requires n <= |rows|
  {
    if n == 0 then Groups([], map[]) else Add(GroupsOf(rows, n - 1), GroupKey(rows[n - 1], n - 1), rows[n - 1])
  }

  ghost predicate WellKept(g: Groups) {
    (forall k :: k in g.order <==> k in g.members) && forall i, j | 0 <= i < j < |g.order| :: g.order[i] != g.order[j]
  }

  function Items(g: Groups): seq<Group>
    requires forall k | k in g.order :: k in g.members
  {
    seq(|g.order|, i requires 0 <= i < |g.order| =>
      assert g.order[i] in g.order; Group(g.order[i], g.members[g.order[i]]))
  }

  // Stable insertion, larger groups first.
  function Insert(g: Group, s: seq<Group>): seq<Group> {
    if s == [] || |g.members| >= |s[0].members| then [g] + s else [s[0]] + Insert(g, s[1..])
  }

  function SortedBySize(s: seq<Group>): seq<Group> {
    if s == [] then [] else Insert(s[0], SortedBySize(s[1..]))
  }

  function Target(w: Weights, n: nat, i: nat): real
    requires i < SPLITS
  {
    w[i] / (w[0] + w[1] + w[2]) * n as real
  }

  function Deficit(w: Weights, n: nat, splits: Splits, i: nat): real
    requires i < SPLITS
  {
    Target(w, n, i) - |splits[i]| as real
  }

  // The first split with the greatest deficit.
  function Furthest(w: Weights, n: nat, splits: Splits): (best: nat)
    ensures best < SPLITS
    ensures forall i: nat | i < SPLITS :: Deficit(w, n, splits, i) <= Deficit(w, n, splits, best)
    ensures forall i: nat | i < best :: Deficit(w, n, splits, i) < Deficit(w, n, splits, best)
  {
    var first := if Deficit(w, n, splits, 1) > Deficit(w, n, splits, 0) then 1 else 0;
    if Deficit(w, n, splits, 2) > Deficit(w, n, splits, first) then 2 else first
  }

  function Place(w: Weights, n: nat, splits: Splits, g: Group): Splits {
    var best := Furthest(w, n, splits);
    splits[best := splits[best] + g.members]
  }

  function PlaceAll(w: Weights, n: nat, groups: seq<Group>, k: nat): Splits
    requires k <= |groups|
  {
    if k == 0 then [[], [], []] else Place(w, n, PlaceAll(w, n, groups, k - 1), groups[k - 1])
  }

  // Some grounding id occurs in two splits.
  ghost predicate Leaks(splits: Splits) {
    exists i: nat, j: nat, r, s ::
      i < j < SPLITS && r in splits[i] && s in splits[j] && r.grounding.Some? && r.grounding == s.grounding
  }

  ghost predicate Shuffles(shuffle: seq<Group> -> seq<Group>) {
    forall s :: multiset(shuffle(s)) == multiset(s)
  }

  lemma {:induction false} GroupsWellKept(rows: seq<Row>, n: nat)
    requires n <= |rows|
    ensures WellKept(GroupsOf(rows, n))
  {
    if n > 0 {
      GroupsWellKept(rows, n - 1);
    }
  }

  // The groups in the order in which they are placed, for a given shuffle.
  function SplitGroups(rows: seq<Row>, shuffle: seq<Group> -> seq<Group>): seq<Group> {
    GroupsWellKept(rows, |rows|);
    SortedBySize(shuffle(Items(GroupsOf(rows, |rows|))))
  }

  // What main computes.
  function SplitSpec(rows: seq<Row>, w: Weights, shuffle: seq<Group> -> seq<Group>): Splits {
    var groups := SplitGroups(rows, shuffle);
    PlaceAll(w, |rows|, groups, |groups|)
  }

  // Appending to a list that was just created is starting it with the row.
  lemma NewListIsAdd(g: Groups, key: string, r: Row)
    ensures key !in g.members ==> Add(g, key, r) == Groups(g.order + [key], g.members[key := []][key := [] + [r]])
  {
    assert [] + [r] == [r];
    assert g.members[key := []][key := [r]] == g.members[key := [r]];
  }

  method BuildGroups(rows: seq<Row>) returns (order: seq<string>, members: map<string, seq<Row>>)
    ensures Groups(order, members) == GroupsOf(rows, |rows|) && WellKept(Groups(order, members))
  {
    order, members := [], map[];
    for i := 0 to |rows|
      invariant Groups(order, members) == GroupsOf(rows, i)
    {
      var key := GroupKey(rows[i], i);
      ghost var before := Groups(order, members);
      if key !in members {
        order, members := order + [key], members[key := []];
      }
      members := members[key := members[key] + [rows[i]]];
      NewListIsAdd(before, key, rows[i]);
    }
    GroupsWellKept(rows, |rows|);
  }

  method FindFurthest(w: Weights, n: nat, splits: Splits) returns (best: nat)
    ensures best == Furthest(w, n, splits)
  {
    best := 0;
    var bestDeficit := 0.0;
    for i := 0 to SPLITS
      invariant i > 0 ==> best < i && bestDeficit == Deficit(w, n, splits, best)
      invariant i > 0 ==> forall j: nat | j < i :: Deficit(w, n, splits, j) <= bestDeficit
      invariant i > 0 ==> forall j: nat | j < best :: Deficit(w, n, splits, j) < bestDeficit
    {
      var deficit := Target(w, n, i) - |splits[i]| as real;
      if i == 0 || deficit > bestDeficit {
        best, bestDeficit := i, deficit;
      }
    }
    assert Deficit(w, n, splits, best) == Deficit(w, n, splits, Furthest(w, n, splits));
  }

  method PlaceGroups(w: Weights, n: nat, items: seq<Group>) returns (splits: Splits)
    ensures splits == PlaceAll(w, n, items, |items|)
  {
    splits := [[], [], []];
    for k := 0 to |items|
      invariant splits == PlaceAll(w, n, items, k)
    {
      var best := FindFurthest(w, n, splits);
      splits := splits[best := splits[best] + items[k].members];
    }
  }

  method Split(rows: seq<Row>, w: Weights, shuffle: seq<Group> -> seq<Group>) returns (outcome: Outcome)
    requires Shuffles(shuffle)
    ensures outcome == if rows == [] then NoRows else Written(SplitSpec(rows, w, shuffle))
  {
    var n := |rows|;
    if n == 0 {
      return NoRows;
    }
    var order, members := BuildGroups(rows);
    var items := SortedBySize(shuffle(Items(Groups(order, members))));
    var splits := PlaceGroups(w, n, items);
    var leaked := FindLeakage(splits);
    NoLeakage(rows, w, shuffle);
    outcome := if leaked then Leakage else Written(splits);
  }

  // ----- the leakage check -----

  predicate HasGrounding(rows: seq<Row>, g: int) {
    exists k | 0 <= k < |rows| :: rows[k].grounding == Some(g)
  }

  predicate Noted(seen: map<int, set<nat>>, g: int, j: nat) {
    g in seen && j in seen[g]
  }

  // seen notes the ids of all splits before i, and of the first m rows of split i.
  ghost predicate Tracks(seen: map<int, set<nat>>, splits: Splits, i: nat, m: nat)
    requires i < SPLITS && m <= |splits[i]|
  {
    forall g: int, j: nat :: Noted(seen, g, j) <==>
      (j < i && HasGrounding(splits[j], g)) || (j == i && HasGrounding(splits[i][..m], g))
  }

  lemma HasGroundingPlus(rows: seq<Row>, m: nat, g: int)
    requires m < |rows|
    ensures HasGrounding(rows[..m + 1], g) <==> HasGrounding(rows[..m], g) || rows[m].grounding == Some(g)
  {
    assert rows[..m + 1][m] == rows[m];
    assert forall k | 0 <= k < m :: rows[..m + 1][k] == rows[..m][k];
  }

  method NoteRow(seen: map<int, set<nat>>, ghost splits: Splits, i: nat, ghost m: nat, r: Row)
    returns (next: map<int, set<nat>>)
    requires i < SPLITS && m < |splits[i]| && r == splits[i][m] && Tracks(seen, splits, i, m)
    ensures Tracks(next, splits, i, m + 1)
  {
    next := seen;
    match r.grounding
    case None =>
    case Some(g) => next := seen[g := (if g in seen then seen[g] else {}) + {i}];
    assert forall g: int, j: nat :: Noted(next, g, j) <==> Noted(seen, g, j) || (j == i && r.grounding == Some(g));
    forall g: int
      ensures HasGrounding(splits[i][..m + 1], g) <==> HasGrounding(splits[i][..m], g) || r.grounding == Some(g)
    {
      HasGroundingPlus(splits[i], m, g);
    }
  }

  ghost predicate InTwo(seen: map<int, set<nat>>, g: int) {
    exists i: nat, j: nat :: i < j && Noted(seen, g, i) && Noted(seen, g, j)
  }

  lemma MoreThanOne(seen: map<int, set<nat>>, g: int)
    requires g in seen
    ensures |seen[g]| > 1 <==> InTwo(seen, g)
  {
    var s := seen[g];
    if |s| > 1 {
      var i :| i in s;
      assert |s - {i}| > 0;
      var j :| j in s - {i};
      assert Noted(seen, g, i) && Noted(seen, g, j);
    }
    if InTwo(seen, g) {
      var i: nat, j: nat :| i < j && Noted(seen, g, i) && Noted(seen, g, j);
      assert {i, j} <= s;
      assert |s - {i, j}| == |s| - 2;
    }
  }

  // In the end an id is noted for exactly the splits that hold a row with it.
  lemma NotedIsHeld(seen: map<int, set<nat>>, splits: Splits, g: int, j: nat)
    requires Tracks(seen, splits, SPLITS - 1, |splits[SPLITS - 1]|)
    ensures Noted(seen, g, j) <==> j < SPLITS && HasGrounding(splits[j], g)
  {
    assert splits[SPLITS - 1][..|splits[SPLITS - 1]|] == splits[SPLITS - 1];
  }

  lemma LeakIsNoted(seen: map<int, set<nat>>, splits: Splits)
    requires Tracks(seen, splits, SPLITS - 1, |splits[SPLITS - 1]|) && Leaks(splits)
    ensures exists g :: g in seen && InTwo(seen, g)
  {
    var i: nat, j: nat, r, s :|
      i < j < SPLITS && r in splits[i] && s in splits[j] && r.grounding.Some? && r.grounding == s.grounding;
    var g := r.grounding.value;
    hide Tracks;
    NotedIsHeld(seen, splits, g, i);
    NotedIsHeld(seen, splits, g, j);
    assert HasGrounding(splits[i], g) && HasGrounding(splits[j], g);
  }

  lemma NotedIsLeak(seen: map<int, set<nat>>, splits: Splits, g: int)
    requires Tracks(seen, splits, SPLITS - 1, |splits[SPLITS - 1]|) && InTwo(seen, g)
    ensures Leaks(splits)
  {
    var i: nat, j: nat :| i < j && Noted(seen, g, i) && Noted(seen, g, j);
    NotedIsHeld(seen, splits, g, i);
    NotedIsHeld(seen, splits, g, j);
    hide Tracks, Noted;
    var k :| 0 <= k < |splits[i]| && splits[i][k].grounding == Some(g);
    var l :| 0 <= l < |splits[j]| && splits[j][l].grounding == Some(g);
    assert splits[i][k] in splits[i] && splits[j][l] in splits[j];
  }

  method FindLeakage(splits: Splits) returns (leaked: bool)
    ensures leaked <==> Leaks(splits)
  {
    var seen: map<int, set<nat>> := map[];
    for i := 0 to SPLITS
      invariant if i < SPLITS then Tracks(seen, splits, i, 0)
                else Tracks(seen, splits, SPLITS - 1, |splits[SPLITS - 1]|)
    {
      for k := 0 to |splits[i]|
        invariant Tracks(seen, splits, i, k)
      {
        seen := NoteRow(seen, splits, i, k, splits[i][k]);
      }
      assert splits[i][..|splits[i]|] == splits[i];
    }
    leaked := exists g | g in seen :: |seen[g]| > 1;
    if leaked {
      ghost var g :| g in seen && |seen[g]| > 1;
      MoreThanOne(seen, g);
      NotedIsLeak(seen, splits, g);
    } else {
      forall g | g in seen
        ensures !InTwo(seen, g)
      {
        MoreThanOne(seen, g);
      }
      if Leaks(splits) {
        LeakIsNoted(seen, splits);
      }
    }
  }

  // ----- every row once, every grounding id in one split -----

  function RowsOf(groups: seq<Group>): multiset<Row> {
    if groups == [] then multiset{} else multiset(groups[0].members) + RowsOf(groups[1..])
  }

  lemma {:induction false} RowsOfSum(a: seq<Group>, b: seq<Group>)
    ensures RowsOf(a + b) == RowsOf(a) + RowsOf(b)
  {
    if a == [] {
      assert a + b == b;
    } else {
      assert (a + b)[1..] == a[1..] + b;
      RowsOfSum(a[1..], b);
    }
  }

  lemma {:induction false} RowsOfTakenOut(b: seq<Group>, i: nat)
    requires i < |b|
    ensures RowsOf(b) == multiset(b[i].members) + RowsOf(b[..i] + b[i + 1..])
  {
    if i == 0 {
      assert b[..0] + b[1..] == b[1..];
    } else {
      RowsOfTakenOut(b[1..], i - 1);
      var without := b[..i] + b[i + 1..];
      assert without[0] == b[0] && without[1..] == b[1..][..i - 1] + b[1..][i..];
    }
  }

  lemma TakenOut(b: seq<Group>, i: nat)
    requires i < |b|
    ensures multiset(b[..i] + b[i + 1..]) == multiset(b) - multiset{b[i]}
  {
    assert b == b[..i] + ([b[i]] + b[i + 1..]);
    assert multiset(b) == multiset(b[..i]) + (multiset{b[i]} + multiset(b[i + 1..]));
  }

  lemma {:induction false} RowsOfPermutation(a: seq<Group>, b: seq<Group>)
    requires multiset(a) == multiset(b)
    ensures RowsOf(a) == RowsOf(b)
  {
    if a == [] {
      assert |multiset(b)| == 0;
      assert b == [];
    } else {
      assert a[0] in multiset(b);
      var i :| 0 <= i < |b| && b[i] == a[0];
      RowsOfTakenOut(b, i);
      TakenOut(b, i);
      assert a == [a[0]] + a[1..];
      assert multiset(a[1..]) == multiset(a) - multiset{a[0]};
      RowsOfPermutation(a[1..], b[..i] + b[i + 1..]);
    }
  }

  ghost predicate Descending(s: seq<Group>) {
    forall i, j | 0 <= i < j < |s| :: |s[i].members| >= |s[j].members|
  }

  lemma {:induction false} InsertKeeps(g: Group, s: seq<Group>)
    ensures multiset(Insert(g, s)) == multiset{g} + multiset(s)
  {
    if s != [] && |g.members| < |s[0].members| {
      InsertKeeps(g, s[1..]);
      assert s == [s[0]] + s[1..];
    }
  }

  lemma {:induction false} InsertSorts(g: Group, s: seq<Group>)
    requires Descending(s)
    ensures Descending(Insert(g, s))
  {
    if s != [] && |g.members| < |s[0].members| {
      InsertSorts(g, s[1..]);
      InsertKeeps(g, s[1..]);
      var rest := Insert(g, s[1..]);
      forall i | 0 <= i < |rest|
        ensures |rest[i].members| <= |s[0].members|
      {
        assert rest[i] in multiset(rest);
        assert rest[i] == g || rest[i] in s[1..];
      }
    }
  }

  // The sort puts larger groups first and keeps every group.
  lemma {:induction false} SortedIsSorted(s: seq<Group>)
    ensures Descending(SortedBySize(s)) && multiset(SortedBySize(s)) == multiset(s)
  {
    if s != [] {
      SortedIsSorted(s[1..]);
      InsertSorts(s[0], SortedBySize(s[1..]));
      InsertKeeps(s[0], SortedBySize(s[1..]));
      assert s == [s[0]] + s[1..];
    }
  }

  lemma RowsOfReplaced(items: seq<Group>, p: nat, g: Group)
    requires p < |items|
    ensures RowsOf(items[p := g]) == RowsOf(items) - multiset(items[p].members) + multiset(g.members)
  {
    assert items == items[..p] + ([items[p]] + items[p + 1..]);
    assert items[p := g] == items[..p] + ([g] + items[p + 1..]);
    RowsOfSum(items[..p], [items[p]] + items[p + 1..]);
    RowsOfSum(items[..p], [g] + items[p + 1..]);
    assert ([items[p]] + items[p + 1..])[1..] == items[p + 1..] == ([g] + items[p + 1..])[1..];
  }

  lemma ItemsAfterAdd(g: Groups, key: string, r: Row) returns (p: nat)
    requires WellKept(g) && WellKept(Add(g, key, r))
    ensures key !in g.members ==> Items(Add(g, key, r)) == Items(g) + [Group(key, [r])]
    ensures key in g.members ==>
              && p < |Items(g)| && Items(g)[p].members == g.members[key]
              && Items(Add(g, key, r)) == Items(g)[p := Group(key, g.members[key] + [r])]
  {
    p := 0;
    if key in g.members {
      p :| 0 <= p < |g.order| && g.order[p] == key;
    }
  }

  lemma RowsOfAdded(g: Groups, key: string, r: Row)
    requires WellKept(g) && WellKept(Add(g, key, r))
    ensures RowsOf(Items(Add(g, key, r))) == RowsOf(Items(g)) + multiset{r}
  {
    var p := ItemsAfterAdd(g, key, r);
    hide Items, Add, WellKept;
    var items := Items(g);
    if key in g.members {
      var h := Group(key, g.members[key] + [r]);
      RowsOfReplaced(items, p, h);
      RowsOfContains(items, p);
      assert multiset(h.members) == multiset(items[p].members) + multiset{r};
    } else {
      var h := Group(key, [r]);
      RowsOfSum(items, [h]);
      assert [h][1..] == [];
    }
  }

  lemma {:induction false} RowsOfContains(items: seq<Group>, p: nat)
    requires p < |items|
    ensures multiset(items[p].members) <= RowsOf(items)
  {
    if p > 0 {
      RowsOfContains(items[1..], p - 1);
    }
  }

  lemma {:induction false} RowsOfGroups(rows: seq<Row>, n: nat)
    requires n <= |rows| && WellKept(GroupsOf(rows, n))
    ensures RowsOf(Items(GroupsOf(rows, n))) == multiset(rows[..n])
  {
    hide Items, Add, WellKept, GroupKey, RowsOf;
    if n > 0 {
      GroupsWellKept(rows, n - 1);
      RowsOfGroups(rows, n - 1);
      RowsOfAdded(GroupsOf(rows, n - 1), GroupKey(rows[n - 1], n - 1), rows[n - 1]);
      assert rows[..n] == rows[..n - 1] + [rows[n - 1]];
    } else {
      NoGroups();
    }
  }

  lemma NoGroups()
    ensures RowsOf(Items(Groups([], map[]))) == multiset{}
  {
  }

  function RowsIn(splits: Splits): multiset<Row> {
    multiset(splits[0]) + multiset(splits[1]) + multiset(splits[2])
  }

  lemma PlacedRow(w: Weights, n: nat, splits: Splits, g: Group)
    ensures RowsIn(Place(w, n, splits, g)) == RowsIn(splits) + multiset(g.members)
  {
    var best := Furthest(w, n, splits);
    assert multiset(splits[best] + g.members) == multiset(splits[best]) + multiset(g.members);
    if best == 0 {
    } else if best == 1 {
    } else {
    }
  }

  lemma {:induction false} PlacedRows(w: Weights, n: nat, groups: seq<Group>, k: nat)
    requires k <= |groups|
    ensures RowsIn(PlaceAll(w, n, groups, k)) == RowsOf(groups[..k])
  {
    hide Place, RowsIn;
    if k > 0 {
      PlacedRows(w, n, groups, k - 1);
      PlacedRow(w, n, PlaceAll(w, n, groups, k - 1), groups[k - 1]);
      assert groups[..k] == groups[..k - 1] + [groups[k - 1]];
      RowsOfSum(groups[..k - 1], [groups[k - 1]]);
      assert RowsOf([groups[k - 1]]) == multiset(groups[k - 1].members) by {
        assert [groups[k - 1]][1..] == [];
      }
    } else {
      NothingPlaced();
      assert groups[..0] == [];
    }
  }

  lemma NothingPlaced()
    ensures RowsIn([[], [], []]) == multiset{}
  {
  }

  // Every input row is in exactly one split, as often as it is in the input.
  lemma SplitIsPartition(rows: seq<Row>, w: Weights, shuffle: seq<Group> -> seq<Group>)
    requires Shuffles(shuffle)
    ensures RowsIn(SplitSpec(rows, w, shuffle)) == multiset(rows)
  {
    GroupsWellKept(rows, |rows|);
    var items := Items(GroupsOf(rows, |rows|));
    var groups := SplitGroups(rows, shuffle);
    SortedIsSorted(shuffle(items));
    RowsOfPermutation(groups, items);
    RowsOfGroups(rows, |rows|);
    PlacedRows(w, |rows|, groups, |groups|);
    assert rows[..|rows|] == rows && groups[..|groups|] == groups;
  }

  // The key of a group is decided by the grounding id of any of its rows.
  ghost predicate Keyed(g: Group) {
    g.members != [] &&
    forall r | r in g.members && r.grounding.Some? :: g.key == "g" + Decimal.OfInt(r.grounding.value)
  }

  lemma {:induction false} GroupsKeyed(rows: seq<Row>, n: nat)
    requires n <= |rows|
    ensures forall k | k in GroupsOf(rows, n).members :: Keyed(Group(k, GroupsOf(rows, n).members[k]))
  {
    if n > 0 {
      GroupsKeyed(rows, n - 1);
    }
  }

  ghost predicate ProperGroups(groups: seq<Group>) {
    (forall g | g in groups :: Keyed(g)) &&
    forall i, j | 0 <= i < j < |groups| :: groups[i].key != groups[j].key
  }

  lemma SplitGroupsProper(rows: seq<Row>, shuffle: seq<Group> -> seq<Group>)
    requires Shuffles(shuffle)
    ensures ProperGroups(SplitGroups(rows, shuffle)) && Descending(SplitGroups(rows, shuffle))
  {
    GroupsWellKept(rows, |rows|);
    var items := Items(GroupsOf(rows, |rows|));
    var groups := SplitGroups(rows, shuffle);
    SortedIsSorted(shuffle(items));
    GroupsKeyed(rows, |rows|);
    assert Distinct(items);
    PartOfDistinct(groups, items);
    forall g | g in groups
      ensures g in items && Keyed(g)
    {
      assert g in multiset(groups);
    }
    forall i, j | 0 <= i < j < |groups|
      ensures groups[i].key != groups[j].key
    {
      assert groups[i] in items && groups[j] in items;
    }
  }

  // Row r of split i came with some group that was placed there.
  ghost predicate CameWith(w: Weights, n: nat, groups: seq<Group>, k: nat, i: nat, r: Row, m: nat) {
    m < k <= |groups| && r in groups[m].members && Furthest(w, n, PlaceAll(w, n, groups, m)) == i
  }

  lemma {:induction false} RowsCameWithGroups(w: Weights, n: nat, groups: seq<Group>, k: nat, i: nat, r: Row)
    returns (m: nat)
    requires k <= |groups| && i < SPLITS && r in PlaceAll(w, n, groups, k)[i]
    ensures CameWith(w, n, groups, k, i, r, m)
  {
    if k > 0 {
      var before := PlaceAll(w, n, groups, k - 1);
      if r in before[i] {
        m := RowsCameWithGroups(w, n, groups, k - 1, i, r);
      } else {
        m := k - 1;
      }
    }
  }

  // No grounding id spans two splits: different groups cannot hold the same id.
  lemma NoLeakage(rows: seq<Row>, w: Weights, shuffle: seq<Group> -> seq<Group>)
    requires Shuffles(shuffle)
    ensures !Leaks(SplitSpec(rows, w, shuffle))
  {
    var groups := SplitGroups(rows, shuffle);
    SplitGroupsProper(rows, shuffle);
    var splits := SplitSpec(rows, w, shuffle);
    forall i: nat, j: nat, r, s | i < j < SPLITS && r in splits[i] && s in splits[j] && r.grounding.Some?
      ensures r.grounding != s.grounding
    {
      var m := RowsCameWithGroups(w, |rows|, groups, |groups|, i, r);
      var l := RowsCameWithGroups(w, |rows|, groups, |groups|, j, s);
      assert m != l;
      assert groups[m] in groups && groups[l] in groups;
      assert groups[m].key != groups[l].key;
    }
  }

  // Two rows share a group exactly when they share a grounding id, or are the same ungrounded row.
  lemma SameGroupExactlyWhen(r: Row, i: nat, s: Row, j: nat)
    ensures GroupKey(r, i) == GroupKey(s, j) <==>
            (r.grounding.Some? && r.grounding == s.grounding) || (r.grounding.None? && s.grounding.None? && i == j)
  {
    var a, b := GroupKey(r, i), GroupKey(s, j);
    if r.grounding.Some? && s.grounding.Some? {
      if a == b {
        assert a[1..] == Decimal.OfInt(r.grounding.value) && b[1..] == Decimal.OfInt(s.grounding.value);
        Decimal.OfIntInjective(r.grounding.value, s.grounding.value);
      }
    } else if r.grounding.None? && s.grounding.None? {
      if a == b {
        assert a[12..] == Decimal.OfNat(i) && b[12..] == Decimal.OfNat(j);
        Decimal.OfNatInjective(i, j);
      }
    } else {
      assert a[0] != b[0];
    }
  }
}
