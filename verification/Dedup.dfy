// filter_clean: well-formed rows, one per request id with the longest answer, kept when their id
// is valid, and no output at all when too many would be dropped.
module Dedup {
  import opened Wrappers
  import opened Blanks
  import Decimal

  // A field of the decoded JSON: absent or null, a string, or something else.
  datatype Field = Null | Str(text: string) | Other

  datatype Qa = Qa(q: Field, a: Field)

  // qa: None when parsed_qa is not an object.
  datatype Row = Row(
    id: Option<string>,
    httpError: Field,
    parseError: Field,
    finish: Field,
    qa: Option<Qa>,
    grounding: Option<int>)

  predicate HasText(f: Field) {
    f.Str? && !AllBlank(f.text)
  }

  predicate IsClean(r: Row) {
    r.httpError.Null? && r.parseError.Null? && r.finish == Str("stop") &&
    r.qa.Some? && HasText(r.qa.value.q) && HasText(r.qa.value.a)
  }

  function AnswerLength(r: Row): nat {
    if r.qa.Some? && r.qa.value.a.Str? then |r.qa.value.a.text| else 0
  }

  // ----- the dictionary loop -----

  // Insertion-ordered, as Python's dict.
  datatype Dict = Dict(order: seq<string>, rows: map<string, Row>)

  function Put(d: Dict, key: string, r: Row): Dict {
    Dict(if key in d.rows then d.order else d.order + [key], d.rows[key := r])
  }

  function NoIdKey(n: nat): string {
    "_noid_" + Decimal.OfNat(n)
  }

  predicate Collides(d: Dict, r: Row) {
    r.id.Some? && r.id.value in d.rows
  }

  function Visit(d: Dict, r: Row): Dict {
    if r.id.None? then Put(d, NoIdKey(|d.rows|), r)
    else if !Collides(d, r) || AnswerLength(r) > AnswerLength(d.rows[r.id.value]) then Put(d, r.id.value, r)
    else d
  }

  function DictOf(rows: seq<Row>): Dict {
    if rows == [] then Dict([], map[]) else Visit(DictOf(rows[..|rows| - 1]), rows[|rows| - 1])
  }

  function CollisionsIn(rows: seq<Row>): nat {
    if rows == [] then 0
    else
      var init, last := rows[..|rows| - 1], rows[|rows| - 1];
      CollisionsIn(init) + (if Collides(DictOf(init), last) then 1 else 0)
  }

  predicate Ordered(d: Dict) {
    (forall k :: k in d.order ==> k in d.rows) && (forall k :: k in d.rows ==> k in d.order) && |d.order| == |d.rows|
  }

  function Values(d: Dict): seq<Row>
    requires Ordered(d)
  {
    seq(|d.order|, i requires 0 <= i < |d.order| => assert d.order[i] in d.order; d.rows[d.order[i]])
  }

  lemma {:induction false} DictOrdered(rows: seq<Row>)
    ensures Ordered(DictOf(rows))
  {
    if rows != [] {
      DictOrdered(rows[..|rows| - 1]);
    }
  }

  function LoopResult(rows: seq<Row>): seq<Row> {
    DictOrdered(rows);
    Values(DictOf(rows))
  }

  lemma NextVisit(rows: seq<Row>, i: nat)
    requires i < |rows|
    ensures DictOf(rows[..i + 1]) == Visit(DictOf(rows[..i]), rows[i])
    ensures CollisionsIn(rows[..i + 1]) ==
            CollisionsIn(rows[..i]) + if Collides(DictOf(rows[..i]), rows[i]) then 1 else 0
  {
    assert rows[..i + 1][..i] == rows[..i];
  }

  method DedupById(rows: seq<Row>) returns (deduped: seq<Row>, collisions: nat)
    ensures deduped == LoopResult(rows) && collisions == CollisionsIn(rows)
  {
    var order: seq<string>, byId: map<string, Row> := [], map[];
    collisions := 0;
    assert rows[..0] == [];
    for i := 0 to |rows|
      invariant Dict(order, byId) == DictOf(rows[..i])
      invariant collisions == CollisionsIn(rows[..i])
    {
      hide DictOf, CollisionsIn, NoIdKey, Ordered;
      NextVisit(rows, i);
      var r := rows[i];
      if r.id.None? {
        var key := NoIdKey(|byId|);
        if key !in byId {
          order := order + [key];
        }
        byId := byId[key := r];
        continue;
      }
      var rid := r.id.value;
      if rid !in byId {
        order := order + [rid];
        byId := byId[rid := r];
      } else {
        collisions := collisions + 1;
        if AnswerLength(r) > AnswerLength(byId[rid]) {
          byId := byId[rid := r];
        }
      }
    }
    assert rows[..|rows|] == rows;
    DictOrdered(rows);
    deduped := Values(Dict(order, byId));
  }

  // ----- what the loop is meant to compute -----

  // Position of the entry with an id, or the length.
  function Find(entries: seq<Row>, id: string): (p: nat)
    ensures p <= |entries|
    ensures p < |entries| ==> entries[p].id == Some(id)
    ensures forall j | 0 <= j < p :: entries[j].id != Some(id)
  {
    if entries == [] then 0
    else if entries[0].id == Some(id) then 0
    else 1 + Find(entries[1..], id)
  }

  // A row without an id is its own entry; one with an id replaces a shorter entry or starts one.
  function Merge(entries: seq<Row>, r: Row): seq<Row> {
    if r.id.None? then entries + [r]
    else
      var p := Find(entries, r.id.value);
      if p == |entries| then entries + [r]
      else if AnswerLength(r) > AnswerLength(entries[p]) then entries[p := r]
      else entries
  }

  function MergeAll(entries: seq<Row>, rows: seq<Row>): seq<Row> {
    if rows == [] then entries else Merge(MergeAll(entries, rows[..|rows| - 1]), rows[|rows| - 1])
  }

  function Simple(rows: seq<Row>): seq<Row> {
    MergeAll([], rows)
  }

  // ----- the loop refines it -----

  // Row b has no id and comes as entry number k, and row a has the id that the loop invents for it.
  predicate ClashAt(rows: seq<Row>, a: nat, b: nat) {
    && a < |rows| && b < |rows| && rows[b].id.None?
    && rows[a].id == Some("_noid_" + Decimal.OfNat(|Simple(rows[..b])|))
  }

  ghost predicate Clash(rows: seq<Row>) {
    exists a: nat, b: nat :: ClashAt(rows, a, b)
  }

  lemma ClashOfPart(rows: seq<Row>, n: nat)
    requires n <= |rows| && Clash(rows[..n])
    ensures Clash(rows)
  {
    var a: nat, b: nat :| ClashAt(rows[..n], a, b);
    assert rows[..n][..b] == rows[..b];
    assert ClashAt(rows, a, b);
  }

  function KeyAt(entries: seq<Row>, p: nat): string
    requires p < |entries|
  {
    if entries[p].id.Some? then entries[p].id.value else NoIdKey(p)
  }

  ghost predicate DistinctKeys(order: seq<string>) {
    forall p, q | 0 <= p < q < |order| :: order[p] != order[q]
  }

  predicate EntryAt(d: Dict, entries: seq<Row>, p: nat) {
    p < |d.order| && p < |entries| &&
    d.order[p] == KeyAt(entries, p) && d.order[p] in d.rows && d.rows[d.order[p]] == entries[p]
  }

  ghost predicate Matches(d: Dict, entries: seq<Row>) {
    && Ordered(d) && DistinctKeys(d.order) && |d.order| == |entries|
    && forall p: nat | p < |entries| :: EntryAt(d, entries, p)
  }

  lemma NoIdKeysDiffer(m: nat, n: nat)
    requires NoIdKey(m) == NoIdKey(n)
    ensures m == n
  {
    assert NoIdKey(m)[6..] == Decimal.OfNat(m) && NoIdKey(n)[6..] == Decimal.OfNat(n);
    Decimal.OfNatInjective(m, n);
  }

  // No entry has the key under which the row would be kept, unless it has the row's id.
  ghost predicate Fits(entries: seq<Row>, r: Row) {
    if r.id.None? then forall e | e in entries :: e.id != Some(NoIdKey(|entries|))
    else forall q | 0 <= q < |entries| && entries[q].id.None? :: r.id.value != NoIdKey(q)
  }

  lemma InventedKeyIsNew(d: Dict, entries: seq<Row>, r: Row)
    requires Matches(d, entries) && r.id.None? && Fits(entries, r)
    ensures NoIdKey(|d.rows|) !in d.rows
  {
    var key := NoIdKey(|d.rows|);
    if key in d.rows {
      var p: nat :| p < |d.order| && d.order[p] == key;
      assert EntryAt(d, entries, p);
      assert entries[p] in entries;
      if entries[p].id.None? {
        NoIdKeysDiffer(p, |d.rows|);
      }
    }
  }

  // An id is in the dictionary exactly when an entry has it, at the same place.
  lemma {:induction false} FindInDict(d: Dict, entries: seq<Row>, r: Row)
    requires Matches(d, entries) && r.id.Some? && Fits(entries, r)
    ensures r.id.value in d.rows <==> Find(entries, r.id.value) < |entries|
    ensures Find(entries, r.id.value) < |entries| ==> d.order[Find(entries, r.id.value)] == r.id.value
  {
    var id := r.id.value;
    var p := Find(entries, id);
    if p < |entries| {
      assert EntryAt(d, entries, p);
    }
    if id in d.rows {
      var q: nat :| q < |d.order| && d.order[q] == id;
      assert EntryAt(d, entries, q);
      assert entries[q].id.Some?;
    }
  }

  lemma PutNewOrdered(d: Dict, key: string, r: Row)
    requires Ordered(d) && DistinctKeys(d.order) && key !in d.rows
    ensures Ordered(Put(d, key, r)) && DistinctKeys(Put(d, key, r).order)
  {
    var next := Put(d, key, r);
    assert next.rows.Keys == d.rows.Keys + {key};
    assert next.order[|d.order|] == key;
    forall p | 0 <= p < |d.order|
      ensures next.order[p] != key
    {
      assert d.order[p] in d.order;
    }
  }

  lemma PutNewEntry(d: Dict, entries: seq<Row>, key: string, r: Row, p: nat)
    requires |d.order| == |entries| && p <= |entries| && key !in d.rows
    requires p < |entries| ==> EntryAt(d, entries, p)
    requires key == (if r.id.Some? then r.id.value else NoIdKey(|entries|))
    ensures EntryAt(Put(d, key, r), entries + [r], p)
  {
    hide NoIdKey;
    if p < |entries| {
      assert KeyAt(entries + [r], p) == KeyAt(entries, p);
    }
  }

  lemma PutNew(d: Dict, entries: seq<Row>, key: string, r: Row)
    requires Matches(d, entries) && key !in d.rows
    requires key == (if r.id.Some? then r.id.value else NoIdKey(|entries|))
    ensures Matches(Put(d, key, r), entries + [r])
  {
    hide NoIdKey, EntryAt;
    PutNewOrdered(d, key, r);
    forall p: nat | p < |entries + [r]|
      ensures EntryAt(Put(d, key, r), entries + [r], p)
    {
      PutNewEntry(d, entries, key, r, p);
    }
  }

  lemma PutOldEntry(d: Dict, entries: seq<Row>, p: nat, r: Row, q: nat)
    requires |d.order| == |entries| && DistinctKeys(d.order) && p < |entries| && q < |entries|
    requires EntryAt(d, entries, p) && EntryAt(d, entries, q)
    requires r.id.Some? && entries[p].id == r.id
    ensures EntryAt(Put(d, r.id.value, r), entries[p := r], q)
  {
    hide NoIdKey;
    assert d.order[p] == r.id.value;
    assert q != p ==> KeyAt(entries[p := r], q) == KeyAt(entries, q);
  }

  lemma PutOld(d: Dict, entries: seq<Row>, p: nat, r: Row)
    requires Matches(d, entries) && p < |entries| && r.id.Some? && entries[p].id == r.id
    ensures Matches(Put(d, r.id.value, r), entries[p := r])
  {
    var next := Put(d, r.id.value, r);
    assert EntryAt(d, entries, p);
    assert next.rows.Keys == d.rows.Keys;
    hide NoIdKey, EntryAt;
    var updated := entries[p := r];
    forall q: nat | q < |updated|
      ensures EntryAt(next, updated, q)
    {
      PutOldEntry(d, entries, p, r, q);
    }
  }

  lemma VisitMatches(d: Dict, entries: seq<Row>, r: Row)
    requires Matches(d, entries) && Fits(entries, r)
    ensures Matches(Visit(d, r), Merge(entries, r))
  {
    hide NoIdKey, DistinctKeys, Fits;
    if r.id.None? {
      InventedKeyIsNew(d, entries, r);
      PutNew(d, entries, NoIdKey(|d.rows|), r);
    } else {
      FindInDict(d, entries, r);
      var p := Find(entries, r.id.value);
      if p < |entries| {
        assert EntryAt(d, entries, p);
      }
      if p == |entries| {
        PutNew(d, entries, r.id.value, r);
      } else if AnswerLength(r) > AnswerLength(entries[p]) {
        PutOld(d, entries, p, r);
      }
    }
  }

  lemma {:induction false} EntriesAreRows(entries: seq<Row>, rows: seq<Row>)
    ensures forall e | e in MergeAll(entries, rows) :: e in entries || e in rows
  {
    if rows != [] {
      EntriesAreRows(entries, rows[..|rows| - 1]);
      assert rows == rows[..|rows| - 1] + [rows[|rows| - 1]];
    }
  }

  // An entry without an id is a row without one, and its place is the number of entries before.
  lemma {:induction false} EntryWithoutId(rows: seq<Row>, q: nat) returns (b: nat)
    requires q < |Simple(rows)| && Simple(rows)[q].id.None?
    ensures b < |rows| && rows[b].id.None? && |Simple(rows[..b])| == q
  {
    var init := rows[..|rows| - 1];
    if q < |Simple(init)| {
      b := EntryWithoutId(init, q);
      assert init[..b] == rows[..b];
    } else {
      b := |rows| - 1;
    }
  }

  lemma LastFits(rows: seq<Row>)
    requires rows != [] && !Clash(rows)
    ensures Fits(Simple(rows[..|rows| - 1]), rows[|rows| - 1])
  {
    var last := |rows| - 1;
    var init, entries := rows[..last], Simple(rows[..last]);
    hide NoIdKey;
    if rows[last].id.None? {
      EntriesAreRows([], init);
      forall e | e in entries
        ensures e.id != Some(NoIdKey(|entries|))
      {
        var a :| 0 <= a < |init| && init[a] == e;
        assert !ClashAt(rows, a, last);
      }
    } else {
      forall q | 0 <= q < |entries| && entries[q].id.None?
        ensures rows[last].id.value != NoIdKey(q)
      {
        var b := EntryWithoutId(init, q);
        assert init[..b] == rows[..b];
        assert !ClashAt(rows, last, b);
      }
    }
  }

  lemma {:induction false} LoopMatches(rows: seq<Row>)
    requires !Clash(rows)
    ensures Matches(DictOf(rows), Simple(rows))
  {
    hide Clash, Fits, Matches, Visit, Merge;
    if rows == [] {
      NothingMatches();
    } else {
      var init, last := rows[..|rows| - 1], rows[|rows| - 1];
      if Clash(init) {
        ClashOfPart(rows, |rows| - 1);
      }
      LoopMatches(init);
      LastFits(rows);
      VisitMatches(DictOf(init), Simple(init), last);
    }
  }

  lemma NothingMatches()
    ensures Matches(DictOf([]), Simple([]))
  {
  }

  // Without a clash, the dictionary loop computes the simple result.
  lemma LoopIsSimple(rows: seq<Row>)
    requires !Clash(rows)
    ensures LoopResult(rows) == Simple(rows)
  {
    LoopMatches(rows);
    var d, entries := DictOf(rows), Simple(rows);
    forall p: nat | p < |entries|
      ensures Values(d)[p] == entries[p]
    {
      assert EntryAt(d, entries, p);
    }
  }

  // ----- a clash loses a row -----

  lemma VisitKeepsKeys(d: Dict, r: Row)
    ensures d.rows.Keys <= Visit(d, r).rows.Keys
    ensures r.id.Some? ==> r.id.value in Visit(d, r).rows
    ensures |Visit(d, r).rows| <= |d.rows| + 1
    ensures (if r.id.None? then NoIdKey(|d.rows|) else r.id.value) in d.rows ==> |Visit(d, r).rows| == |d.rows|
  {
    hide NoIdKey;
    var key := if r.id.None? then NoIdKey(|d.rows|) else r.id.value;
    if key in d.rows {
      assert Visit(d, r).rows.Keys == d.rows.Keys;
    } else {
      assert Visit(d, r).rows.Keys == d.rows.Keys + {key};
    }
  }

  lemma {:induction false} KeysStay(rows: seq<Row>, n: nat, key: string)
    requires n <= |rows| && key in DictOf(rows[..n]).rows
    ensures key in DictOf(rows).rows
  {
    hide Visit;
    if n == |rows| {
      assert rows[..n] == rows;
    } else {
      var init := rows[..|rows| - 1];
      assert init[..n] == rows[..n];
      KeysStay(init, n, key);
      VisitKeepsKeys(DictOf(init), rows[|rows| - 1]);
    }
  }

  lemma {:induction false} IdIsKept(rows: seq<Row>, i: nat)
    requires i < |rows| && rows[i].id.Some?
    ensures rows[i].id.value in DictOf(rows).rows
  {
    var upTo := rows[..i + 1];
    assert upTo[..|upTo| - 1] == rows[..i] && upTo[|upTo| - 1] == rows[i];
    VisitKeepsKeys(DictOf(rows[..i]), rows[i]);
    KeysStay(rows, i + 1, rows[i].id.value);
  }

  // A row whose id no row before it has starts an entry.
  lemma UnseenStartsEntry(rows: seq<Row>, r: Row)
    requires r.id.Some? ==> forall i | 0 <= i < |rows| :: rows[i].id != r.id
    ensures |Merge(Simple(rows), r)| == |Simple(rows)| + 1
  {
    EntriesAreRows([], rows);
    var entries := Simple(rows);
    forall p | 0 <= p < |entries|
      ensures r.id.Some? ==> entries[p].id != r.id
    {
      assert entries[p] in entries;
      var i :| 0 <= i < |rows| && rows[i] == entries[p];
    }
  }

  // How many entries the loop has lost.
  function Lost(rows: seq<Row>): int {
    |Simple(rows)| - |DictOf(rows).rows|
  }

  lemma LostStep(rows: seq<Row>)
    requires rows != []
    ensures Lost(rows[..|rows| - 1]) <= Lost(rows)
  {
    var init, last := rows[..|rows| - 1], rows[|rows| - 1];
    VisitKeepsKeys(DictOf(init), last);
    hide Visit;
    if last.id.Some? && (exists i | 0 <= i < |init| :: init[i].id == last.id) {
      var i :| 0 <= i < |init| && init[i].id == last.id;
      IdIsKept(init, i);
    } else {
      UnseenStartsEntry(init, last);
    }
  }

  lemma {:induction false} LostGrows(rows: seq<Row>, n: nat)
    requires n <= |rows|
    ensures Lost(rows[..n]) <= Lost(rows)
  {
    hide Lost;
    if n == |rows| {
      assert rows[..n] == rows;
    } else {
      assert rows[..|rows| - 1][..n] == rows[..n];
      LostGrows(rows[..|rows| - 1], n);
      LostStep(rows);
    }
  }

  lemma NextMerge(rows: seq<Row>, i: nat)
    requires i < |rows|
    ensures Simple(rows[..i + 1]) == Merge(Simple(rows[..i]), rows[i])
  {
    assert rows[..i + 1][..i] == rows[..i];
  }

  // A row that starts an entry and finds its key taken loses one.
  lemma TakenKeyLoses(rows: seq<Row>, i: nat)
    requires i < |rows|
    requires rows[i].id.Some? ==> forall j | 0 <= j < i :: rows[j].id != rows[i].id
    requires var d := DictOf(rows[..i]);
             (if rows[i].id.None? then NoIdKey(|d.rows|) else rows[i].id.value) in d.rows
    ensures Lost(rows) > Lost(rows[..i])
  {
    NextVisit(rows, i);
    NextMerge(rows, i);
    hide NoIdKey, DictOf, CollisionsIn, Simple;
    VisitKeepsKeys(DictOf(rows[..i]), rows[i]);
    UnseenStartsEntry(rows[..i], rows[i]);
    hide Visit, Merge;
    LostGrows(rows, i + 1);
  }

  lemma ClashLosesARow(rows: seq<Row>)
    requires Clash(rows)
    ensures |LoopResult(rows)| < |Simple(rows)|
  {
    var a0: nat, b: nat :| ClashAt(rows, a0, b);
    var d := DictOf(rows[..b]);
    var key := NoIdKey(|Simple(rows[..b])|);
    assert rows[..b][..0] == [] && Lost([]) == 0;
    LostGrows(rows[..b], 0);
    LostGrows(rows, b);
    hide NoIdKey, Lost;
    if Lost(rows[..b]) == 0 {
      LostIsNothing(rows[..b]);
      var a := Find(rows, key);
      if a < b {
        IdIsKept(rows[..b], a);
        TakenKeyLoses(rows, b);
      } else {
        InventedKeyStays(rows, b, a);
        TakenKeyLoses(rows, a);
        LostGrows(rows[..a], b);
        assert rows[..a][..b] == rows[..b];
      }
    }
    LostMeansFewer(rows);
  }

  lemma {:induction false} LostIsNothing(rows: seq<Row>)
    requires Lost(rows) == 0
    ensures |DictOf(rows).rows| == |Simple(rows)|
  {
  }

  lemma LostMeansFewer(rows: seq<Row>)
    ensures Lost(rows) == |Simple(rows)| - |LoopResult(rows)|
  {
    DictOrdered(rows);
  }

  lemma InventedKeyStays(rows: seq<Row>, b: nat, a: nat)
    requires b < a <= |rows| && rows[b].id.None?
    ensures NoIdKey(|DictOf(rows[..b]).rows|) in DictOf(rows[..a]).rows
  {
    var upTo := rows[..b + 1];
    assert upTo[..|upTo| - 1] == rows[..b] && upTo[|upTo| - 1] == rows[b];
    assert rows[..a][..b + 1] == upTo;
    KeysStay(rows[..a], b + 1, NoIdKey(|DictOf(rows[..b]).rows|));
  }

  // The loop computes the simple result on given rows exactly when none of them has the id that the
  // loop invents for a row without one: _noid_k for the row that comes as entry number k.
  lemma LoopIsSimpleExactlyWhen(rows: seq<Row>)
    ensures LoopResult(rows) == Simple(rows) <==> !Clash(rows)
  {
    if Clash(rows) {
      ClashLosesARow(rows);
    } else {
      LoopIsSimple(rows);
    }
  }

  // ----- vocabularies of ids -----

  // An id of the form the loop invents.
  ghost predicate Reserved(id: string) {
    exists k: nat :: id == "_noid_" + Decimal.OfNat(k)
  }

  ghost predicate IdsWithin(rows: seq<Row>, ids: set<string>) {
    forall r | r in rows && r.id.Some? :: r.id.value in ids
  }

  function Plain(id: Option<string>): Row {
    Row(id, Null, Null, Str("stop"), Some(Qa(Str("q"), Str("a"))), None)
  }

  function Plains(n: nat): seq<Row> {
    seq(n, _ => Plain(None))
  }

  lemma {:induction false} SimpleOfPlains(n: nat)
    ensures Simple(Plains(n)) == Plains(n)
  {
    if n > 0 {
      SimpleOfPlains(n - 1);
      assert Plains(n)[..n - 1] == Plains(n - 1) && Plains(n) == Plains(n - 1) + [Plain(None)];
    }
  }

  // For every reserved id, k + 1 rows without an id and one with it lose a row.
  lemma ReservedLosesARow(k: nat, id: string) returns (rows: seq<Row>)
    requires id == "_noid_" + Decimal.OfNat(k)
    ensures IdsWithin(rows, {id})
    ensures |LoopResult(rows)| < |Simple(rows)|
  {
    rows := Plains(k + 1) + [Plain(Some(id))];
    assert rows[..k] == Plains(k);
    SimpleOfPlains(k);
    assert ClashAt(rows, k + 1, k);
    ClashLosesARow(rows);
  }

  // The loop computes the simple result on all rows with ids from a vocabulary exactly when no id
  // of the vocabulary has the reserved form.
  lemma VocabularyIsSafeExactlyWhen(ids: set<string>)
    ensures (forall rows | IdsWithin(rows, ids) :: LoopResult(rows) == Simple(rows))
            <==> (forall id | id in ids :: !Reserved(id))
  {
    if forall id | id in ids :: !Reserved(id) {
      forall rows: seq<Row> | IdsWithin(rows, ids)
        ensures LoopResult(rows) == Simple(rows)
      {
        if a: nat, b: nat :| ClashAt(rows, a, b) {
          assert rows[a] in rows && Reserved(rows[a].id.value);
        }
        LoopIsSimple(rows);
      }
    }
    if id :| id in ids && Reserved(id) {
      var k: nat :| id == "_noid_" + Decimal.OfNat(k);
      var rows := ReservedLosesARow(k, id);
      assert IdsWithin(rows, ids);
    }
  }

  // ----- what the simple result says -----

  ghost predicate OneEntryEach(entries: seq<Row>) {
    forall p, q | 0 <= p < q < |entries| && entries[p].id.Some? :: entries[p].id != entries[q].id
  }

  lemma {:induction false} EntriesDistinct(rows: seq<Row>)
    ensures OneEntryEach(Simple(rows))
  {
    if rows != [] {
      EntriesDistinct(rows[..|rows| - 1]);
    }
  }

  // Row i has the longest answer among the rows with its id, and is the earliest of those.
  ghost predicate FirstLongest(rows: seq<Row>, i: nat) {
    i < |rows| && rows[i].id.Some? &&
    forall j | 0 <= j < |rows| && rows[j].id == rows[i].id ::
      AnswerLength(rows[j]) <= AnswerLength(rows[i]) && (j < i ==> AnswerLength(rows[j]) < AnswerLength(rows[i]))
  }

  ghost predicate IsFirstLongest(rows: seq<Row>, entry: Row) {
    exists i: nat :: FirstLongest(rows, i) && rows[i] == entry
  }

  lemma FirstLongestStays(init: seq<Row>, last: Row, entry: Row)
    requires IsFirstLongest(init, entry)
    requires last.id == entry.id ==> AnswerLength(last) <= AnswerLength(entry)
    ensures IsFirstLongest(init + [last], entry)
  {
    var i: nat :| FirstLongest(init, i) && init[i] == entry;
    assert FirstLongest(init + [last], i);
  }

  // Each id has an entry, which is the earliest of its longest answers.
  lemma {:induction false} EntryIsFirstLongest(rows: seq<Row>)
    ensures forall r | r in rows && r.id.Some? :: Find(Simple(rows), r.id.value) < |Simple(rows)|
    ensures forall e | e in Simple(rows) && e.id.Some? :: IsFirstLongest(rows, e)
  {
    if rows != [] {
      var init, last := rows[..|rows| - 1], rows[|rows| - 1];
      assert rows == init + [last];
      EntryIsFirstLongest(init);
      EntriesDistinct(init);
      EntriesAreRows([], init);
      var entries := Simple(init);
      forall e | e in Simple(rows) && e.id.Some?
        ensures IsFirstLongest(rows, e)
      {
        if last.id.Some? && e.id == last.id {
          LastEntry(init, last, e);
        } else {
          assert e in entries;
          FirstLongestStays(init, last, e);
        }
      }
      forall r | r in rows && r.id.Some?
        ensures Find(Simple(rows), r.id.value) < |Simple(rows)|
      {
        if r in init {
          var p := Find(entries, r.id.value);
          assert Simple(rows)[p].id == r.id;
        } else {
          var q := if Find(entries, r.id.value) < |entries| then Find(entries, r.id.value) else |entries|;
          assert Simple(rows)[q].id == r.id;
        }
      }
    }
  }

  lemma LastEntry(init: seq<Row>, last: Row, e: Row)
    requires last.id.Some? && e.id == last.id && e in Merge(Simple(init), last)
    requires OneEntryEach(Simple(init))
    requires forall r | r in init && r.id.Some? :: Find(Simple(init), r.id.value) < |Simple(init)|
    requires forall x | x in Simple(init) && x.id.Some? :: IsFirstLongest(init, x)
    ensures IsFirstLongest(init + [last], e)
  {
    var entries, rows := Simple(init), init + [last];
    var p := Find(entries, last.id.value);
    if p == |entries| {
      assert e == last;
      forall j | 0 <= j < |init|
        ensures init[j].id != last.id
      {
        assert init[j] in init;
      }
      assert FirstLongest(rows, |init|);
    } else {
      assert entries[p] in entries;
      var i: nat :| FirstLongest(init, i) && init[i] == entries[p];
      if AnswerLength(last) > AnswerLength(entries[p]) {
        assert e == last;
        assert FirstLongest(rows, |init|);
      } else {
        assert e == entries[p];
        FirstLongestStays(init, last, e);
      }
    }
  }

  // Ids in order of first appearance, each once; rows without an id each on their own.
  function FirstSeen(ids: seq<Option<string>>): seq<Option<string>> {
    if ids == [] then []
    else
      var seen, last := FirstSeen(ids[..|ids| - 1]), ids[|ids| - 1];
      if last.Some? && last in seen then seen else seen + [last]
  }

  function IdsOf(rows: seq<Row>): seq<Option<string>> {
    seq(|rows|, i requires 0 <= i < |rows| => rows[i].id)
  }

  lemma {:induction false} EntriesInFirstSeenOrder(rows: seq<Row>)
    ensures IdsOf(Simple(rows)) == FirstSeen(IdsOf(rows))
  {
    if rows != [] {
      var init, last := rows[..|rows| - 1], rows[|rows| - 1];
      EntriesInFirstSeenOrder(init);
      assert IdsOf(rows)[..|rows| - 1] == IdsOf(init);
      var entries := Simple(init);
      if last.id.Some? {
        var p := Find(entries, last.id.value);
        if p < |entries| {
          assert IdsOf(entries)[p] == last.id;
        } else {
          assert forall q | 0 <= q < |entries| :: IdsOf(entries)[q] != last.id;
        }
      }
    }
  }

  predicate TakesKey(d: Dict, r: Row) {
    r.id.None? && NoIdKey(|d.rows|) in d.rows
  }

  // How many rows without an id find the key that the loop invents for them taken.
  function TakenKeys(rows: seq<Row>): nat {
    if rows == [] then 0
    else
      var init, last := rows[..|rows| - 1], rows[|rows| - 1];
      TakenKeys(init) + (if TakesKey(DictOf(init), last) then 1 else 0)
  }

  lemma {:induction false} AllRowsAreCounted(rows: seq<Row>)
    ensures |DictOf(rows).rows| + CollisionsIn(rows) + TakenKeys(rows) == |rows|
  {
    if rows != [] {
      var init, last := rows[..|rows| - 1], rows[|rows| - 1];
      AllRowsAreCounted(init);
      hide NoIdKey;
      VisitSize(DictOf(init), last);
    }
  }

  lemma VisitSize(d: Dict, r: Row)
    ensures |Visit(d, r).rows| == |d.rows| + if Collides(d, r) || TakesKey(d, r) then 0 else 1
  {
    hide NoIdKey;
    VisitKeepsKeys(d, r);
    if !Collides(d, r) && !TakesKey(d, r) {
      var key := if r.id.None? then NoIdKey(|d.rows|) else r.id.value;
      assert Visit(d, r).rows.Keys == d.rows.Keys + {key};
    }
  }

  lemma {:induction false} SizeGrows(rows: seq<Row>, n: nat)
    requires n <= |rows|
    ensures |DictOf(rows[..n]).rows| <= |DictOf(rows).rows|
  {
    if n == |rows| {
      assert rows[..n] == rows;
    } else {
      assert rows[..|rows| - 1][..n] == rows[..n];
      SizeGrows(rows[..|rows| - 1], n);
      VisitSize(DictOf(rows[..|rows| - 1]), rows[|rows| - 1]);
    }
  }

  // The row that brought a key into the dictionary: by its id, or without one.
  lemma {:induction false} KeyCameWith(rows: seq<Row>, key: string) returns (a: nat)
    requires key in DictOf(rows).rows
    ensures a < |rows| && key !in DictOf(rows[..a]).rows
    ensures rows[a].id == Some(key) || (rows[a].id.None? && key == NoIdKey(|DictOf(rows[..a]).rows|))
  {
    hide NoIdKey;
    var init := rows[..|rows| - 1];
    if key in DictOf(init).rows {
      a := KeyCameWith(init, key);
      assert init[..a] == rows[..a];
    } else {
      a := |rows| - 1;
    }
  }

  // Row a has the id that the loop invents for the later row b, by the size of the dictionary.
  predicate OverwrittenAt(rows: seq<Row>, a: nat, b: nat) {
    a < b < |rows| && rows[b].id.None? && rows[a].id == Some(NoIdKey(|DictOf(rows[..b]).rows|))
  }

  predicate TakesAt(rows: seq<Row>, b: nat) {
    b < |rows| && TakesKey(DictOf(rows[..b]), rows[b])
  }

  // A key is taken only by a row that has it as its id: invented keys count up.
  lemma TakenByAnId(rows: seq<Row>, b: nat) returns (a: nat)
    requires TakesAt(rows, b)
    ensures OverwrittenAt(rows, a, b)
  {
    var before := rows[..b];
    var key := NoIdKey(|DictOf(before).rows|);
    a := KeyCameWith(before, key);
    if before[a].id.None? {
      SizeGrows(before, a + 1);
      NextVisit(before, a);
      VisitSize(DictOf(before[..a]), before[a]);
      NoIdKeysDiffer(|DictOf(before[..a]).rows|, |DictOf(before).rows|);
    }
  }

  lemma TakesAtInPart(rows: seq<Row>, n: nat, b: nat)
    requires b < n <= |rows|
    ensures TakesAt(rows[..n], b) <==> TakesAt(rows, b)
  {
    assert rows[..n][..b] == rows[..b];
  }

  lemma {:induction false} LastTakes(rows: seq<Row>)
    requires rows != []
    ensures TakenKeys(rows) == TakenKeys(rows[..|rows| - 1]) + if TakesAt(rows, |rows| - 1) then 1 else 0
  {
  }

  lemma {:induction false} TakenKeysExactlyWhen(rows: seq<Row>)
    ensures TakenKeys(rows) > 0 <==> exists b: nat :: TakesAt(rows, b)
  {
    if rows == [] {
      assert forall b: nat :: !TakesAt(rows, b);
    } else {
      var last := |rows| - 1;
      TakenKeysExactlyWhen(rows[..last]);
      LastTakes(rows);
      hide TakenKeys, TakesAt;
      forall b: nat | TakesAt(rows, b) && b != last
        ensures TakesAt(rows[..last], b)
      {
        TakesAtLast(rows, b);
        TakesAtInPart(rows, last, b);
      }
      forall b: nat | TakesAt(rows[..last], b)
        ensures TakesAt(rows, b)
      {
        TakesAtLast(rows[..last], b);
        TakesAtInPart(rows, last, b);
      }
    }
  }

  lemma TakesAtLast(rows: seq<Row>, b: nat)
    requires TakesAt(rows, b)
    ensures b < |rows|
  {
  }

  // Every clean row is kept, counted as a collision, or overwrites one. So deduped + collisions =
  // clean exactly when no row has the id that the loop invents for a later row without one.
  lemma {:induction false} CountsAddUpExactlyWhen(rows: seq<Row>)
    ensures |LoopResult(rows)| + CollisionsIn(rows) + TakenKeys(rows) == |rows|
    ensures |LoopResult(rows)| + CollisionsIn(rows) == |rows|
            <==> !exists a: nat, b: nat :: OverwrittenAt(rows, a, b)
  {
    DictOrdered(rows);
    AllRowsAreCounted(rows);
    TakenKeysExactlyWhen(rows);
    hide NoIdKey;
    if b: nat :| TakesAt(rows, b) {
      var a := TakenByAnId(rows, b);
    }
    if a: nat, b: nat :| OverwrittenAt(rows, a, b) {
      IdIsKept(rows[..b], a);
      assert TakesAt(rows, b);
    }
  }

  // ----- ids of the rows kept -----

  // Keys are distinct, and a row with an id is under it.
  ghost predicate UnderOwnId(d: Dict) {
    && Ordered(d) && DistinctKeys(d.order)
    && forall k | k in d.rows && d.rows[k].id.Some? :: d.rows[k].id.value == k
  }

  lemma PutKeepsOrder(d: Dict, key: string, r: Row)
    requires Ordered(d) && DistinctKeys(d.order)
    ensures Ordered(Put(d, key, r)) && DistinctKeys(Put(d, key, r).order)
  {
    if key in d.rows {
      assert Put(d, key, r).rows.Keys == d.rows.Keys;
    } else {
      PutNewOrdered(d, key, r);
    }
  }

  lemma VisitKeepsOwnId(d: Dict, r: Row)
    requires UnderOwnId(d)
    ensures UnderOwnId(Visit(d, r))
    ensures var next := Visit(d, r).rows;
            forall k | k in next :: next[k] == r || (k in d.rows && next[k] == d.rows[k])
  {
    PutKeepsOrder(d, if r.id.None? then NoIdKey(|d.rows|) else r.id.value, r);
    hide NoIdKey, Ordered, DistinctKeys;
  }

  lemma {:induction false} KeptUnderOwnId(rows: seq<Row>)
    ensures UnderOwnId(DictOf(rows))
    ensures forall k | k in DictOf(rows).rows :: DictOf(rows).rows[k] in rows
  {
    if rows != [] {
      var init, last := rows[..|rows| - 1], rows[|rows| - 1];
      KeptUnderOwnId(init);
      hide UnderOwnId, Visit;
      assert rows == init + [last];
      VisitKeepsOwnId(DictOf(init), last);
    }
  }

  // Whatever its ids, the loop keeps rows of the input, at most one for each id.
  lemma LoopKeepsDistinctIds(rows: seq<Row>)
    ensures OneEntryEach(LoopResult(rows)) && forall r | r in LoopResult(rows) :: r in rows
  {
    KeptUnderOwnId(rows);
    DictOrdered(rows);
    var d := DictOf(rows);
    hide DictOf;
    forall p | 0 <= p < |d.order|
      ensures d.order[p] in d.rows && Values(d)[p] == d.rows[d.order[p]]
    {
      assert d.order[p] in d.order;
    }
  }

  // ----- pooling in two steps -----

  lemma {:induction false} MergeAllOn(entries: seq<Row>, a: seq<Row>, b: seq<Row>)
    ensures MergeAll(entries, a + b) == MergeAll(MergeAll(entries, a), b)
  {
    if b == [] {
      assert a + b == a;
    } else {
      assert (a + b)[..|a + b| - 1] == a + b[..|b| - 1];
      MergeAllOn(entries, a, b[..|b| - 1]);
    }
  }

  lemma {:induction false} DistinctIsFixed(entries: seq<Row>)
    requires OneEntryEach(entries)
    ensures Simple(entries) == entries
  {
    if entries != [] {
      var init, last := entries[..|entries| - 1], entries[|entries| - 1];
      DistinctIsFixed(init);
      assert entries == init + [last];
    }
  }

  lemma PartOfEntries(entries: seq<Row>, n: nat)
    requires OneEntryEach(entries) && n <= |entries|
    ensures Simple(entries[..n]) == entries[..n]
  {
    DistinctIsFixed(entries[..n]);
  }

  // Row y of Simple(a) + b comes as the same entry as some row of a + b.
  lemma SameEntryNumber(a: seq<Row>, b: seq<Row>, y: nat) returns (z: nat)
    requires y < |Simple(a) + b| && (Simple(a) + b)[y].id.None?
    ensures z < |a + b| && (a + b)[z].id.None?
    ensures |Simple((a + b)[..z])| == |Simple((Simple(a) + b)[..y])|
  {
    var entries := Simple(a);
    EntriesDistinct(a);
    if y < |entries| {
      z := EntryWithoutId(a, y);
      assert (a + b)[..z] == a[..z] && (entries + b)[..y] == entries[..y];
      PartOfEntries(entries, y);
    } else {
      var j := y - |entries|;
      z := |a| + j;
      assert (a + b)[..z] == a + b[..j] && (entries + b)[..y] == entries + b[..j];
      MergeAllOn([], a, b[..j]);
      MergeAllOn([], entries, b[..j]);
      DistinctIsFixed(entries);
    }
  }

  lemma NoClashInSecondStep(a: seq<Row>, b: seq<Row>)
    requires !Clash(a + b)
    ensures !Clash(Simple(a) + b)
  {
    hide NoIdKey;
    if x: nat, y: nat :| ClashAt(Simple(a) + b, x, y) {
      var z := SameEntryNumber(a, b, y);
      EntriesAreRows([], a);
      assert (Simple(a) + b)[x] in Simple(a) + b;
      assert (Simple(a) + b)[x] in a + b;
      var w :| 0 <= w < |a + b| && (a + b)[w] == (Simple(a) + b)[x];
      assert ClashAt(a + b, w, z);
    }
  }

  // Deduplicating a pool at once, or its first part beforehand, gives the same rows in the same order.
  lemma DedupInTwoSteps(a: seq<Row>, b: seq<Row>)
    requires !Clash(a + b)
    ensures LoopResult(a + b) == LoopResult(LoopResult(a) + b)
  {
    assert (a + b)[..|a|] == a;
    if Clash(a) {
      ClashOfPart(a + b, |a|);
    }
    hide Clash;
    LoopIsSimple(a);
    LoopIsSimple(a + b);
    NoClashInSecondStep(a, b);
    LoopIsSimple(Simple(a) + b);
    MergeAllOn([], a, b);
    MergeAllOn([], Simple(a), b);
    EntriesDistinct(a);
    DistinctIsFixed(Simple(a));
  }

  function WithoutId(rows: seq<Row>): seq<Row> {
    if rows == [] then []
    else
      var init, last := WithoutId(rows[..|rows| - 1]), rows[|rows| - 1];
      if last.id.None? then init + [last] else init
  }

  lemma {:induction false} WithoutIdReplaced(entries: seq<Row>, p: nat, r: Row)
    requires p < |entries| && entries[p].id.Some? && r.id.Some?
    ensures WithoutId(entries[p := r]) == WithoutId(entries)
  {
    var last := |entries| - 1;
    if p < last {
      WithoutIdReplaced(entries[..last], p, r);
      assert entries[p := r][..last] == entries[..last][p := r];
    } else {
      assert entries[p := r][..last] == entries[..last];
    }
  }

  // Every row without an id is kept as it is, in order.
  lemma {:induction false} RowsWithoutIdAreKept(rows: seq<Row>)
    ensures WithoutId(Simple(rows)) == WithoutId(rows)
  {
    if rows != [] {
      var init, last := rows[..|rows| - 1], rows[|rows| - 1];
      RowsWithoutIdAreKept(init);
      var entries := Simple(init);
      assert (entries + [last])[..|entries|] == entries;
      if last.id.Some? {
        var p := Find(entries, last.id.value);
        if p < |entries| {
          WithoutIdReplaced(entries, p, last);
        }
      }
    }
  }
}
