// Invocations one after another over one output file, each possibly killed after any part of what
// it writes, and the uninterrupted chunks of the overnight run.
module GenerationHistory {
  import opened Wrappers
  import opened Arithmetic
  import opened Sequences
  import opened GenerationLog

  // kept: how many characters reach the file before the process dies (all, when there are no more).
  datatype Session = Session(args: Arguments, results: seq<Record>, kept: nat)

  ghost predicate Possible(log: Log, s: Session, request: Reader) {
    Distinct(s.args.prompts) && Answers(s.results, Issued(log, s.args, request), request)
  }

  function AfterSession(log: Log, s: Session): Log {
    var stream := Stream(s.results);
    Append(Base(log, s.args), if s.kept < |stream| then stream[..s.kept] else stream)
  }

  // The file after a history that began with no file; results that cannot occur are no event.
  ghost function Replay(h: seq<Session>, request: Reader): Log {
    if h == [] then NOTHING
    else
      var log := Replay(h[..|h| - 1], request);
      if Possible(log, h[|h| - 1], request) then AfterSession(log, h[|h| - 1]) else log
  }

  // ----- issued prompts are distinct and new -----

  lemma {:induction false} RemainingIsFilter(prompts: seq<string>, completed: set<string>)
    requires Distinct(prompts)
    ensures Distinct(Remaining(prompts, completed))
    ensures forall x :: x in Remaining(prompts, completed) <==> x in prompts && x !in completed
  {
    if prompts != [] {
      var init, last := prompts[..|prompts| - 1], prompts[|prompts| - 1];
      RemainingIsFilter(init, completed);
      assert prompts == init + [last];
      assert last !in init;
    }
  }

  lemma AnswersAreFresh(log: Log, s: Session, request: Reader)
    requires Possible(log, s, request)
    ensures DistinctIds(s.results) && Fresh(s.results, Base(log, s.args), request)
  {
    var completed := if s.args.skipCompleted then CompletedIds(log, request) else {};
    RemainingIsFilter(s.args.prompts, completed);
    var issued := Issued(log, s.args, request);
    assert forall i | 0 <= i < |issued| :: issued[i] == Remaining(s.args.prompts, completed)[i];
    assert Distinct(issued);
    PartOfDistinct(IdsOf(s.results), issued);
    forall i, j | 0 <= i < j < |s.results|
      ensures s.results[i].id != s.results[j].id
    {
      assert IdsOf(s.results)[i] == s.results[i].id && IdsOf(s.results)[j] == s.results[j].id;
    }
    assert CompletedIds(NOTHING, request) == {};
    forall r | r in s.results
      ensures r.id !in CompletedIds(Base(log, s.args), request)
    {
      var i :| 0 <= i < |s.results| && s.results[i] == r;
      assert IdsOf(s.results)[i] == r.id;
    }
  }

  // One invocation: still one parseable line for each id; with skip-completed, no completed id is
  // dropped but the one whose record was the unterminated tail, and no line disappears.
  lemma SessionKeeps(log: Log, s: Session, request: Reader)
    requires Sound(log, request) && ReadsObjects(request) && Possible(log, s, request)
    ensures Sound(AfterSession(log, s), request)
    ensures s.args.skipCompleted ==>
              && CompletedIds(log, request) - TailId(log, request) <= CompletedIds(AfterSession(log, s), request)
              && |log.lines| <= |AfterSession(log, s).lines|
  {
    AnswersAreFresh(log, s, request);
    var stream := Stream(s.results);
    assert stream[..|stream|] == stream;
    CutStreamKeeps(Base(log, s.args), s.results, if s.kept < |stream| then s.kept else |stream|, request);
  }

  // At every point of any history the file holds at most one parseable line for each request_id.
  lemma {:induction false} OneLineForEachId(h: seq<Session>, request: Reader)
    requires ReadsObjects(request)
    ensures OnceEach(AllLines(Replay(h, request)), request)
    ensures Sound(Replay(h, request), request)
  {
    if h != [] {
      OneLineForEachId(h[..|h| - 1], request);
      var log := Replay(h[..|h| - 1], request);
      if Possible(log, h[|h| - 1], request) {
        SessionKeeps(log, h[|h| - 1], request);
      }
    }
  }

  // ----- uninterrupted chunks -----

  ghost predicate AllAnswered(results: seq<Record>, issued: seq<string>, request: Reader) {
    (forall r | r in results :: GoodRecord(r, request)) && multiset(IdsOf(results)) == multiset(issued)
  }

  lemma {:induction false} OneWholeLine(log: Log, r: Record, request: Reader)
    requires log.tail == "" && GoodRecord(r, request)
    ensures var after := Append(log, r.text + "\n");
            && after.tail == "" && |after.lines| == |log.lines| + 1
            && CompletedIds(after, request) == CompletedIds(log, request) + {r.id}
            && (Readable(log, request) ==> Readable(after, request))
  {
    AppendLine(log, r.text);
    assert "" + r.text == r.text;
    IdsOnPlus(log.lines, r.text, request);
  }

  lemma {:induction false} WholeStream(log: Log, records: seq<Record>, request: Reader)
    requires log.tail == "" && forall r | r in records :: GoodRecord(r, request)
    ensures var after := Append(log, Stream(records));
            && after.tail == "" && |after.lines| == |log.lines| + |records|
            && CompletedIds(after, request) == CompletedIds(log, request) + (set x | x in IdsOf(records))
            && (Readable(log, request) ==> Readable(after, request))
    decreases |records|
  {
    hide CompletedIds, GoodRecord, Readable;
    if records != [] {
      var r, rest := records[0], records[1..];
      OneWholeLine(log, r, request);
      var next := Append(log, r.text + "\n");
      AppendOn(log, r.text + "\n", Stream(rest));
      WholeStream(next, rest, request);
      assert IdsOf(records) == [r.id] + IdsOf(rest);
    }
  }

  lemma {:induction false} RemainingOfSum(a: seq<string>, b: seq<string>, done: set<string>)
    ensures Remaining(a + b, done) == Remaining(a, done) + Remaining(b, done)
  {
    if b == [] {
      assert a + b == a;
    } else {
      assert (a + b)[..|a + b| - 1] == a + b[..|b| - 1];
      RemainingOfSum(a, b[..|b| - 1], done);
    }
  }

  lemma {:induction false} RemainingTwice(prompts: seq<string>, done: set<string>, more: set<string>)
    ensures Remaining(prompts, done + more) == Remaining(Remaining(prompts, done), more)
  {
    if prompts != [] {
      var init, last := prompts[..|prompts| - 1], prompts[|prompts| - 1];
      RemainingTwice(init, done, more);
      if last !in done {
        RemainingOfSum(Remaining(init, done), [last], more);
      }
    }
  }

  lemma {:induction false} RemainingAllOrNone(s: seq<string>, done: set<string>)
    ensures (forall x | x in s :: x in done) ==> Remaining(s, done) == []
    ensures (forall x | x in s :: x !in done) ==> Remaining(s, done) == s
  {
    if s != [] {
      RemainingAllOrNone(s[..|s| - 1], done);
      assert s == s[..|s| - 1] + [s[|s| - 1]];
    }
  }

  lemma {:induction false} RemainingAfterIssue(prompts: seq<string>, done: set<string>, k: nat)
    requires Distinct(prompts) && k <= |Remaining(prompts, done)|
    ensures var r := Remaining(prompts, done);
            Remaining(prompts, done + (set x | x in r[..k])) == r[k..]
  {
    var r := Remaining(prompts, done);
    RemainingIsFilter(prompts, done);
    var more := set x | x in r[..k];
    RemainingTwice(prompts, done, more);
    assert r == r[..k] + r[k..];
    RemainingOfSum(r[..k], r[k..], more);
    RemainingAllOrNone(r[..k], more);
    RemainingAllOrNone(r[k..], more);
  }

  // An uninterrupted chunk on a newline-terminated file adds one row for each of the next prompts.
  lemma {:induction false} ChunkAdds(log: Log, prompts: seq<string>, c: nat, results: seq<Record>, request: Reader)
    requires log.tail == "" && Readable(log, request) && Distinct(prompts)
    requires AllAnswered(results, Issued(log, Arguments(true, prompts, Some(c)), request), request)
    ensures var r := Remaining(prompts, CompletedIds(log, request));
            var after := Append(log, Stream(results));
            && after.tail == "" && Readable(after, request) && |after.lines| == |log.lines| + Min(c, |r|)
            && Remaining(prompts, CompletedIds(after, request)) == r[Min(c, |r|)..]
  {
    var r := Remaining(prompts, CompletedIds(log, request));
    var k := Min(c, |r|);
    assert Issued(log, Arguments(true, prompts, Some(c)), request) == r[..k];
    WholeStream(log, results, request);
    assert |multiset(IdsOf(results))| == |IdsOf(results)| && |multiset(r[..k])| == k;
    forall x
      ensures x in IdsOf(results) <==> x in r[..k]
    {
      assert x in IdsOf(results) <==> x in multiset(IdsOf(results));
      assert x in r[..k] <==> x in multiset(r[..k]);
    }
    assert (set x | x in IdsOf(results)) == set x | x in r[..k];
    RemainingAfterIssue(prompts, CompletedIds(log, request), k);
  }

  // logs[k] is the file before chunk k; every chunk gets all its answers.
  ghost predicate Uninterrupted(logs: seq<Log>, answers: seq<seq<Record>>, prompts: seq<string>, c: nat,
      request: Reader)
  {
    |logs| == |answers| + 1 && logs[0].tail == "" && Readable(logs[0], request) &&
    forall k | 0 <= k < |answers| ::
      AllAnswered(answers[k], Issued(logs[k], Arguments(true, prompts, Some(c)), request), request)
      && logs[k + 1] == Append(logs[k], Stream(answers[k]))
  }

  lemma NextChunk(k: nat, c: nat, m: nat)
    requires k > 0
    ensures Min((k - 1) * c, m) + Min(c, m - Min((k - 1) * c, m)) == Min(k * c, m)
    ensures (k - 1) * c >= 0
  {
    assert k * c == (k - 1) * c + c;
  }

  // After k uninterrupted chunks the file is newline-terminated, the prompts left are those of the
  // start without the first k * c, and there is a row for each prompt issued.
  lemma {:induction false} RowsAfterChunks(logs: seq<Log>, answers: seq<seq<Record>>, prompts: seq<string>, c: nat,
      request: Reader, k: nat)
    requires Distinct(prompts) && Uninterrupted(logs, answers, prompts, c, request) && k < |logs|
    ensures k * c >= 0
    ensures var r := Remaining(prompts, CompletedIds(logs[0], request));
            && logs[k].tail == "" && Readable(logs[k], request)
            && |logs[k].lines| == |logs[0].lines| + Min(k * c, |r|)
            && Remaining(prompts, CompletedIds(logs[k], request)) == r[Min(k * c, |r|)..]
  {
    hide CompletedIds, Remaining, AllAnswered, Append, Distinct, Readable;
    var r := Remaining(prompts, CompletedIds(logs[0], request));
    if k > 0 {
      RowsAfterChunks(logs, answers, prompts, c, request, k - 1);
      NextChunk(k, c, |r|);
      var done := Min((k - 1) * c, |r|);
      var here, there := logs[k - 1], logs[k - 1 + 1];
      assert there == Append(here, Stream(answers[k - 1]));
      ChunkAdds(here, prompts, c, answers[k - 1], request);
      assert r[done..][Min(c, |r| - done)..] == r[done + Min(c, |r| - done)..];
    } else {
      assert 0 * c == 0;
      assert r[0..] == r;
    }
  }

  // What chunk k issues: the next c prompts, or those that are left.
  lemma {:induction false} ChunkIssues(logs: seq<Log>, answers: seq<seq<Record>>, prompts: seq<string>, c: nat,
      request: Reader, k: nat)
    requires Distinct(prompts) && Uninterrupted(logs, answers, prompts, c, request) && k < |answers|
    ensures 0 <= k * c <= (k + 1) * c
    ensures var r := Remaining(prompts, CompletedIds(logs[0], request));
            Issued(logs[k], Arguments(true, prompts, Some(c)), request) == r[Min(k * c, |r|)..Min((k + 1) * c, |r|)]
  {
    hide CompletedIds, Remaining, AllAnswered, Append, Distinct, Readable;
    var r := Remaining(prompts, CompletedIds(logs[0], request));
    RowsAfterChunks(logs, answers, prompts, c, request, k);
    assert (k + 1) * c == k * c + c;
    var done := Min(k * c, |r|);
    assert r[done..][..Min(c, |r| - done)] == r[done..done + Min(c, |r| - done)];
  }

  // No prompt is issued twice, neither by one chunk nor by two.
  lemma EachPromptIsIssuedOnce(logs: seq<Log>, answers: seq<seq<Record>>, prompts: seq<string>, c: nat, request: Reader,
      j: nat, k: nat)
    requires Distinct(prompts) && Uninterrupted(logs, answers, prompts, c, request) && j <= k < |answers|
    ensures var args := Arguments(true, prompts, Some(c));
            && Distinct(Issued(logs[j], args, request))
            && (j < k ==> forall x | x in Issued(logs[j], args, request) :: x !in Issued(logs[k], args, request))
  {
    var r := Remaining(prompts, CompletedIds(logs[0], request));
    hide CompletedIds, Remaining, Uninterrupted, Issued, Distinct;
    RemainingIsFilter(prompts, CompletedIds(logs[0], request));
    ChunkIssues(logs, answers, prompts, c, request, j);
    ChunkIssues(logs, answers, prompts, c, request, k);
    var from, to := Min(j * c, |r|), Min((j + 1) * c, |r|);
    PartIsDistinct(r, from, to);
    if j < k {
      InOrder(j + 1, k, c);
      PartsAreApart(r, from, to, Min(k * c, |r|), Min((k + 1) * c, |r|));
    }
  }

  lemma PartIsDistinct(r: seq<string>, a: nat, b: nat)
    requires Distinct(r) && a <= b <= |r|
    ensures Distinct(r[a..b])
  {
  }

  lemma PartsAreApart(r: seq<string>, a: nat, b: nat, c: nat, d: nat)
    requires Distinct(r) && a <= b <= c <= d <= |r|
    ensures forall x | x in r[a..b] :: x !in r[c..d]
  {
  }

  lemma InOrder(a: nat, b: nat, c: nat)
    requires a <= b
    ensures a * c <= b * c
  {
  }

  // A newline-terminated file in which every row is the row of one prompt.
  ghost predicate AllRowsComplete(log: Log, prompts: seq<string>, request: Reader) {
    && log.tail == "" && OnceEach(log.lines, request)
    && forall i | 0 <= i < |log.lines| ::
      IdOn(log.lines[i], request).Some? && IdOn(log.lines[i], request).value in prompts
  }

  lemma {:induction false} RowsAreIds(lines: seq<string>, request: Reader)
    requires OnceEach(lines, request) && forall i | 0 <= i < |lines| :: IdOn(lines[i], request).Some?
    ensures |IdsOn(lines, request)| == |lines|
  {
    if lines == [] {
      assert IdsOn(lines, request) == {};
    } else {
      var init, last := lines[..|lines| - 1], lines[|lines| - 1];
      assert lines == init + [last];
      RowsAreIds(init, request);
      IdsOnPlus(init, last, request);
      OnceEachInit(init, last, request);
    }
  }

  lemma {:induction false} DistinctSize(s: seq<string>)
    requires Distinct(s)
    ensures |set x | x in s| == |s|
  {
    if s == [] {
      assert (set x | x in s) == {};
    } else {
      var init, last := s[..|s| - 1], s[|s| - 1];
      assert s == init + [last];
      DistinctSize(init);
      assert last !in init;
      assert (set x | x in s) == (set x | x in init) + {last};
    }
  }

  lemma {:induction false} RemainingPlusRows(log: Log, prompts: seq<string>, request: Reader)
    requires Distinct(prompts) && AllRowsComplete(log, prompts, request)
    ensures |Remaining(prompts, CompletedIds(log, request))| + |log.lines| == |prompts|
  {
    var done := CompletedIds(log, request);
    var r := Remaining(prompts, done);
    RemainingIsFilter(prompts, done);
    RowsAreIds(log.lines, request);
    DistinctSize(prompts);
    DistinctSize(r);
    assert (set x | x in prompts) == (set x | x in r) + done;
  }

  // n uninterrupted chunks end with min(|prompts|, L + n * c) rows.
  lemma FinalRows(logs: seq<Log>, answers: seq<seq<Record>>, prompts: seq<string>, c: nat, request: Reader)
    requires Distinct(prompts) && Uninterrupted(logs, answers, prompts, c, request)
    requires AllRowsComplete(logs[0], prompts, request)
    ensures |logs[|answers|].lines| == Min(|prompts|, |logs[0].lines| + |answers| * c)
  {
    RowsAfterChunks(logs, answers, prompts, c, request, |answers|);
    RemainingPlusRows(logs[0], prompts, request);
  }

  // ----- one invocation from scratch -----

  lemma {:induction false} StreamLines(records: seq<Record>, log: Log, request: Reader)
    requires log.tail == "" && forall r | r in records :: GoodRecord(r, request)
    ensures Append(log, Stream(records)) == Log(log.lines + TextsOf(records), "")
    decreases |records|
  {
    hide GoodRecord;
    if records != [] {
      var r, rest := records[0], records[1..];
      var next := Log(log.lines + [r.text], "");
      assert r in records;
      assert NoNewline(r.text) by { GoodTextHasNoNewline(r, request); }
      AppendOn(log, r.text + "\n", Stream(rest));
      AppendLine(log, r.text);
      assert "" + r.text == r.text;
      StreamLines(rest, next, request);
      assert TextsOf(records) == [r.text] + TextsOf(rest);
      assert log.lines + TextsOf(records) == next.lines + TextsOf(rest);
    }
  }

  lemma GoodTextHasNoNewline(r: Record, request: Reader)
    requires GoodRecord(r, request)
    ensures NoNewline(r.text)
  {
  }

  function TextsOf(records: seq<Record>): seq<string> {
    seq(|records|, i requires 0 <= i < |records| => records[i].text)
  }

  lemma {:induction false} FreshFile(log: Log, prompts: seq<string>, results: seq<Record>, request: Reader)
    requires forall r | r in results :: GoodRecord(r, request)
    ensures AfterSession(log, Session(Arguments(false, prompts, None), results, |Stream(results)|))
            == Log(TextsOf(results), "")
    ensures Issued(log, Arguments(false, prompts, None), request) == prompts
  {
    RemainingAllOrNone(prompts, {});
    StreamLines(results, NOTHING, request);
    assert NOTHING.lines + TextsOf(results) == TextsOf(results);
  }

  // Lines with the ids of some prompts, each prompt once.
  lemma OneRowForEach(lines: seq<string>, ids: seq<string>, prompts: seq<string>, request: Reader)
    requires Distinct(prompts) && multiset(ids) == multiset(prompts) && |ids| == |lines|
    requires forall i | 0 <= i < |ids| :: IdOn(lines[i], request) == Some(ids[i])
    ensures AllRowsComplete(Log(lines, ""), prompts, request) && |lines| == |prompts|
    ensures forall x | x in prompts :: exists i | 0 <= i < |lines| :: IdOn(lines[i], request) == Some(x)
  {
    PartOfDistinct(ids, prompts);
    assert |multiset(ids)| == |ids| && |multiset(prompts)| == |prompts|;
    forall x | x in prompts
      ensures exists i | 0 <= i < |lines| :: IdOn(lines[i], request) == Some(x)
    {
      assert x in multiset(prompts);
      assert x in multiset(ids);
      var i :| 0 <= i < |ids| && ids[i] == x;
      assert IdOn(lines[i], request) == Some(x);
    }
  }

  // Without skip-completed and without a cap, whatever the file held before and whatever was in it that
  // cannot be read: once every prompt that is sent out is answered, the file holds one row for each
  // prompt, and nothing else.
  lemma {:induction false} FreshInvocationCompletes(log: Log, prompts: seq<string>, results: seq<Record>,
      request: Reader)
    requires Distinct(prompts)
    requires AllAnswered(results, Issued(log, Arguments(false, prompts, None), request), request)
    ensures var after := AfterSession(log, Session(Arguments(false, prompts, None), results, |Stream(results)|));
            && AllRowsComplete(after, prompts, request) && |after.lines| == |prompts|
            && forall x | x in prompts :: exists i | 0 <= i < |after.lines| :: IdOn(after.lines[i], request) == Some(x)
  {
    hide AfterSession, Issued, Stream, Distinct, AllRowsComplete;
    FreshFile(log, prompts, results, request);
    assert forall i | 0 <= i < |results| :: results[i] in results;
    OneRowForEach(TextsOf(results), IdsOf(results), prompts, request);
  }
}
