// The append-only output of generate.py: terminated lines and an unterminated tail, one character
// for each byte, and what one invocation reads from it and appends to it.
module GenerationLog {
  import opened Wrappers
  import opened Arithmetic
  import opened Sequences
  import opened JsonText

  // No '\n' occurs in a line or in the tail.
  datatype Log = Log(lines: seq<string>, tail: string)

  // What a line, stripped of blanks, is to the reader: a JSON object with its truthy request_id, if it
  // has one; no JSON; or something that raises, being no UTF-8 or JSON but no object.
  datatype Parsed = Object(id: Option<string>) | Malformed | Raises

  type Reader = string -> Parsed

  function IdOn(line: string, request: Reader): Option<string> {
    match request(line)
    case Object(id) => id
    case _ => None
  }

  // One result: the prompt's id, and its JSON text without the newline.
  datatype Record = Record(id: string, text: string)

  const NOTHING := Log([], "")

  function AppendChar(log: Log, c: char): Log {
    if c == '\n' then Log(log.lines + [log.tail], "") else Log(log.lines, log.tail + [c])
  }

  function Append(log: Log, text: string): Log {
    if text == "" then log else AppendChar(Append(log, text[..|text| - 1]), text[|text| - 1])
  }

  function Stream(records: seq<Record>): string {
    if records == [] then "" else records[0].text + "\n" + Stream(records[1..])
  }

  // The lines that reading the file yields; the tail is one when it is not empty.
  function AllLines(log: Log): seq<string> {
    if log.tail == "" then log.lines else log.lines + [log.tail]
  }

  function IdsOn(lines: seq<string>, request: Reader): set<string> {
    set i | 0 <= i < |lines| && IdOn(lines[i], request).Some? :: IdOn(lines[i], request).value
  }

  predicate Readable(log: Log, request: Reader) {
    forall i | 0 <= i < |AllLines(log)| :: !request(AllLines(log)[i]).Raises?
  }

  function CompletedIds(log: Log, request: Reader): set<string> {
    IdsOn(AllLines(log), request)
  }

  function Remaining(prompts: seq<string>, completed: set<string>): seq<string> {
    if prompts == [] then []
    else
      var rest := Remaining(prompts[..|prompts| - 1], completed);
      var last := prompts[|prompts| - 1];
      if last in completed then rest else rest + [last]
  }

  function Capped(prompts: seq<string>, cap: Option<nat>): seq<string> {
    if cap.Some? && |prompts| > cap.value then prompts[..cap.value] else prompts
  }

  datatype Arguments = Arguments(skipCompleted: bool, prompts: seq<string>, cap: Option<nat>)

  // The prompts one invocation sends out: none when reading the file raises.
  function Issued(log: Log, args: Arguments, request: Reader): seq<string> {
    if args.skipCompleted && !Readable(log, request) then []
    else Capped(Remaining(args.prompts, if args.skipCompleted then CompletedIds(log, request) else {}), args.cap)
  }

  // A line that reading the file yields.
  predicate IsLine(log: Log, line: string) {
    line in log.lines || (line == log.tail && log.tail != "")
  }

  // Reading the completed ids fails on some line of the file.
  ghost predicate ReadingRaises(log: Log, args: Arguments, request: Reader) {
    args.skipCompleted && exists line: string :: IsLine(log, line) && request(line) == Raises
  }

  // With skip-completed, a prompt is skipped when some line of the file carries its id.
  ghost predicate IsToSkip(log: Log, args: Arguments, request: Reader, prompt: string) {
    args.skipCompleted && exists line: string :: IsLine(log, line) && request(line) == Object(Some(prompt))
  }

  // The prompts not to be skipped, in prompt order, up to the cap: all of them without one.
  ghost predicate IssuesTheRest(log: Log, args: Arguments, request: Reader, issued: seq<string>) {
    exists todo: seq<string> ::
      && IsFilter(todo, args.prompts, prompt => !IsToSkip(log, args, request, prompt))
      && issued <= todo && |issued| == if args.cap.None? then |todo| else Min(args.cap.value, |todo|)
  }

  lemma LinesAreLines(log: Log, line: string)
    ensures IsLine(log, line) <==> line in AllLines(log)
  {
  }

  lemma SkippedAreCompleted(log: Log, args: Arguments, request: Reader, prompt: string)
    ensures IsToSkip(log, args, request, prompt) <==> args.skipCompleted && prompt in CompletedIds(log, request)
  {
    var lines := AllLines(log);
    if prompt in CompletedIds(log, request) {
      var i :| 0 <= i < |lines| && IdOn(lines[i], request) == Some(prompt);
      LinesAreLines(log, lines[i]);
    }
    if line: string :| IsLine(log, line) && request(line) == Object(Some(prompt)) {
      LinesAreLines(log, line);
      var i :| 0 <= i < |lines| && lines[i] == line;
      assert IdOn(lines[i], request) == Some(prompt);
    }
  }

  lemma {:induction false} RemainingIsInOrder(prompts: seq<string>, completed: set<string>, keep: string -> bool)
    requires forall x :: keep(x) <==> x !in completed
    ensures IsFilter(Remaining(prompts, completed), prompts, keep)
  {
    hide IsFilter;
    if prompts == [] {
      FilterOfNothing(keep);
    } else {
      var init, last := prompts[..|prompts| - 1], prompts[|prompts| - 1];
      RemainingIsInOrder(init, completed, keep);
      FilterOfMore(Remaining(init, completed), init, last, keep);
      assert prompts == init + [last];
    }
  }

  lemma RaisingIsUnreadable(log: Log, args: Arguments, request: Reader)
    ensures ReadingRaises(log, args, request) <==> args.skipCompleted && !Readable(log, request)
  {
    var lines := AllLines(log);
    if line: string :| IsLine(log, line) && request(line) == Raises {
      LinesAreLines(log, line);
      var i :| 0 <= i < |lines| && lines[i] == line;
    }
    if i :| 0 <= i < |lines| && request(lines[i]).Raises? {
      LinesAreLines(log, lines[i]);
    }
  }

  // Nothing is issued when reading raises, and otherwise exactly what is left to do.
  lemma IssuedIsTheRest(log: Log, args: Arguments, request: Reader)
    ensures ReadingRaises(log, args, request) ==> Issued(log, args, request) == []
    ensures !ReadingRaises(log, args, request) ==> IssuesTheRest(log, args, request, Issued(log, args, request))
  {
    RaisingIsUnreadable(log, args, request);
    if !ReadingRaises(log, args, request) {
      var completed := if args.skipCompleted then CompletedIds(log, request) else {};
      forall prompt
        ensures IsToSkip(log, args, request, prompt) <==> prompt in completed
      {
        SkippedAreCompleted(log, args, request, prompt);
      }
      hide IsToSkip, ReadingRaises, Readable, CompletedIds, IsFilter;
      RemainingIsInOrder(args.prompts, completed, prompt => !IsToSkip(log, args, request, prompt));
    }
  }

  function IdsOf(records: seq<Record>): seq<string> {
    seq(|records|, i requires 0 <= i < |records| => records[i].id)
  }

  predicate NoNewline(s: string) {
    forall i | 0 <= i < |s| :: s[i] != '\n'
  }

  ghost predicate GoodRecord(r: Record, request: Reader) {
    RecordText(r.text) && NoNewline(r.text) && request(r.text) == Object(Some(r.id))
  }

  // Results come in any order, at most one for each issued prompt.
  ghost predicate Answers(records: seq<Record>, issued: seq<string>, request: Reader) {
    (forall r | r in records :: GoodRecord(r, request)) && multiset(IdsOf(records)) <= multiset(issued)
  }

  // A line that opens an object and parses is a whole object text, whatever is stripped behind it.
  ghost predicate ReadsObjects(request: Reader) {
    forall s :: s != "" && s[0] == '{' && request(s).Object? ==> Read(Start, s) == Done
  }

  // The file an invocation starts writing to.
  function Base(log: Log, args: Arguments): Log {
    if args.skipCompleted then log else NOTHING
  }

  class Generator {
    var log: Log

    constructor ()
      ensures log == NOTHING
    {
      log := NOTHING;
    }

    method ReadCompleted(request: Reader) returns (raised: bool, completed: set<string>)
      ensures raised <==> !Readable(log, request)
      ensures !raised ==> completed == CompletedIds(log, request)
    {
      var lines := AllLines(log);
      completed := {};
      for i := 0 to |lines|
        invariant completed == IdsOn(lines[..i], request)
        invariant forall j | 0 <= j < i :: !request(lines[j]).Raises?
      {
        assert lines[..i + 1] == lines[..i] + [lines[i]];
        IdsOnPlus(lines[..i], lines[i], request);
        match request(lines[i])
        case Object(Some(id)) => completed := completed + {id};
        case Raises => return true, completed;
        case _ =>
      }
      assert lines[..|lines|] == lines;
      raised := false;
    }

    method Select(args: Arguments, request: Reader) returns (raised: bool, issued: seq<string>)
      ensures raised <==> args.skipCompleted && !Readable(log, request)
      ensures issued == Issued(log, args, request)
      ensures raised <==> ReadingRaises(log, args, request)
      ensures raised ==> issued == []
      ensures !raised ==> IssuesTheRest(log, args, request, issued)
    {
      IssuedIsTheRest(log, args, request);
      RaisingIsUnreadable(log, args, request);
      var completed: set<string> := {};
      if args.skipCompleted {
        raised, completed := ReadCompleted(request);
        if raised {
          return true, [];
        }
      }
      issued := [];
      for i := 0 to |args.prompts|
        invariant issued == Remaining(args.prompts[..i], completed)
      {
        assert args.prompts[..i + 1][..i] == args.prompts[..i];
        if args.prompts[i] !in completed {
          issued := issued + [args.prompts[i]];
        }
      }
      assert args.prompts[..|args.prompts|] == args.prompts;
      if args.cap.Some? && |issued| > args.cap.value {
        issued := issued[..args.cap.value];
      }
      raised := false;
    }

    // results: what comes back for the prompts sent out, in completion order. When reading raised there
    // are none, and the file is left alone.
    method Run(args: Arguments, ghost request: Reader, results: seq<Record>)
      requires Answers(results, Issued(log, args, request), request)
      modifies this
      ensures log == Append(Base(old(log), args), Stream(results))
    {
      if !args.skipCompleted {
        log := NOTHING;
      }
      ghost var start := log;
      assert results[0..] == results;
      for i := 0 to |results|
        invariant Append(log, Stream(results[i..])) == Append(start, Stream(results))
      {
        assert results[i..][1..] == results[i + 1..];
        AppendOn(log, results[i].text + "\n", Stream(results[i + 1..]));
        assert GoodRecord(results[i], request);
        AppendLine(log, results[i].text);
        log := Log(log.lines + [log.tail + results[i].text], "");
      }
    }
  }

  lemma {:induction false} AppendOn(log: Log, a: string, b: string)
    ensures Append(log, a + b) == Append(Append(log, a), b)
  {
    if b == "" {
      assert a + b == a;
    } else {
      assert (a + b)[..|a + b| - 1] == a + b[..|b| - 1];
      AppendOn(log, a, b[..|b| - 1]);
    }
  }

  lemma {:induction false} AppendPart(log: Log, text: string)
    requires NoNewline(text)
    ensures Append(log, text) == Log(log.lines, log.tail + text)
  {
    if text != "" {
      AppendPart(log, text[..|text| - 1]);
      assert log.tail + text == log.tail + text[..|text| - 1] + [text[|text| - 1]];
    } else {
      assert log.tail + text == log.tail;
    }
  }

  lemma {:induction false} AppendLine(log: Log, text: string)
    requires NoNewline(text)
    ensures Append(log, text + "\n") == Log(log.lines + [log.tail + text], "")
  {
    AppendPart(log, text);
    assert (text + "\n")[..|text|] == text;
  }

  // ----- at most one parseable line for each id -----

  ghost predicate OnceEach(lines: seq<string>, request: Reader) {
    forall i, j | 0 <= i < j < |lines| && IdOn(lines[i], request).Some? && IdOn(lines[j], request).Some? ::
      IdOn(lines[i], request).value != IdOn(lines[j], request).value
  }

  ghost predicate Sound(log: Log, request: Reader) {
    OnceEach(AllLines(log), request) && (log.tail != "" ==> log.tail[0] == '{')
  }

  ghost predicate DistinctIds(records: seq<Record>) {
    forall i, j | 0 <= i < j < |records| :: records[i].id != records[j].id
  }

  ghost predicate Fresh(records: seq<Record>, log: Log, request: Reader) {
    forall r | r in records :: r.id !in CompletedIds(log, request)
  }

  // The id that the unterminated tail carries, if it is a whole record.
  function TailId(log: Log, request: Reader): set<string> {
    if log.tail != "" && IdOn(log.tail, request).Some? then {IdOn(log.tail, request).value} else {}
  }

  lemma IdsOnPlus(lines: seq<string>, line: string, request: Reader)
    ensures IdsOn(lines + [line], request) ==
            IdsOn(lines, request) + (if IdOn(line, request).Some? then {IdOn(line, request).value} else {})
  {
    var all := lines + [line];
    assert all[|lines|] == line;
    assert forall i | 0 <= i < |lines| :: all[i] == lines[i];
  }

  lemma OnceEachPlus(lines: seq<string>, line: string, request: Reader)
    requires OnceEach(lines, request)
    requires IdOn(line, request).Some? ==> IdOn(line, request).value !in IdsOn(lines, request)
    ensures OnceEach(lines + [line], request)
  {
  }

  lemma OnceEachInit(lines: seq<string>, line: string, request: Reader)
    requires OnceEach(lines + [line], request)
    ensures OnceEach(lines, request)
    ensures IdOn(line, request).Some? ==> IdOn(line, request).value !in IdsOn(lines, request)
  {
    var all := lines + [line];
    assert all[|lines|] == line;
    assert forall i | 0 <= i < |lines| :: all[i] == lines[i];
  }

  lemma CompletedIsLinesAndTail(log: Log, request: Reader)
    ensures CompletedIds(log, request) == IdsOn(log.lines, request) + TailId(log, request)
    ensures OnceEach(AllLines(log), request) ==> OnceEach(log.lines, request)
  {
    if log.tail != "" {
      IdsOnPlus(log.lines, log.tail, request);
      if OnceEach(AllLines(log), request) {
        OnceEachInit(log.lines, log.tail, request);
      }
    }
  }

  // A non-empty part of a record behind the tail parses only as the whole record on its own line.
  lemma PartParses(tail: string, r: Record, k: nat, request: Reader)
    requires tail != "" ==> tail[0] == '{'
    requires ReadsObjects(request) && GoodRecord(r, request) && 0 < k <= |r.text|
    ensures var line := tail + r.text[..k];
            line[0] == '{' && IdOn(line, request) == if tail == "" && k == |r.text| then Some(r.id) else None
  {
    var line := tail + r.text[..k];
    assert r.text[0] == r.text[..3][0];
    if tail == "" {
      assert line == r.text[..k];
      if k == |r.text| {
        assert line == r.text;
      } else {
        TornIsNotDone(r.text, k);
      }
    } else {
      GluedIsNotDone(tail, r.text, k);
    }
  }

  // What becomes of the file when a non-empty part of one record is appended.
  lemma PartOfRecord(log: Log, r: Record, k: nat, request: Reader)
    requires Sound(log, request) && ReadsObjects(request) && GoodRecord(r, request)
    requires r.id !in CompletedIds(log, request) && 0 < k <= |r.text|
    ensures var line := log.tail + r.text[..k];
            && OnceEach(log.lines + [line], request)
            && line[0] == '{'
            && IdsOn(log.lines + [line], request) == IdsOn(log.lines, request)
               + (if log.tail == "" && k == |r.text| then {r.id} else {})
  {
    hide RecordText, NoNewline, IdsOn, OnceEach;
    var line := log.tail + r.text[..k];
    PartParses(log.tail, r, k, request);
    CompletedIsLinesAndTail(log, request);
    OnceEachPlus(log.lines, line, request);
    IdsOnPlus(log.lines, line, request);
  }

  ghost predicate Kept(before: Log, after: Log, records: seq<Record>, request: Reader) {
    && CompletedIds(after, request) <= CompletedIds(before, request) + (set r | r in records :: r.id)
    && CompletedIds(before, request) - TailId(before, request) <= CompletedIds(after, request)
    && |before.lines| <= |after.lines|
  }

  // The record's line is complete: the rest of the stream continues behind it.
  lemma {:induction false} AfterLine(log: Log, records: seq<Record>, request: Reader)
    requires records != [] && Sound(log, request) && ReadsObjects(request)
    requires (forall r | r in records :: GoodRecord(r, request)) && DistinctIds(records) && Fresh(records, log, request)
    ensures var next := Log(log.lines + [log.tail + records[0].text], "");
            && next == Append(log, records[0].text + "\n")
            && Sound(next, request) && DistinctIds(records[1..]) && Fresh(records[1..], next, request)
            && CompletedIds(next, request) <= CompletedIds(log, request) + {records[0].id}
            && CompletedIds(log, request) - TailId(log, request) <= CompletedIds(next, request)
  {
    hide IdsOn, OnceEach, ReadsObjects;
    var r, rest := records[0], records[1..];
    assert r in records;
    AppendLine(log, r.text);
    PartOfRecord(log, r, |r.text|, request);
    assert r.text[..|r.text|] == r.text;
    CompletedIsLinesAndTail(log, request);
    forall i, j | 0 <= i < j < |rest|
      ensures rest[i].id != rest[j].id
    {
      assert rest[i] == records[i + 1] && rest[j] == records[j + 1];
    }
    forall q | q in rest
      ensures q in records && q.id != r.id
    {
      var j :| 0 <= j < |rest| && rest[j] == q;
      assert records[j + 1] == q;
    }
  }

  // Any prefix of the appended text keeps one line for each id, and loses no completed id but that
  // of the tail.
  lemma {:induction false} CutStreamKeeps(log: Log, records: seq<Record>, k: nat, request: Reader)
    requires Sound(log, request) && ReadsObjects(request) && k <= |Stream(records)|
    requires (forall r | r in records :: GoodRecord(r, request)) && DistinctIds(records) && Fresh(records, log, request)
    ensures Sound(Append(log, Stream(records)[..k]), request)
    ensures Kept(log, Append(log, Stream(records)[..k]), records, request)
    decreases |records|
  {
    hide IdsOn, ReadsObjects, Sound, GoodRecord, DistinctIds, Fresh;
    if k == 0 {
      assert Stream(records)[..k] == "";
    } else {
      var r, rest := records[0], records[1..];
      assert Stream(records) == r.text + "\n" + Stream(rest);
      if k <= |r.text| {
        assert Stream(records)[..k] == r.text[..k];
        CutInFirst(log, records, k, request);
      } else {
        var m := k - |r.text| - 1;
        assert Stream(records)[..k] == (r.text + "\n") + Stream(rest)[..m];
        AppendOn(log, r.text + "\n", Stream(rest)[..m]);
        AfterLine(log, records, request);
        assert forall q | q in rest :: q in records;
        CutStreamKeeps(Log(log.lines + [log.tail + r.text], ""), rest, m, request);
      }
    }
  }

  lemma {:induction false} CutInFirst(log: Log, records: seq<Record>, k: nat, request: Reader)
    requires Sound(log, request) && ReadsObjects(request)
    requires records != [] && (forall r | r in records :: GoodRecord(r, request)) && Fresh(records, log, request)
    requires 0 < k <= |records[0].text|
    ensures var after := Append(log, records[0].text[..k]);
            Sound(after, request) && Kept(log, after, records, request)
  {
    hide RecordText, IdsOn, OnceEach, ReadsObjects;
    var r := records[0];
    assert r in records;
    AppendPart(log, r.text[..k]);
    PartOfRecord(log, r, k, request);
    CompletedIsLinesAndTail(log, request);
  }
}
