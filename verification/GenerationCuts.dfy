// When a killed invocation leaves a file that can be read again: exactly when it was cut between two
// characters.
module GenerationCuts {
  import opened Wrappers
  import opened JsonText
  import opened GenerationLog
  import opened GenerationHistory
  import opened Utf8

  // A line that opens an object raises exactly when it is not whole UTF-8: if it is JSON at all it is
  // an object.
  ghost predicate RaisesOnBrokenText(request: Reader) {
    forall s :: s != "" && s[0] == '{' ==> (request(s).Raises? <==> !Whole(s))
  }

  // Every line opens an object, as those that invocations write do.
  predicate LinesOpen(log: Log) {
    forall i | 0 <= i < |AllLines(log)| :: AllLines(log)[i] != "" && AllLines(log)[i][0] == '{'
  }

  predicate AllWhole(log: Log) {
    (forall i | 0 <= i < |log.lines| :: Whole(log.lines[i])) && Whole(log.tail)
  }

  lemma ReadableIsWhole(log: Log, request: Reader)
    requires LinesOpen(log) && RaisesOnBrokenText(request)
    ensures Readable(log, request) <==> AllWhole(log)
  {
    var all := AllLines(log);
    forall i | 0 <= i < |all|
      ensures request(all[i]).Raises? <==> !Whole(all[i])
    {
    }
    assert forall i | 0 <= i < |log.lines| :: all[i] == log.lines[i];
    if log.tail != "" {
      assert all[|log.lines|] == log.tail;
    }
  }

  // A part of a record behind the tail.
  lemma PartKeepsOpen(log: Log, text: string, k: nat)
    requires LinesOpen(log) && RecordText(text) && 0 < k <= |text|
    ensures LinesOpen(Log(log.lines, log.tail + text[..k])) && LinesOpen(Log(log.lines + [log.tail + text[..k]], ""))
  {
    var line := log.tail + text[..k];
    assert text[0] == text[..3][0];
    assert log.tail != "" ==> AllLines(log)[|log.lines|] == log.tail;
    assert line != "" && line[0] == '{';
    forall i | 0 <= i < |log.lines|
      ensures log.lines[i] != "" && log.lines[i][0] == '{'
    {
      assert AllLines(log)[i] == log.lines[i];
    }
  }

  lemma RecordIsWhole(r: Record, request: Reader)
    requires GoodRecord(r, request) && RaisesOnBrokenText(request)
    ensures Whole(r.text) && Whole(r.text + "\n")
  {
    assert r.text[0] == r.text[..3][0];
    WholeThen(r.text, "\n");
    AsciiIsWhole("\n");
  }

  // A record's line behind a whole tail.
  lemma {:induction false} LineKeepsWhole(log: Log, r: Record, request: Reader)
    requires LinesOpen(log) && AllWhole(log) && GoodRecord(r, request) && RaisesOnBrokenText(request)
    ensures var next := Log(log.lines + [log.tail + r.text], "");
            next == Append(log, r.text + "\n") && LinesOpen(next) && AllWhole(next)
  {
    AppendLine(log, r.text);
    PartKeepsOpen(log, r.text, |r.text|);
    assert r.text[..|r.text|] == r.text;
    RecordIsWhole(r, request);
    WholeThen(log.tail, r.text);
  }

  // Whatever prefix of the appended text survives, the file stays whole exactly when the prefix is.
  lemma {:induction false} CutIsWholeExactlyWhen(log: Log, records: seq<Record>, k: nat, request: Reader)
    requires LinesOpen(log) && AllWhole(log) && RaisesOnBrokenText(request) && k <= |Stream(records)|
    requires forall r | r in records :: GoodRecord(r, request)
    ensures var after := Append(log, Stream(records)[..k]);
            LinesOpen(after) && (AllWhole(after) <==> Whole(Stream(records)[..k]))
    decreases |records|
  {
    hide LinesOpen, AllWhole, RaisesOnBrokenText, GoodRecord, Whole;
    if k == 0 {
      assert Stream(records)[..k] == "";
      AsciiIsWhole("");
    } else {
      var r, rest := records[0], records[1..];
      assert Stream(records) == r.text + "\n" + Stream(rest);
      if k <= |r.text| {
        assert Stream(records)[..k] == r.text[..k];
        PartIsWholeExactlyWhen(log, r, k, request);
      } else {
        var m := k - |r.text| - 1;
        assert Stream(records)[..k] == (r.text + "\n") + Stream(rest)[..m];
        AppendOn(log, r.text + "\n", Stream(rest)[..m]);
        LineKeepsWhole(log, r, request);
        assert forall q | q in rest :: q in records;
        CutIsWholeExactlyWhen(Log(log.lines + [log.tail + r.text], ""), rest, m, request);
        RecordIsWhole(r, request);
        WholeThen(r.text + "\n", Stream(rest)[..m]);
      }
    }
  }

  lemma {:induction false} PartIsWholeExactlyWhen(log: Log, r: Record, k: nat, request: Reader)
    requires LinesOpen(log) && AllWhole(log) && GoodRecord(r, request) && 0 < k <= |r.text|
    ensures var after := Append(log, r.text[..k]);
            LinesOpen(after) && (AllWhole(after) <==> Whole(r.text[..k]))
  {
    AppendPart(log, r.text[..k]);
    PartKeepsOpen(log, r.text, k);
    WholeThen(log.tail, r.text[..k]);
  }

  // One killed invocation: a readable file can be read again exactly when what was written of the
  // appended text ends between two characters.
  lemma {:induction false} CutIsReadableExactlyWhen(log: Log, records: seq<Record>, k: nat, request: Reader)
    requires LinesOpen(log) && Readable(log, request) && RaisesOnBrokenText(request) && k <= |Stream(records)|
    requires forall r | r in records :: GoodRecord(r, request)
    ensures LinesOpen(Append(log, Stream(records)[..k]))
    ensures Readable(Append(log, Stream(records)[..k]), request) <==> Whole(Stream(records)[..k])
  {
    ReadableIsWhole(log, request);
    CutIsWholeExactlyWhen(log, records, k, request);
    ReadableIsWhole(Append(log, Stream(records)[..k]), request);
  }

  // ----- over histories -----

  // What of the session's results reaches the file.
  function Written(s: Session): string {
    var stream := Stream(s.results);
    if s.kept < |stream| then stream[..s.kept] else stream
  }

  // Every session that occurs is cut between two characters, if at all.
  ghost predicate CutsBetween(h: seq<Session>, request: Reader) {
    forall i | 0 <= i < |h| && Possible(Replay(h[..i], request), h[i], request) :: Whole(Written(h[i]))
  }

  ghost predicate AlwaysReadable(h: seq<Session>, request: Reader) {
    forall i | 0 <= i <= |h| :: Readable(Replay(h[..i], request), request)
  }

  lemma SessionIsReadableExactlyWhen(log: Log, s: Session, request: Reader)
    requires LinesOpen(log) && Readable(log, request) && RaisesOnBrokenText(request) && Possible(log, s, request)
    ensures LinesOpen(AfterSession(log, s))
    ensures Readable(AfterSession(log, s), request) <==> Whole(Written(s))
  {
    var stream := Stream(s.results);
    assert stream[..|stream|] == stream;
    CutIsReadableExactlyWhen(Base(log, s.args), s.results, |Written(s)|, request);
  }

  lemma LastSession(h: seq<Session>, i: nat, request: Reader)
    requires i < |h|
    ensures Replay(h[..i + 1], request) ==
            var log := Replay(h[..i], request); if Possible(log, h[i], request) then AfterSession(log, h[i]) else log
  {
    assert h[..i + 1][..i] == h[..i];
  }

  lemma {:induction false} ReadableWhileCutsBetween(h: seq<Session>, request: Reader, n: nat)
    requires RaisesOnBrokenText(request) && n <= |h|
    requires CutsBetween(h, request) || forall i | 0 <= i < n :: Readable(Replay(h[..i], request), request)
    ensures LinesOpen(Replay(h[..n], request))
    ensures CutsBetween(h, request) ==> Readable(Replay(h[..n], request), request)
  {
    hide Possible, Readable, LinesOpen, RaisesOnBrokenText, Whole;
    if n == 0 {
      NothingIsReadable(request);
      assert h[..0] == [];
    } else {
      ReadableWhileCutsBetween(h, request, n - 1);
      LastSession(h, n - 1, request);
      var log := Replay(h[..n - 1], request);
      if Possible(log, h[n - 1], request) {
        SessionIsReadableExactlyWhen(log, h[n - 1], request);
      }
    }
  }

  lemma NothingIsReadable(request: Reader)
    ensures LinesOpen(NOTHING) && Readable(NOTHING, request)
  {
  }

  // The file can be read at every moment of a history exactly when every kill falls between two
  // characters.
  lemma AlwaysReadableExactlyWhen(h: seq<Session>, request: Reader)
    requires RaisesOnBrokenText(request)
    ensures AlwaysReadable(h, request) <==> CutsBetween(h, request)
  {
    hide Possible, Readable, LinesOpen, RaisesOnBrokenText, Whole;
    if CutsBetween(h, request) {
      forall n | 0 <= n <= |h|
        ensures Readable(Replay(h[..n], request), request)
      {
        ReadableWhileCutsBetween(h, request, n);
      }
    }
    if AlwaysReadable(h, request) {
      forall i | 0 <= i < |h| && Possible(Replay(h[..i], request), h[i], request)
        ensures Whole(Written(h[i]))
      {
        ReadableWhileCutsBetween(h, request, i);
        LastSession(h, i, request);
        SessionIsReadableExactlyWhen(Replay(h[..i], request), h[i], request);
        assert Readable(Replay(h[..i + 1], request), request);
      }
    }
  }

  // A file that cannot be read is never written to again: every later invocation with skip-completed
  // raises before it sends anything.
  lemma {:induction false} UnreadableStays(h: seq<Session>, k: nat, request: Reader)
    requires k <= |h| && !Readable(Replay(h[..k], request), request)
    requires forall i | k <= i < |h| :: h[i].args.skipCompleted
    ensures Replay(h, request) == Replay(h[..k], request)
  {
    if k == |h| {
      assert h[..k] == h;
    } else {
      var init, s := h[..|h| - 1], h[|h| - 1];
      assert init[..k] == h[..k];
      UnreadableStays(init, k, request);
      var log := Replay(init, request);
      if Possible(log, s, request) {
        assert |multiset(IdsOf(s.results))| == |IdsOf(s.results)|;
        assert s.results == [];
      }
    }
  }

  // When every invocation skips what is completed, one bad cut is enough: the file can be read in the
  // end exactly when every kill fell between two characters.
  lemma {:induction false} ReadableInTheEndExactlyWhen(h: seq<Session>, request: Reader)
    requires RaisesOnBrokenText(request) && forall s | s in h :: s.args.skipCompleted
    ensures Readable(Replay(h, request), request) <==> CutsBetween(h, request)
  {
    hide Possible, Readable, RaisesOnBrokenText, CutsBetween;
    AlwaysReadableExactlyWhen(h, request);
    assert h[..|h|] == h;
    if i: nat :| i <= |h| && !Readable(Replay(h[..i], request), request) {
      UnreadableStays(h, i, request);
    }
  }

  // ----- a cut inside a character -----

  lemma OnlyPromptIsIssued(id: string, request: Reader)
    ensures Issued(NOTHING, Arguments(true, [id], None), request) == [id]
  {
    assert Readable(NOTHING, request) && CompletedIds(NOTHING, request) == {};
    assert [id][..|[id]| - 1] == [] && Remaining([], {}) == [] && [id][|[id]| - 1] == id;
    assert Remaining([id], {}) == [] + [id];
  }

  lemma FirstRecordCut(r: Record, k: nat, request: Reader)
    requires GoodRecord(r, request) && 0 < k < |r.text|
    ensures var s := Session(Arguments(true, [r.id], None), [r], k);
            Possible(NOTHING, s, request) && AfterSession(NOTHING, s) == Log([], r.text[..k])
  {
    hide RecordText, Issued;
    OnlyPromptIsIssued(r.id, request);
    assert IdsOf([r]) == [r.id];
    assert [r][1..] == [] && Stream([r])[..k] == r.text[..k];
    AppendPart(NOTHING, r.text[..k]);
    assert "" + r.text[..k] == r.text[..k];
  }

  // A crash that cuts the first record inside a character leaves a file to which no resumption adds
  // anything.
  lemma {:induction false} CutInsideCharacterBlocks(r: Record, k: nat, h: seq<Session>, request: Reader)
    requires GoodRecord(r, request) && RaisesOnBrokenText(request) && k <= |r.text| && !Whole(r.text[..k])
    requires forall s | s in h :: s.args.skipCompleted
    ensures Replay([Session(Arguments(true, [r.id], None), [r], k)] + h, request) == Log([], r.text[..k])
  {
    var s := Session(Arguments(true, [r.id], None), [r], k);
    RecordIsWhole(r, request);
    assert r.text[..|r.text|] == r.text && r.text[..0] == "";
    FirstRecordCut(r, k, request);
    assert r.text[0] == r.text[..3][0] && r.text[..k][0] == '{';
    assert request(r.text[..k]).Raises?;
    hide GoodRecord, Possible, AfterSession;
    assert [s][..0] == [] && ([s] + h)[..1] == [s];
    assert Replay([s], request) == Log([], r.text[..k]);
    assert AllLines(Replay([s], request))[0] == r.text[..k];
    UnreadableStays([s] + h, 1, request);
  }

  // A record can be cut so exactly when it is not pure ASCII.
  lemma RecordCanBlockExactlyWhen(r: Record, request: Reader)
    requires GoodRecord(r, request) && RaisesOnBrokenText(request)
    ensures (exists k: nat :: k <= |r.text| &&
               !Readable(Replay([Session(Arguments(true, [r.id], None), [r], k)], request), request))
            <==> (exists i | 0 <= i < |r.text| :: !Ascii(r.text[i]))
  {
    SomeCutIsInsideExactlyWhen(r.text);
    forall k: nat | k <= |r.text|
      ensures Readable(Replay([Session(Arguments(true, [r.id], None), [r], k)], request), request)
              <==> Whole(r.text[..k])
    {
      FirstCutIsReadable(r, k, request);
    }
  }

  lemma FirstCutIsReadable(r: Record, k: nat, request: Reader)
    requires GoodRecord(r, request) && RaisesOnBrokenText(request) && k <= |r.text|
    ensures Readable(Replay([Session(Arguments(true, [r.id], None), [r], k)], request), request)
            <==> Whole(r.text[..k])
  {
    var s := Session(Arguments(true, [r.id], None), [r], k);
    OnlyPromptIsIssued(r.id, request);
    assert IdsOf([r]) == [r.id] && Possible(NOTHING, s, request);
    assert [r][1..] == [] && Stream([r]) == r.text + "\n" + "";
    assert Written(s) == r.text[..k];
    hide GoodRecord, Possible, RaisesOnBrokenText, Readable, Whole, LinesOpen;
    assert [s][..0] == [] && [s][..|[s]| - 1] == [];
    NothingIsReadable(request);
    SessionIsReadableExactlyWhen(NOTHING, s, request);
    assert Replay([], request) == NOTHING;
    assert Replay([s], request) == AfterSession(NOTHING, s);
  }

  // ----- one such record -----

  const E_ACUTE := "\U{c3}\U{a9}"

  const OPENING := "{\""

  const NAME := "request_id"

  const COLON := "\":"

  const QUOTE := " \""

  const HEAD := OPENING + NAME + COLON + QUOTE

  // A result whose request_id is one letter of two bytes.
  const EXAMPLE := Record(E_ACUTE, HEAD + E_ACUTE + "\"}")

  // A reader that knows no other object.
  function ExampleRequest(line: string): Parsed {
    if line == EXAMPLE.text then Object(Some(EXAMPLE.id))
    else if line != "" && line[0] == '{' && !Whole(line) then Raises
    else Malformed
  }

  lemma {:induction false} InText(n: nat, text: string)
    requires forall i | 0 <= i < |text| :: text[i] != '"' && text[i] != '\\'
    ensures Read(Text(n), text) == Text(n)
  {
    if text != "" {
      InText(n, text[..|text| - 1]);
    }
  }

  lemma {:induction false} ReadTwo(s: JsonText.Scan, text: string)
    requires |text| == 2
    ensures Read(s, text) == JsonText.Step(JsonText.Step(s, text[0]), text[1])
  {
    ReadOne(s, text);
    ReadNext(s, text, 2);
    assert text[..2] == text;
  }

  lemma HeadIsRead()
    ensures Read(Start, HEAD) == Text(0)
  {
    hide Read;
    ReadTwo(Start, OPENING);
    ReadOn(Start, OPENING, NAME);
    InText(0, NAME);
    ReadOn(Start, OPENING + NAME, COLON);
    ReadTwo(Text(0), COLON);
    ReadOn(Start, OPENING + NAME + COLON, QUOTE);
    ReadTwo(Open(0), QUOTE);
  }

  lemma ExampleIsRecord()
    ensures RecordText(EXAMPLE.text) && NoNewline(EXAMPLE.text)
  {
    hide Read;
    HeadIsRead();
    ReadOn(Start, HEAD, E_ACUTE);
    InText(0, E_ACUTE);
    ReadOn(Start, HEAD + E_ACUTE, "\"}");
    ReadTwo(Text(0), "\"}");
    assert EXAMPLE.text[..3] == "{\"r";
  }

  lemma HalfLetter()
    ensures !Whole("\U{c3}") && Whole(E_ACUTE)
  {
    assert "\U{c3}"[..0] == "" && E_ACUTE[..1] == "\U{c3}";
    assert Decode(Between, "\U{c3}") == Inside(1, 0x80, 0xBF);
  }

  lemma ExampleIsWhole()
    ensures Whole(EXAMPLE.text) && !Whole(HEAD + "\U{c3}")
    ensures EXAMPLE.text[..|HEAD| + 1] == HEAD + "\U{c3}"
  {
    hide Whole;
    HalfLetter();
    AsciiIsWhole(HEAD);
    AsciiIsWhole("\"}");
    WholeThen(HEAD, "\U{c3}");
    WholeThen(HEAD, E_ACUTE);
    WholeThen(HEAD + E_ACUTE, "\"}");
  }

  // The reader meets all that is assumed of one.
  lemma ExampleReads()
    ensures ReadsObjects(ExampleRequest) && RaisesOnBrokenText(ExampleRequest) && GoodRecord(EXAMPLE, ExampleRequest)
  {
    ExampleIsRecord();
    ExampleIsWhole();
    hide Whole, NoNewline;
  }

  // With that record and that reader a kill between the two bytes of the letter blocks the file for
  // good.
  lemma ExampleBlocks(h: seq<Session>)
    requires forall s | s in h :: s.args.skipCompleted
    ensures var killed := Session(Arguments(true, [EXAMPLE.id], None), [EXAMPLE], |HEAD| + 1);
            && Possible(NOTHING, killed, ExampleRequest)
            && Replay([killed] + h, ExampleRequest) == Log([], HEAD + "\U{c3}")
            && !Readable(Replay([killed] + h, ExampleRequest), ExampleRequest)
  {
    ExampleReads();
    ExampleIsWhole();
    hide Whole, RecordText, Possible, ReadsObjects, RaisesOnBrokenText, GoodRecord, AfterSession, Replay;
    FirstRecordCut(EXAMPLE, |HEAD| + 1, ExampleRequest);
    CutInsideCharacterBlocks(EXAMPLE, |HEAD| + 1, h, ExampleRequest);
    HalfIsUnreadable();
  }

  lemma HalfIsUnreadable()
    ensures !Readable(Log([], HEAD + "\U{c3}"), ExampleRequest)
  {
    ExampleIsWhole();
    assert AllLines(Log([], HEAD + "\U{c3}"))[0] == HEAD + "\U{c3}";
  }
}
