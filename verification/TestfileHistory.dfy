// Everything that can happen to a target, one operation after another.
module TestfileHistory {
  import opened Wrappers
  import opened Arithmetic
  import opened Testfile

  // Measure: a job rewrites inside the file, and may leave more of it written.
  // Cleanup: what rm removes; true, true when it does all it should.
  datatype Op =
    | Prepare(bytes: nat, answer: Answer)
    | Measure(written: nat)
    | Cleanup(fileGone: bool, markerGone: bool)

  // p: the size of the last prefill written in full since the file was last removed.
  datatype State = State(disk: Disk, p: nat)

  predicate Possible(s: State, op: Op) {
    match op
    case Prepare(bytes, answer) => PossibleAnswer(s.disk, bytes, answer)
    case Measure(written) => s.disk.file.Some? && s.disk.file.value.written <= written <= s.disk.file.value.size
    case _ => true
  }

  predicate Prefilled(s: State, op: Op) {
    && op.Prepare? && !op.answer.write.Broken?
    && !Refuses(s.disk, op.bytes, op.answer) && !Reuses(s.disk, op.bytes, op.answer)
  }

  predicate Returns(s: State, op: Op) {
    op.Prepare? && PrepareVerdict(s.disk, op.bytes, op.answer) == Ready
  }

  function Step(s: State, op: Op): State
    requires Possible(s, op)
  {
    match op
    case Prepare(bytes, answer) => State(PrepareDisk(s.disk, bytes, answer), if Prefilled(s, op) then bytes else s.p)
    case Measure(written) => s.(disk := s.disk.(file := Some(s.disk.file.value.(written := written))))
    case Cleanup(fileGone, markerGone) => State(CleanedUp(s.disk, fileGone, markerGone), if fileGone then 0 else s.p)
  }

  function Total(d: Disk): nat {
    d.free + SizeOf(d.file)
  }

  // An answer that cannot occur is not an event.
  function Run(s: State, ops: seq<Op>): State {
    if ops == [] then s
    else
      var before := Run(s, ops[..|ops| - 1]);
      if Possible(before, ops[|ops| - 1]) then Step(before, ops[|ops| - 1]) else before
  }

  lemma {:induction false} RunThen(s: State, ops: seq<Op>, op: Op)
    requires Possible(Run(s, ops), op)
    ensures Run(s, ops + [op]) == Step(Run(s, ops), op)
  {
    assert (ops + [op])[..|ops|] == ops;
  }

  function Empty(free: nat): State {
    State(Disk(None, false, free), 0)
  }

  // The marker is never there without a file whose first p bytes are written.
  predicate MarkerHonest(s: State) {
    WellFormed(s.disk) && (s.disk.marker ==> s.disk.file.Some? && s.p <= s.disk.file.value.written)
  }

  // rm removes the file of a marked target and leaves the marker.
  predicate Tears(s: State, op: Op) {
    op.Cleanup? && op.fileGone && !op.markerGone && s.disk.marker
  }

  // Only such a cleanup makes an honest marker lie.
  lemma StepStaysHonestExactlyWhen(s: State, op: Op)
    requires MarkerHonest(s) && Possible(s, op)
    ensures MarkerHonest(Step(s, op)) <==> !Tears(s, op)
  {
  }

  // No cleanup of the history leaves a marker without its file.
  ghost predicate NothingTorn(s: State, ops: seq<Op>) {
    forall k | 0 <= k < |ops| :: !Tears(Run(s, ops[..k]), ops[k])
  }

  lemma NothingTornBefore(s: State, ops: seq<Op>, n: nat)
    requires NothingTorn(s, ops) && n <= |ops|
    ensures NothingTorn(s, ops[..n])
  {
    forall k | 0 <= k < n
      ensures !Tears(Run(s, ops[..n][..k]), ops[..n][k])
    {
      assert ops[..n][..k] == ops[..k];
    }
  }

  lemma {:induction false} MarkerStaysHonest(s: State, ops: seq<Op>)
    requires MarkerHonest(s) && NothingTorn(s, ops)
    ensures MarkerHonest(Run(s, ops))
  {
    hide MarkerHonest, Tears, Step;
    if ops != [] {
      NothingTornBefore(s, ops, |ops| - 1);
      MarkerStaysHonest(s, ops[..|ops| - 1]);
      var before, op := Run(s, ops[..|ops| - 1]), ops[|ops| - 1];
      assert !Tears(before, op);
      if Possible(before, op) {
        StepStaysHonestExactlyWhen(before, op);
      }
    }
  }

  // The marker is honest at every moment of a history exactly when no cleanup of a marked target
  // removes the file and leaves the marker.
  lemma {:induction false} MarkerIsHonestExactlyWhen(s: State, ops: seq<Op>)
    requires MarkerHonest(s)
    ensures (forall k | 0 <= k <= |ops| :: MarkerHonest(Run(s, ops[..k]))) <==> NothingTorn(s, ops)
  {
    hide MarkerHonest, Tears, Step;
    if NothingTorn(s, ops) {
      forall k | 0 <= k <= |ops|
        ensures MarkerHonest(Run(s, ops[..k]))
      {
        NothingTornBefore(s, ops, k);
        MarkerStaysHonest(s, ops[..k]);
      }
    }
    if forall k | 0 <= k <= |ops| :: MarkerHonest(Run(s, ops[..k])) {
      forall k | 0 <= k < |ops|
        ensures !Tears(Run(s, ops[..k]), ops[k])
      {
        NotTornAt(s, ops, k);
      }
    }
  }

  lemma {:induction false} NotTornAt(s: State, ops: seq<Op>, k: nat)
    requires k < |ops| && MarkerHonest(Run(s, ops[..k])) && MarkerHonest(Run(s, ops[..k + 1]))
    ensures !Tears(Run(s, ops[..k]), ops[k])
  {
    if Possible(Run(s, ops[..k]), ops[k]) {
      assert ops[..k + 1] == ops[..k] + [ops[k]];
      RunThen(s, ops[..k], ops[k]);
      StepStaysHonestExactlyWhen(Run(s, ops[..k]), ops[k]);
    }
  }

  // After any history, a prepare that returns leaves all of [0, bytes) written when it prefilled,
  // or when it asks for no more than the last successful prefill wrote.
  lemma {:induction false} ReadyMeansWritten(free: nat, ops: seq<Op>, op: Op)
    requires NothingTorn(Empty(free), ops)
    requires var s := Run(Empty(free), ops); Possible(s, op) && Returns(s, op) && (Prefilled(s, op) || op.bytes <= s.p)
    ensures WrittenOf(Step(Run(Empty(free), ops), op).disk.file) >= op.bytes
  {
    MarkerStaysHonest(Empty(free), ops);
  }

  ghost predicate NoPrepareBelow(ops: seq<Op>, bytes: nat) {
    forall op | op in ops && op.Prepare? :: op.bytes >= bytes
  }

  // An honest marker, and a last prefill of at least the given size behind it.
  predicate MarkerCovers(s: State, bytes: nat) {
    MarkerHonest(s) && (s.disk.marker ==> s.p >= bytes)
  }

  lemma StepStillCovers(s: State, op: Op, bytes: nat)
    requires MarkerCovers(s, bytes) && Possible(s, op) && !Tears(s, op) && (op.Prepare? ==> op.bytes >= bytes)
    ensures MarkerCovers(Step(s, op), bytes)
  {
    StepStaysHonestExactlyWhen(s, op);
  }

  lemma {:induction false} MarkerCoversSmallestRequest(free: nat, ops: seq<Op>, bytes: nat)
    requires NothingTorn(Empty(free), ops) && NoPrepareBelow(ops, bytes)
    ensures MarkerCovers(Run(Empty(free), ops), bytes)
  {
    hide Tears, Step;
    if ops != [] {
      var init, op := ops[..|ops| - 1], ops[|ops| - 1];
      NothingTornBefore(Empty(free), ops, |ops| - 1);
      MarkerCoversSmallestRequest(free, init, bytes);
      hide MarkerCovers;
      assert op in ops && !Tears(Run(Empty(free), init), op);
      if Possible(Run(Empty(free), init), op) {
        StepStillCovers(Run(Empty(free), init), op, bytes);
      }
    }
  }

  // As long as sizes never increase, every prepare that returns leaves all it promises written.
  lemma {:induction false} NonIncreasingSizesAreWritten(free: nat, ops: seq<Op>, op: Op)
    requires NothingTorn(Empty(free), ops) && op.Prepare? && NoPrepareBelow(ops, op.bytes)
    requires Possible(Run(Empty(free), ops), op) && Returns(Run(Empty(free), ops), op)
    ensures WrittenOf(Step(Run(Empty(free), ops), op).disk.file) >= op.bytes
  {
    MarkerCoversSmallestRequest(free, ops, op.bytes);
  }

  ghost predicate Reachable(s: State) {
    exists free: nat, ops :: NothingTorn(Empty(free), ops) && s == Run(Empty(free), ops)
  }

  // A file left long but unwritten by a failed prefill, then marked after a shorter one.
  lemma MarkedAfterShorterPrefill(p: nat, bytes: nat)
    requires p < bytes
    ensures Reachable(State(Disk(Some(File(bytes, p)), true, 0), p))
  {
    var long := Prepare(bytes, Answer(true, true, Broken(Some(File(bytes, 0)))));
    var short := Prepare(p, Answer(true, true, Done));
    RunThen(Empty(bytes), [], long);
    assert [] + [long] == [long];
    assert bytes / GIB >= p / GIB;
    RunThen(Empty(bytes), [long], short);
    assert NothingTorn(Empty(bytes), [long] + [short]);
  }

  // The marker does not say how much was written: after a prefill of p bytes, reusing the file for
  // `bytes` is safe in every reachable state exactly when bytes <= p.
  lemma ReuseIsWrittenExactlyWhen(p: nat, bytes: nat)
    ensures (forall s, answer :: Reachable(s) && s.p == p && Reuses(s.disk, bytes, answer)
                                 ==> WrittenOf(s.disk.file) >= bytes)
            <==> bytes <= p
  {
    if bytes <= p {
      forall s, answer | Reachable(s) && s.p == p && Reuses(s.disk, bytes, answer)
        ensures WrittenOf(s.disk.file) >= bytes
      {
        var free: nat, ops :| NothingTorn(Empty(free), ops) && s == Run(Empty(free), ops);
        MarkerStaysHonest(Empty(free), ops);
      }
    } else {
      MarkedAfterShorterPrefill(p, bytes);
      var s := State(Disk(Some(File(bytes, p)), true, 0), p);
      assert Reuses(s.disk, bytes, Answer(true, true, Done));
    }
  }

  // rm is not atomic. When it removes the file and not the marker, a broken prefill may follow, and
  // then the next prepare of the same size returns; it leaves bytes unwritten exactly when the target
  // was marked, and then it leaves all of them unwritten.
  lemma TornCleanupHarmsExactlyWhen(s: State, bytes: nat)
    requires MarkerHonest(s) && 0 < bytes <= Total(s.disk)
    ensures var torn := Step(s, Cleanup(true, false));
            var broken := Prepare(bytes, Answer(true, true, Broken(Some(File(bytes, 0)))));
            var next := Prepare(bytes, Answer(true, true, Done));
            && Possible(torn, broken) && PrepareVerdict(torn.disk, bytes, broken.answer) != Refused
            && (torn.disk.marker <==> s.disk.marker)
            && Possible(Step(torn, broken), next) && Returns(Step(torn, broken), next)
            && var written := WrittenOf(Step(Step(torn, broken), next).disk.file);
               (written < bytes <==> s.disk.marker) && (written < bytes <==> written == 0)
  {
    var torn := Step(s, Cleanup(true, false));
    var broken := Prepare(bytes, Answer(true, true, Broken(Some(File(bytes, 0)))));
    assert torn.disk == Disk(None, s.disk.marker, Total(s.disk));
    assert Step(torn, broken).disk == Disk(Some(File(bytes, 0)), s.disk.marker, Total(s.disk) - bytes);
  }

  // ----- a prefill that fails -----

  // Nothing removes the file, and every size probe comes back.
  ghost predicate Undisturbed(ops: seq<Op>) {
    forall op | op in ops :: (op.Cleanup? ==> !op.fileGone) && (op.Prepare? ==> op.answer.sizeProbe)
  }

  lemma WithinGib(a: nat, b: nat, c: nat)
    requires a <= c <= Max(a, b) && b / GIB <= a / GIB
    ensures c / GIB == a / GIB
  {
  }

  // Left undisturbed, a file never changes its size in whole GiB.
  lemma {:induction false} SizeStaysInGib(s: State, ops: seq<Op>)
    requires s.disk.file.Some? && Undisturbed(ops)
    ensures var file := Run(s, ops).disk.file; file.Some? && file.value.size / GIB == s.disk.file.value.size / GIB
  {
    if ops != [] {
      SizeStaysInGib(s, ops[..|ops| - 1]);
      var before, op := Run(s, ops[..|ops| - 1]), ops[|ops| - 1];
      assert op in ops;
      if op.Prepare? && Possible(before, op) && !Refuses(before.disk, op.bytes, op.answer) {
        var after := Step(before, op);
        WithinGib(SizeOf(before.disk.file), op.bytes, SizeOf(after.disk.file));
      }
    }
  }

  ghost predicate NeverServed(s: State, bytes: nat) {
    forall ops, answer: Answer | Undisturbed(ops) && answer.sizeProbe ::
      PrepareVerdict(Run(s, ops).disk, bytes, answer) == Refused
  }

  // A failed prefill is not always retried. Every later prepare of the same size refuses, until the
  // file is removed, exactly when the part left behind has fewer whole GiB than the request;
  // otherwise the very next one does not refuse, and without a marker it returns only after a prefill
  // that succeeds.
  lemma BrokenPrefillRefusedExactlyWhen(s: State, bytes: nat, answer: Answer, next: Answer)
    requires Possible(s, Prepare(bytes, answer)) && PrepareVerdict(s.disk, bytes, answer) == PrefillFailed
    requires next.sizeProbe
    ensures var after := Step(s, Prepare(bytes, answer));
            var short := after.disk.file.Some? && after.disk.file.value.size / GIB < bytes / GIB;
            && (NeverServed(after, bytes) <==> short)
            && (!short ==> PrepareVerdict(after.disk, bytes, next) != Refused)
            && (!after.disk.marker && PrepareVerdict(after.disk, bytes, next) == Ready ==> next.write.Done?)
  {
    var after := Step(s, Prepare(bytes, answer));
    NeverServedExactlyWhen(after, bytes);
  }

  // From an empty target a prefill can fail so that no later one is served exactly when the request
  // is of a GiB or more.
  lemma PrefillCanStrandExactlyWhen(free: nat, bytes: nat)
    ensures (exists answer :: && Possible(Empty(free), Prepare(bytes, answer))
                              && PrepareVerdict(Empty(free).disk, bytes, answer) == PrefillFailed
                              && NeverServed(Step(Empty(free), Prepare(bytes, answer)), bytes))
            <==> bytes >= GIB
  {
    var s, next := Empty(free), Answer(true, true, Done);
    var empty := Answer(true, true, Broken(Some(File(0, 0))));
    BrokenPrefillRefusedExactlyWhen(s, bytes, empty, next);
    if answer :| Possible(s, Prepare(bytes, answer)) && PrepareVerdict(s.disk, bytes, answer) == PrefillFailed
                 && NeverServed(Step(s, Prepare(bytes, answer)), bytes) {
      BrokenPrefillRefusedExactlyWhen(s, bytes, answer, next);
    }
  }

  // ----- a cleanup that works -----

  // Whatever happened before, it leaves the target empty, and all space free again.
  lemma {:induction false} CleanupEmpties(s: State, ops: seq<Op>)
    ensures Run(s, ops + [Cleanup(true, true)]) == Empty(Total(s.disk))
  {
    TotalStays(s, ops);
    RunThen(s, ops, Cleanup(true, true));
  }

  lemma {:induction false} TotalStays(s: State, ops: seq<Op>)
    ensures Total(Run(s, ops).disk) == Total(s.disk)
  {
    if ops != [] {
      TotalStays(s, ops[..|ops| - 1]);
    }
  }

  // Left undisturbed, a target refuses a size for ever exactly when its file has fewer whole GiB.
  lemma NeverServedExactlyWhen(s: State, bytes: nat)
    ensures NeverServed(s, bytes) <==> s.disk.file.Some? && s.disk.file.value.size / GIB < bytes / GIB
  {
    if s.disk.file.Some? && s.disk.file.value.size / GIB < bytes / GIB {
      forall ops, later: Answer | Undisturbed(ops) && later.sizeProbe
        ensures PrepareVerdict(Run(s, ops).disk, bytes, later) == Refused
      {
        SizeStaysInGib(s, ops);
      }
    } else {
      assert Undisturbed([]) && Run(s, []) == s;
      assert PrepareVerdict(s.disk, bytes, Answer(true, true, Done)) != Refused;
    }
  }

  // What a prepare of the size finds on a stranded target after a cleanup, whatever rm achieves: it
  // stays refused for ever exactly when the file is not removed. When it is, the space is free again,
  // and every size up to all of it can be written in full and is then served.
  lemma CleanupServesAgainExactlyWhen(s: State, bytes: nat, fileGone: bool, markerGone: bool, size: nat)
    requires NeverServed(s, bytes) && size <= Total(s.disk)
    ensures var cleaned := Step(s, Cleanup(fileGone, markerGone));
            var next := Prepare(size, Answer(true, true, Done));
            && (NeverServed(cleaned, bytes) <==> !fileGone)
            && (fileGone ==> Possible(cleaned, next) && Returns(cleaned, next)
                             && WrittenOf(Step(cleaned, next).disk.file) == size)
            && (!fileGone ==> cleaned.disk.file == s.disk.file && cleaned.disk.free == s.disk.free)
            && (cleaned.disk.marker <==> s.disk.marker && !markerGone)
  {
    NeverServedExactlyWhen(s, bytes);
    NeverServedExactlyWhen(Step(s, Cleanup(fileGone, markerGone)), bytes);
  }

  // A prefill reported as failed is served without another one, if asked for again, exactly when it had
  // written everything: then the marker is there, and all bytes behind it.
  lemma ReportedFailureIsReusedExactlyWhen(s: State, bytes: nat, answer: Answer, next: Answer)
    requires Possible(s, Prepare(bytes, answer)) && PrepareVerdict(s.disk, bytes, answer) == PrefillFailed
    requires !s.disk.marker && next.sizeProbe && next.markerProbe && next.write.Broken?
    ensures var after := Step(s, Prepare(bytes, answer));
            && (Returns(after, Prepare(bytes, next)) <==> answer.write.Unreported?)
            && (answer.write.Unreported? ==> after.disk.marker && WrittenOf(after.disk.file) >= bytes)
  {
    var after := Step(s, Prepare(bytes, answer));
    if answer.write.Unreported? {
      assert after.disk.file.value.size / GIB >= bytes / GIB by {
        NoLessInGib(bytes, after.disk.file.value.size);
      }
    }
  }

  lemma NoLessInGib(a: nat, b: nat)
    requires a <= b
    ensures a / GIB <= b / GIB
  {
  }

  // ----- capacity -----

  datatype Finding =
    | CannotCreatePath
    | DfFailed
    | FileTooSmall(existing: nat)
    | TooLittleFree(needed: int)
    | Pass(reuse: bool)

  // preflight_target: mkdir, df and stat as answered, sizes in whole GiB.
  function Preflight(d: Disk, required: nat, margin: int, mkdirOk: bool, dfOk: bool, sizeProbe: bool): Finding {
    if !mkdirOk then CannotCreatePath
    else if !dfOk then DfFailed
    else
      var existing := ExistingGib(d.file, sizeProbe);
      if existing.Some? && existing.value < required then FileTooSmall(existing.value)
      else
        var needed := (if existing.Some? then 0 else required) + margin;
        if d.free / GIB < needed then TooLittleFree(needed) else Pass(existing.Some?)
  }

  // What preflight foresees of a prepare: it reports a file as too short exactly when the prepare
  // would refuse, and passes exactly when it would not and, after the prefill of a target without a
  // file that it can see, the margin would still be free in whole GiB.
  lemma PreflightForesees(d: Disk, bytes: nat, margin: int, mkdirOk: bool, dfOk: bool, answer: Answer)
    ensures var finding := Preflight(d, bytes / GIB, margin, mkdirOk, dfOk, answer.sizeProbe);
            var refused := PrepareVerdict(d, bytes, answer) == Refused;
            var seen := d.file.Some? && answer.sizeProbe;
            && (finding.CannotCreatePath? <==> !mkdirOk)
            && (finding.DfFailed? <==> mkdirOk && !dfOk)
            && (finding.FileTooSmall? <==> mkdirOk && dfOk && refused)
            && (finding.FileTooSmall? ==> seen && finding.existing == d.file.value.size / GIB < bytes / GIB)
            && (finding.Pass? <==> mkdirOk && dfOk && !refused
                                   && d.free / GIB - (if seen then 0 else bytes / GIB) >= margin)
            && (finding.Pass? ==> (finding.reuse <==> seen))
            && (finding.TooLittleFree? ==> finding.needed == margin + if seen then 0 else bytes / GIB)
  {
  }

  ghost predicate SizesUpTo(ops: seq<Op>, required: nat) {
    forall op | op in ops && op.Prepare? :: op.bytes / GIB <= required
  }

  ghost predicate WholeGib(ops: seq<Op>) {
    forall op | op in ops && op.Prepare? :: op.bytes % GIB == 0
  }

  lemma {:induction false} FileNeverOutgrowsRequests(s: State, ops: seq<Op>, bound: nat)
    requires forall op | op in ops && op.Prepare? :: op.bytes <= bound
    ensures Total(Run(s, ops).disk) == Total(s.disk)
    ensures SizeOf(Run(s, ops).disk.file) <= Max(SizeOf(s.disk.file), bound)
  {
    if ops != [] {
      FileNeverOutgrowsRequests(s, ops[..|ops| - 1], bound);
    }
  }

  // A passed preflight keeps the safety margin free at every later moment: in full when all sizes
  // are whole GiB, up to less than one GiB otherwise.
  lemma {:induction false} FreeStaysAboveMargin(s: State, ops: seq<Op>, required: nat, margin: int, sizeProbe: bool)
    requires Preflight(s.disk, required, margin, true, true, sizeProbe).Pass? && SizesUpTo(ops, required)
    ensures Run(s, ops).disk.free > (margin - 1) * GIB
    ensures WholeGib(ops) ==> Run(s, ops).disk.free >= margin * GIB
  {
    forall op | op in ops && op.Prepare?
      ensures op.bytes <= (required + 1) * GIB - 1 && (op.bytes % GIB == 0 ==> op.bytes <= required * GIB)
    {
      assert op.bytes == op.bytes / GIB * GIB + op.bytes % GIB;
    }
    assert s.disk.free >= s.disk.free / GIB * GIB;
    FileNeverOutgrowsRequests(s, ops, (required + 1) * GIB - 1);
    if WholeGib(ops) {
      FileNeverOutgrowsRequests(s, ops, required * GIB);
    }
  }

  ghost predicate PrefillsSucceed(ops: seq<Op>) {
    forall op | op in ops && op.Prepare? :: !op.answer.write.Broken?
  }

  lemma {:induction false} FileCoversSmallestRequest(s: State, ops: seq<Op>, bytes: nat)
    requires NoPrepareBelow(ops, bytes) && PrefillsSucceed(ops)
    requires s.disk.file.Some? ==> s.disk.file.value.size / GIB >= bytes / GIB
    ensures var file := Run(s, ops).disk.file; file.Some? ==> file.value.size / GIB >= bytes / GIB
  {
    if ops != [] {
      FileCoversSmallestRequest(s, ops[..|ops| - 1], bytes);
    }
  }

  // After a passed preflight that saw the file, while sizes never increase and prefills succeed, no
  // prepare refuses, and for a positive margin, or none and whole GiB, the prefill it may need fits.
  lemma {:induction false} PreparesAreServed(s: State, ops: seq<Op>, op: Op, required: nat, margin: int)
    requires Preflight(s.disk, required, margin, true, true, true).Pass?
    requires op.Prepare? && op.answer.write.Done? && SizesUpTo(ops + [op], required)
    requires NoPrepareBelow(ops, op.bytes) && PrefillsSucceed(ops)
    ensures !Refuses(Run(s, ops).disk, op.bytes, op.answer)
    ensures margin > 0 || (margin == 0 && op.bytes % GIB == 0) ==>
              Possible(Run(s, ops), op) && Returns(Run(s, ops), op)
  {
    assert op in ops + [op];
    FileCoversSmallestRequest(s, ops, op.bytes);
    forall o | o in ops && o.Prepare?
      ensures o.bytes <= (required + 1) * GIB - 1
    {
      assert o in ops + [op];
      assert o.bytes == o.bytes / GIB * GIB + o.bytes % GIB;
    }
    FileNeverOutgrowsRequests(s, ops, (required + 1) * GIB - 1);
    assert op.bytes == op.bytes / GIB * GIB + op.bytes % GIB;
    assert s.disk.free >= s.disk.free / GIB * GIB;
    assert SizeOf(s.disk.file) >= SizeOf(s.disk.file) / GIB * GIB;
  }

  // A file that prepare does not refuse lacks less than one GiB of the request, and nothing of a
  // request in whole GiB.
  lemma NotRefusedIsLongEnough(d: Disk, bytes: nat, answer: Answer)
    requires d.file.Some? && answer.sizeProbe && !Refuses(d, bytes, answer)
    ensures bytes < d.file.value.size + GIB
    ensures bytes % GIB == 0 ==> bytes <= d.file.value.size
  {
    assert bytes == bytes / GIB * GIB + bytes % GIB;
    assert d.file.value.size == d.file.value.size / GIB * GIB + d.file.value.size % GIB;
  }
}
