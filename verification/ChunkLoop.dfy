// The overnight chunk loop: flagged chunks, the bail-out counter, and what a completed run added.
module ChunkLoop {
  import opened Arithmetic
  import opened Sequences
  import opened GenerationLog
  import opened GenerationHistory

  const MIN_FREE_PCT := 10
  const MAX_CONSECUTIVE_FAILS := 2

  // One chunk as the loop sees it: free percentage before it (negative: df failed), whether run_chunk
  // succeeded, and the newline counts of each node's file before and after.
  datatype Chunk = Chunk(free: int, ok: bool, before: seq<nat>, after: seq<nat>)

  datatype Ending = Complete | BailOut(chunk: nat) | Abort(chunk: nat)

  predicate FreeTooLow(free: int) {
    0 <= free < MIN_FREE_PCT
  }

  predicate Flagged(chunk: Chunk, size: nat)
    requires |chunk.before| == |chunk.after|
  {
    !chunk.ok || exists n | 0 <= n < |chunk.after| :: chunk.after[n] - chunk.before[n] < size / 2
  }

  // Number of chunks in range(n_chunks).
  function ChunkCount(total: int, size: nat): nat
    requires size > 0
  {
    var n := (total + size - 1) / size;
    if n < 0 then 0 else n
  }

  lemma ChunkCountCovers(total: int, size: nat)
    requires size > 0 && total > 0
    ensures (ChunkCount(total, size) - 1) * size < total <= ChunkCount(total, size) * size
  {
    var n := (total + size - 1) / size;
    var rest := (total + size - 1) % size;
    assert total + size - 1 == size * n + rest;
    assert (n - 1) * size == size * n - size;
    assert n * size == size * n;
  }

  // chunks[k] is what chunk k would show.
  ghost predicate SameNodes(chunks: nat -> Chunk, nodes: nat) {
    forall k: nat :: |chunks(k).before| == nodes && |chunks(k).after| == nodes
  }

  // How many of the chunks just before chunk k were flagged without a break.
  ghost function FlaggedRun(chunks: nat -> Chunk, size: nat, nodes: nat, k: nat): nat
    requires SameNodes(chunks, nodes)
  {
    if k == 0 || !Flagged(chunks(k - 1), size) then 0 else 1 + FlaggedRun(chunks, size, nodes, k - 1)
  }

  // Chunk j is started, and is not the second of two flagged ones.
  ghost predicate Passes(chunks: nat -> Chunk, size: nat, nodes: nat, j: nat)
    requires SameNodes(chunks, nodes)
  {
    !FreeTooLow(chunks(j).free) && FlaggedRun(chunks, size, nodes, j + 1) < MAX_CONSECUTIVE_FAILS
  }

  ghost predicate GoesOn(chunks: nat -> Chunk, size: nat, nodes: nat, k: nat)
    requires SameNodes(chunks, nodes)
  {
    forall j: nat | j < k :: Passes(chunks, size, nodes, j)
  }

  lemma TwoFlaggedStop(chunks: nat -> Chunk, size: nat, nodes: nat, k: nat)
    requires SameNodes(chunks, nodes) && k > 0 && Flagged(chunks(k - 1), size) && Flagged(chunks(k), size)
    ensures !Passes(chunks, size, nodes, k)
  {
    assert FlaggedRun(chunks, size, nodes, k) >= 1;
    assert FlaggedRun(chunks, size, nodes, k + 1) >= 2;
  }

  // Less than ten percent free; a reading that failed does not count.
  predicate LowReading(free: int) {
    free in {0, 1, 2, 3, 4, 5, 6, 7, 8, 9}
  }

  // A chunk that failed, or after which the file of some node had not grown by half the chunk.
  predicate Weak(chunk: Chunk, size: nat)
    requires |chunk.before| == |chunk.after|
  {
    chunk.ok ==> exists n | 0 <= n < |chunk.before| :: chunk.after[n] < chunk.before[n] + size / 2
  }

  lemma FlaggedIsWeak(chunk: Chunk, size: nat)
    requires |chunk.before| == |chunk.after|
    ensures Flagged(chunk, size) <==> Weak(chunk, size)
    ensures FreeTooLow(chunk.free) <==> LowReading(chunk.free)
  {
    if chunk.ok && Flagged(chunk, size) {
      var n :| 0 <= n < |chunk.after| && chunk.after[n] - chunk.before[n] < size / 2;
      assert chunk.after[n] < chunk.before[n] + size / 2;
    }
    if chunk.ok && Weak(chunk, size) {
      var n :| 0 <= n < |chunk.before| && chunk.after[n] < chunk.before[n] + size / 2;
      assert chunk.after[n] - chunk.before[n] < size / 2;
    }
  }

  // The first k chunks all start, and no two of them in a row are weak.
  ghost predicate NoTwoWeak(chunks: nat -> Chunk, size: nat, nodes: nat, k: nat)
    requires SameNodes(chunks, nodes)
  {
    && (forall j: nat | j < k :: !LowReading(chunks(j).free))
    && (forall i: nat, j: nat | i + 1 == j < k :: !(Weak(chunks(i), size) && Weak(chunks(j), size)))
  }

  lemma OneMoreChunk(chunks: nat -> Chunk, size: nat, nodes: nat, k: nat)
    requires SameNodes(chunks, nodes)
    ensures NoTwoWeak(chunks, size, nodes, k + 1) <==>
            && NoTwoWeak(chunks, size, nodes, k) && !LowReading(chunks(k).free)
            && !(k > 0 && Weak(chunks(k - 1), size) && Weak(chunks(k), size))
  {
    hide LowReading, Weak;
  }

  lemma {:induction false} GoesOnExactlyWhen(chunks: nat -> Chunk, size: nat, nodes: nat, k: nat)
    requires SameNodes(chunks, nodes)
    ensures GoesOn(chunks, size, nodes, k) <==> NoTwoWeak(chunks, size, nodes, k)
    ensures GoesOn(chunks, size, nodes, k) && k > 0 ==>
              FlaggedRun(chunks, size, nodes, k) == if Weak(chunks(k - 1), size) then 1 else 0
  {
    hide LowReading, Weak, Flagged, FreeTooLow;
    if k > 0 {
      GoesOnExactlyWhen(chunks, size, nodes, k - 1);
      FlaggedIsWeak(chunks(k - 1), size);
      var last, run := chunks(k - 1), FlaggedRun(chunks, size, nodes, k);
      assert run == if Flagged(last, size) then 1 + FlaggedRun(chunks, size, nodes, k - 1) else 0;
      assert Passes(chunks, size, nodes, k - 1) <==> !FreeTooLow(last.free) && run < MAX_CONSECUTIVE_FAILS;
      assert GoesOn(chunks, size, nodes, k) <==>
             GoesOn(chunks, size, nodes, k - 1) && Passes(chunks, size, nodes, k - 1);
      OneMoreChunk(chunks, size, nodes, k - 1);
      if k > 1 {
        FlaggedIsWeak(chunks(k - 2), size);
      } else {
        assert FlaggedRun(chunks, size, nodes, 0) == 0;
      }
    }
  }

  lemma NoChunks(total: int, size: nat)
    requires size > 0 && total <= 0
    ensures ChunkCount(total, size) == 0
  {
    var n, rest := (total + size - 1) / size, (total + size - 1) % size;
    assert total + size - 1 == size * n + rest;
    if n > 0 {
      Scaled(1, n, size);
    }
  }

  // The loop over range(n_chunks) ends without a low reading and without bailing out.
  ghost predicate Completes(firstFree: int, chunks: nat -> Chunk, size: nat, nodes: nat, total: int)
    requires size > 0 && SameNodes(chunks, nodes)
  {
    !FreeTooLow(firstFree) && GoesOn(chunks, size, nodes, ChunkCount(total, size))
  }

  method RunChunks(total: int, size: nat, firstFree: int, chunks: nat -> Chunk, ghost nodes: nat)
    returns (ending: Ending)
    requires size > 0 && SameNodes(chunks, nodes)
    ensures ending.Complete? <==> Completes(firstFree, chunks, size, nodes, total)
    ensures var n := ChunkCount(total, size);
            match ending
            case Complete => !LowReading(firstFree) && NoTwoWeak(chunks, size, nodes, n)
            case BailOut(k) =>
              && !LowReading(firstFree) && 0 < k < n && NoTwoWeak(chunks, size, nodes, k)
              && !LowReading(chunks(k).free) && Weak(chunks(k - 1), size) && Weak(chunks(k), size)
            case Abort(k) =>
              if LowReading(firstFree) then k == 0
              else k < n && NoTwoWeak(chunks, size, nodes, k) && LowReading(chunks(k).free)
  {
    if FreeTooLow(firstFree) {
      return Abort(0);
    }
    var n := ChunkCount(total, size);
    var consecutive: nat := 0;
    GoesOnExactlyWhen(chunks, size, nodes, n);
    for k := 0 to n
      invariant consecutive == FlaggedRun(chunks, size, nodes, k) < MAX_CONSECUTIVE_FAILS
      invariant GoesOn(chunks, size, nodes, k)
    {
      GoesOnExactlyWhen(chunks, size, nodes, k);
      FlaggedIsWeak(chunks(k), size);
      if FreeTooLow(chunks(k).free) {
        assert !Passes(chunks, size, nodes, k);
        return Abort(k);
      }
      var flagged := Flagged(chunks(k), size);
      if flagged {
        consecutive := consecutive + 1;
        if consecutive >= MAX_CONSECUTIVE_FAILS {
          assert !Passes(chunks, size, nodes, k);
          return BailOut(k);
        }
      } else {
        consecutive := 0;
      }
    }
    ending := Complete;
  }

  // ----- what a completed run has added -----

  ghost function FlaggedCount(chunks: nat -> Chunk, size: nat, nodes: nat, k: nat): nat
    requires SameNodes(chunks, nodes)
  {
    if k == 0 then 0 else FlaggedCount(chunks, size, nodes, k - 1) + (if Flagged(chunks(k - 1), size) then 1 else 0)
  }

  // At most every other chunk is flagged in a run that goes on.
  lemma {:induction false} AtMostHalfFlagged(chunks: nat -> Chunk, size: nat, nodes: nat, n: nat)
    requires SameNodes(chunks, nodes) && GoesOn(chunks, size, nodes, n)
    ensures FlaggedCount(chunks, size, nodes, n) <= (n + 1) / 2
  {
    if n >= 2 {
      AtMostHalfFlagged(chunks, size, nodes, n - 2);
      if Flagged(chunks(n - 1), size) && Flagged(chunks(n - 2), size) {
        TwoFlaggedStop(chunks, size, nodes, n - 1);
      }
    } else if n == 1 {
      assert FlaggedCount(chunks, size, nodes, 0) == 0;
    }
  }

  // The files only grow.
  ghost predicate Growing(chunks: nat -> Chunk, nodes: nat)
    requires SameNodes(chunks, nodes)
  {
    forall k: nat, i: nat | i < nodes ::
      chunks(k).before[i] <= chunks(k).after[i] <= chunks(k + 1).before[i]
  }

  lemma {:induction false} UnflaggedAdd(chunks: nat -> Chunk, size: nat, nodes: nat, n: nat, i: nat)
    requires SameNodes(chunks, nodes) && Growing(chunks, nodes) && i < nodes
    ensures FlaggedCount(chunks, size, nodes, n) <= n
    ensures chunks(n).before[i] >= chunks(0).before[i] + (n - FlaggedCount(chunks, size, nodes, n)) * (size / 2)
  {
    if n > 0 {
      UnflaggedAdd(chunks, size, nodes, n - 1, i);
      var u := n - 1 - FlaggedCount(chunks, size, nodes, n - 1);
      assert chunks(n - 1).before[i] <= chunks(n - 1).after[i] <= chunks(n - 1 + 1).before[i];
      if !Flagged(chunks(n - 1), size) {
        assert chunks(n - 1).after[i] - chunks(n - 1).before[i] >= size / 2;
        assert (u + 1) * (size / 2) == u * (size / 2) + size / 2;
      }
    }
  }

  // A run that reaches its end after n chunks has grown every node's file by at least
  // floor(n/2) * floor(size/2) lines.
  lemma CompletedRunHasGrown(chunks: nat -> Chunk, size: nat, nodes: nat, n: nat, i: nat)
    requires SameNodes(chunks, nodes) && Growing(chunks, nodes) && i < nodes
    requires GoesOn(chunks, size, nodes, n)
    ensures chunks(n).before[i] >= chunks(0).before[i] + (n / 2) * (size / 2)
  {
    AtMostHalfFlagged(chunks, size, nodes, n);
    UnflaggedAdd(chunks, size, nodes, n, i);
    var u := n - FlaggedCount(chunks, size, nodes, n);
    assert u >= n / 2;
    Scaled(n / 2, u, size / 2);
  }

  lemma Scaled(a: nat, b: nat, c: nat)
    requires a <= b
    ensures a * c <= b * c
  {
  }

  // ----- the uninterrupted run -----

  // chunks shows the line counts of one node whose chunks are never interrupted.
  ghost predicate Shows(chunks: nat -> Chunk, logs: seq<Log>) {
    forall k: nat | k + 1 < |logs| ::
      chunks(k) == Chunk(chunks(k).free, true, [|logs[k].lines|], [|logs[k + 1].lines|]) && !FreeTooLow(chunks(k).free)
  }

  lemma {:induction false} ChunkFlaggedWhen(chunks: nat -> Chunk, logs: seq<Log>, answers: seq<seq<Record>>,
      prompts: seq<string>,
      size: nat, request: Reader, k: nat)
    requires size > 0 && SameNodes(chunks, 1) && Shows(chunks, logs) && k < |answers|
    requires Distinct(prompts) && Uninterrupted(logs, answers, prompts, size, request)
    ensures Flagged(chunks(k), size)
            <==> size / 2 > 0 && |Remaining(prompts, CompletedIds(logs[0], request))| < k * size + size / 2
  {
    hide Remaining, CompletedIds, Distinct;
    RowsAfterChunks(logs, answers, prompts, size, request, k);
    RowsAfterChunks(logs, answers, prompts, size, request, k + 1);
    var left := |Remaining(prompts, CompletedIds(logs[0], request))|;
    var here := k * size;
    assert (k + 1) * size == here + size;
    var delta := |logs[k + 1].lines| - |logs[k].lines|;
    assert delta == Min(here + size, left) - Min(here, left);
    assert chunks(k).before[0] == |logs[k].lines| && chunks(k).after[0] == |logs[k + 1].lines|;
    assert Flagged(chunks(k), size) <==> delta < size / 2;
  }

  lemma LogsOfAnswers(logs: seq<Log>, answers: seq<seq<Record>>, prompts: seq<string>, size: nat, request: Reader)
    requires Uninterrupted(logs, answers, prompts, size, request)
    ensures |logs| == |answers| + 1
  {
  }

  // Uninterrupted chunks get to the end exactly when the last chunk but one still finds half a
  // chunk of prompts to send: otherwise the loop bails out although nothing went wrong.
  lemma {:induction false} UninterruptedCompletesExactlyWhen(chunks: nat -> Chunk, logs: seq<Log>,
      answers: seq<seq<Record>>,
      prompts: seq<string>, size: nat, request: Reader)
    requires size > 0 && SameNodes(chunks, 1) && Shows(chunks, logs)
    requires Distinct(prompts) && Uninterrupted(logs, answers, prompts, size, request)
    ensures var n := |answers|;
            var left := |Remaining(prompts, CompletedIds(logs[0], request))|;
            GoesOn(chunks, size, 1, n) <==> size / 2 == 0 || n <= 1 || left >= (n - 2) * size + size / 2
  {
    hide Remaining, CompletedIds, Distinct, Uninterrupted, GoesOn, FlaggedRun;
    var n := |answers|;
    assert |logs| == n + 1 by { LogsOfAnswers(logs, answers, prompts, size, request); }
    var left := |Remaining(prompts, CompletedIds(logs[0], request))|;
    forall k: nat | k < n
      ensures Flagged(chunks(k), size) <==> size / 2 > 0 && left < k * size + size / 2
    {
      ChunkFlaggedWhen(chunks, logs, answers, prompts, size, request, k);
    }
    assert forall k: nat | k < n :: !FreeTooLow(chunks(k).free);
    FlaggedAreLast(chunks, size, left, n);
  }

  // What RunChunks does then, for n = ceil(total / size): it completes under that condition, and the
  // file has min(|prompts|, L + n * size) rows in the end, L being those of the start.
  lemma UninterruptedRunCompletesExactlyWhen(total: int, firstFree: int, chunks: nat -> Chunk, logs: seq<Log>,
      answers: seq<seq<Record>>, prompts: seq<string>, size: nat, request: Reader)
    requires size > 0 && SameNodes(chunks, 1) && Shows(chunks, logs) && !FreeTooLow(firstFree)
    requires Distinct(prompts) && Uninterrupted(logs, answers, prompts, size, request)
    requires AllRowsComplete(logs[0], prompts, request) && |answers| == ChunkCount(total, size)
    ensures var n, left := ChunkCount(total, size), |prompts| - |logs[0].lines|;
            && (Completes(firstFree, chunks, size, 1, total)
                <==> size / 2 == 0 || n <= 1 || left >= (n - 2) * size + size / 2)
            && |logs[n].lines| == Min(|prompts|, |logs[0].lines| + n * size)
  {
    hide Remaining, CompletedIds, Distinct, Shows, AllRowsComplete, GoesOn;
    RemainingPlusRows(logs[0], prompts, request);
    UninterruptedCompletesExactlyWhen(chunks, logs, answers, prompts, size, request);
    FinalRows(logs, answers, prompts, size, request);
  }

  // What the loop sees when nothing is left to send: n chunks that change nothing.
  function IdleChunk(rows: nat): Chunk {
    Chunk(100, true, [rows], [rows])
  }

  lemma IdleIsFlagged(rows: nat, size: nat)
    requires size >= 2
    ensures Flagged(IdleChunk(rows), size)
  {
    var chunk := IdleChunk(rows);
    assert chunk.after[0] - chunk.before[0] < size / 2;
  }

  // It happens: with all prompts done and two or more chunks of two or more prompts to go, nothing
  // goes wrong and the loop does not complete.
  lemma {:induction false} FinishedFileBailsOut(log: Log, prompts: seq<string>, total: int, size: nat, request: Reader)
    requires size >= 2 && total > size && Distinct(prompts)
    requires log.tail == "" && Readable(log, request) && Remaining(prompts, CompletedIds(log, request)) == []
    ensures var n, chunks := ChunkCount(total, size), (k: nat) => IdleChunk(|log.lines|);
            var logs, answers := seq(n + 1, _ => log), seq(n, _ => []);
            && Uninterrupted(logs, answers, prompts, size, request)
            && SameNodes(chunks, 1) && Shows(chunks, logs) && !Completes(100, chunks, size, 1, total)
  {
    var n, chunks := ChunkCount(total, size), (k: nat) => IdleChunk(|log.lines|);
    ChunkCountCovers(total, size);
    assert n >= 2 by {
      if n <= 1 {
        Scaled(n, 1, size);
      }
    }
    IdleIsFlagged(|log.lines|, size);
    TwoFlaggedStop(chunks, size, 1, 1);
    assert IdsOf([]) == [];
  }

  // When chunk k is flagged exactly if fewer than k * size + size / 2 prompts were left at the start,
  // the flagged chunks are the last ones.
  lemma FlaggedAreLast(chunks: nat -> Chunk, size: nat, left: nat, n: nat)
    requires size > 0 && SameNodes(chunks, 1)
    requires forall k: nat | k < n :: !FreeTooLow(chunks(k).free)
    requires forall k: nat | k < n :: Flagged(chunks(k), size) <==> size / 2 > 0 && left < k * size + size / 2
    ensures GoesOn(chunks, size, 1, n) <==> size / 2 == 0 || n <= 1 || left >= (n - 2) * size + size / 2
  {
    if size / 2 == 0 || n <= 1 || left >= (n - 2) * size + size / 2 {
      forall j: nat | j < n
        ensures Passes(chunks, size, 1, j)
      {
        if j > 0 {
          Scaled(j - 1, n - 2, size);
          assert !Flagged(chunks(j - 1), size);
          assert FlaggedRun(chunks, size, 1, j) == 0;
        }
      }
    } else {
      assert (n - 1) * size == (n - 2) * size + size;
      assert Flagged(chunks(n - 1), size) && Flagged(chunks(n - 2), size);
      TwoFlaggedStop(chunks, size, 1, n - 1);
    }
  }
}
