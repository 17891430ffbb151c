// The one-line status protocol between the remote scripts and the driver, and the worst status.
module StatusLines {
  import opened Wrappers

  datatype Emission = Emission(phase: string, node: string, action: string, status: string, detail: string)

  const WORDS := {"ok", "warn", "red"}

  function Emit(e: Emission): string {
    Head(e) + "STATUS=" + e.status + " DETAIL=" + e.detail
  }

  function Head(e: Emission): string {
    "PHASE=" + e.phase + " NODE=" + e.node + " ACTION=" + e.action + " "
  }

  predicate StatusAt(line: string, i: int) {
    0 <= i && i + 7 <= |line| && line[i..i + 7] == "STATUS="
  }

  // The last STATUS= at or before position i, -1 if there is none.
  function LastStatus(line: string, i: int): (last: int)
    ensures last >= 0 ==> StatusAt(line, last)
  {
    if i < 0 then -1 else if StatusAt(line, i) then i else LastStatus(line, i - 1)
  }

  function LowerPrefix(s: string): string {
    if s == "" || !('a' <= s[0] <= 'z') then "" else [s[0]] + LowerPrefix(s[1..])
  }

  // The word that relay's sed expression extracts: after the last STATUS=, the letters a to z.
  function Extract(line: string): Option<string> {
    if |line| < 6 || line[..6] != "PHASE=" then None
    else
      var i := LastStatus(line, |line|);
      if i < 0 || LowerPrefix(line[i + 7..]) == "" then None else Some(LowerPrefix(line[i + 7..]))
  }

  lemma {:induction false} LastStatusIs(line: string, i: int, k: int)
    requires 0 <= k <= i && StatusAt(line, k) && forall j | k < j <= i :: !StatusAt(line, j)
    ensures LastStatus(line, i) == k
  {
    if k < i {
      LastStatusIs(line, i - 1, k);
    }
  }

  lemma {:induction false} LowerPrefixOfWord(word: string, rest: string)
    requires forall i | 0 <= i < |word| :: 'a' <= word[i] <= 'z'
    requires rest != "" && !('a' <= rest[0] <= 'z')
    ensures LowerPrefix(word + rest) == word
  {
    if word != "" {
      LowerPrefixOfWord(word[1..], rest);
      assert (word + rest)[1..] == word[1..] + rest;
    } else {
      assert word + rest == rest;
    }
  }

  ghost predicate NoStatusIn(s: string) {
    forall i :: !StatusAt(s, i)
  }

  // No STATUS= begins inside the fixed text between the real one and the detail.
  lemma OnlyOneStatus(head: string, status: string, detail: string, j: int)
    requires status in WORDS && NoStatusIn(detail) && j > |head|
    ensures !StatusAt(head + "STATUS=" + status + " DETAIL=" + detail, j)
  {
    var line := head + "STATUS=" + status + " DETAIL=" + detail;
    var middle := "STATUS=" + status + " DETAIL=";
    assert line == head + middle + detail;
    var d := |head| + |middle|;
    if j + 7 <= |line| {
      if j >= d {
        assert line[j..j + 7] == detail[j - d..j - d + 7];
        assert !StatusAt(detail, j - d);
      } else {
        var i := j - |head|;
        MiddleHasOneStatus(status, i);
        assert line[j] == middle[i];
        assert i + 1 < |middle| ==> line[j + 1] == middle[i + 1];
        assert line[j..j + 7][0] == line[j] && line[j..j + 7][1] == line[j + 1];
      }
    }
  }

  lemma MiddleHasOneStatus(status: string, i: int)
    requires status in WORDS
    ensures var middle := "STATUS=" + status + " DETAIL=";
            0 < i < |middle| ==> middle[i] != 'S' || (i + 1 < |middle| && middle[i + 1] != 'T')
  {
    var middle := "STATUS=" + status + " DETAIL=";
    if 0 < i < |middle| && 7 <= i < 7 + |status| {
      assert middle[i] == status[i - 7];
    }
  }

  // Whatever the phase, node and action, relay recovers the status that was emitted as long as the
  // detail does not itself hold STATUS=.
  lemma RelayRecoversStatus(e: Emission)
    requires e.status in WORDS && NoStatusIn(e.detail)
    ensures Extract(Emit(e)) == Some(e.status)
  {
    var line, k := Emit(e), |Head(e)|;
    assert line[..6] == "PHASE=";
    assert line == Head(e) + ("STATUS=" + (e.status + (" DETAIL=" + e.detail)));
    assert line[k..k + 7] == "STATUS=";
    forall j | k < j <= |line|
      ensures !StatusAt(line, j)
    {
      OnlyOneStatus(Head(e), e.status, e.detail, j);
    }
    LastStatusIs(line, |line|, k);
    assert line[k + 7..] == e.status + (" DETAIL=" + e.detail);
    LowerPrefixOfWord(e.status, " DETAIL=" + e.detail);
  }

  // ----- the worst status -----

  function Bump(worst: nat, status: string): nat {
    if status == "warn" then (if worst < 1 then 1 else worst)
    else if status == "red" then 2
    else worst
  }

  function BumpLine(worst: nat, line: string): nat {
    match Extract(line)
    case Some(status) => Bump(worst, status)
    case None => worst
  }

  function Relay(worst: nat, lines: seq<string>): nat {
    if lines == [] then worst else BumpLine(Relay(worst, lines[..|lines| - 1]), lines[|lines| - 1])
  }

  method RelayLog(worst: nat, lines: seq<string>) returns (after: nat)
    ensures after == Relay(worst, lines)
  {
    after := worst;
    for i := 0 to |lines|
      invariant after == Relay(worst, lines[..i])
    {
      assert lines[..i + 1][..i] == lines[..i];
      match Extract(lines[i])
      case Some(status) =>
        if status == "warn" && after < 1 {
          after := 1;
        } else if status == "red" {
          after := 2;
        }
      case None =>
    }
    assert lines[..|lines|] == lines;
  }

  function EmitAll(es: seq<Emission>): seq<string> {
    seq(|es|, i requires 0 <= i < |es| => Emit(es[i]))
  }

  ghost predicate WellBehaved(es: seq<Emission>) {
    forall e | e in es :: e.status in WORDS && NoStatusIn(e.detail)
  }

  ghost predicate AnyWith(es: seq<Emission>, status: string) {
    exists i :: 0 <= i < |es| && es[i].status == status
  }

  // The driver ends with the maximum of everything the scripts emitted.
  lemma {:induction false} WorstIsMaximum(es: seq<Emission>)
    requires WellBehaved(es)
    ensures Relay(0, EmitAll(es)) == if AnyWith(es, "red") then 2 else if AnyWith(es, "warn") then 1 else 0
  {
    if es != [] {
      var init, last := es[..|es| - 1], es[|es| - 1];
      assert es == init + [last];
      WorstIsMaximum(init);
      assert EmitAll(es)[..|es| - 1] == EmitAll(init);
      RelayRecoversStatus(last);
      forall status
        ensures AnyWith(es, status) <==> AnyWith(init, status) || last.status == status
      {
        if AnyWith(init, status) {
          var i :| 0 <= i < |init| && init[i].status == status;
          assert es[i].status == status;
        }
        if last.status == status {
          assert es[|es| - 1].status == status;
        }
      }
    }
  }

  lemma {:induction false} NoLastStatus(line: string, i: int)
    requires NoStatusIn(line)
    ensures LastStatus(line, i) == -1
  {
    if i >= 0 {
      NoLastStatus(line, i - 1);
    }
  }

  // A line that does not begin with PHASE=, or has no STATUS=, has no effect, wherever it stands.
  lemma {:induction false} OtherLinesAreIgnored(worst: nat, before: seq<string>, line: string, after: seq<string>)
    requires |line| < 6 || line[..6] != "PHASE=" || NoStatusIn(line)
    ensures Relay(worst, before + [line] + after) == Relay(worst, before + after)
  {
    var lines := before + [line] + after;
    if after == [] {
      if |line| >= 6 && line[..6] == "PHASE=" {
        NoLastStatus(line, |line|);
      }
      assert Extract(line).None?;
      assert lines[..|lines| - 1] == before && before + after == before;
    } else {
      OtherLinesAreIgnored(worst, before, line, after[..|after| - 1]);
      assert lines[..|lines| - 1] == before + [line] + after[..|after| - 1];
      assert (before + after)[..|before + after| - 1] == before + after[..|after| - 1];
    }
  }

  // It is the same for every order in which the same lines of the two nodes reach it.
  lemma WorstIgnoresOrder(a: seq<Emission>, b: seq<Emission>)
    requires WellBehaved(a) && multiset(a) == multiset(b)
    ensures Relay(0, EmitAll(a)) == Relay(0, EmitAll(b))
  {
    forall e | e in b
      ensures e in a
    {
      assert e in multiset(b);
      assert e in multiset(a);
    }
    forall e | e in a
      ensures e in b
    {
      assert e in multiset(a);
      assert e in multiset(b);
    }
    WorstIsMaximum(a);
    WorstIsMaximum(b);
    forall status
      ensures AnyWith(a, status) <==> AnyWith(b, status)
    {
      if AnyWith(a, status) {
        var i :| 0 <= i < |a| && a[i].status == status;
        assert a[i] in b;
        var j :| 0 <= j < |b| && b[j] == a[i];
      }
      if AnyWith(b, status) {
        var j :| 0 <= j < |b| && b[j].status == status;
        assert b[j] in a;
        var i :| 0 <= i < |a| && a[i] == b[j];
      }
    }
  }
}
