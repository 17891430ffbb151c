// The two parsers of fio-style size strings, in exact arithmetic: whole GiB for capacity
// decisions, bytes for the report.
module SizeStrings {
  import opened Wrappers
  import opened Blanks
  import opened Testfile
  import TestfileHistory

  datatype Parsed = Size(amount: int) | EmptyString | UnknownSuffix | BadNumber | IndexError

  function Strip(s: string): string {
    if s == "" then s
    else if Blank(s[0]) then Strip(s[1..])
    else if Blank(s[|s| - 1]) then Strip(s[..|s| - 1])
    else s
  }

  function Lower(s: string): string {
    seq(|s|, i requires 0 <= i < |s| => if 'A' <= s[i] <= 'Z' then s[i] - 'A' + 'a' else s[i])
  }

  // Blanks, case and the optional "b" or "ib" removed.
  function Normal(s: string): string {
    var raw := Lower(Strip(s));
    if |raw| >= 2 && raw[|raw| - 2..] == "ib" then raw[..|raw| - 2]
    else if |raw| >= 1 && raw[|raw| - 1] == 'b' then raw[..|raw| - 1]
    else raw
  }

  const UNITS := "kmgtp"

  function GibPer(unit: char): real
    requires unit in UNITS
  {
    match unit
    case 'k' => 1.0 / 1048576.0
    case 'm' => 1.0 / 1024.0
    case 'g' => 1.0
    case 't' => 1024.0
    case _ => 1048576.0
  }

  function BytesPer(unit: char): int
    requires unit in UNITS
  {
    match unit
    case 'k' => 1024
    case 'm' => 1024 * 1024
    case 'g' => 1024 * 1024 * 1024
    case 't' => 1024 * 1024 * 1024 * 1024
    case _ => 1024 * 1024 * 1024 * 1024 * 1024
  }

  function InGib(v: real, unit: char): real
    requires unit in UNITS
  {
    v * GibPer(unit)
  }

  function InBytes(v: real, unit: char): real
    requires unit in UNITS
  {
    v * BytesPer(unit) as real
  }

  // Python's int(): toward zero.
  function Truncate(x: real): int {
    if x >= 0.0 then x.Floor else -((-x).Floor)
  }

  // number: Python's float(), None where it raises.
  function ParseGib(s: string, number: string -> Option<real>): Parsed {
    var raw := Normal(s);
    if raw == "" then EmptyString
    else
      var unit := raw[|raw| - 1];
      if unit !in UNITS then UnknownSuffix
      else
        match number(raw[..|raw| - 1])
        case None => BadNumber
        case Some(v) => Size(Truncate(InGib(v, unit)))
  }

  function ParseBytes(s: string, number: string -> Option<real>): Parsed {
    var raw := Normal(s);
    if raw == "" then IndexError
    else
      var unit := raw[|raw| - 1];
      if unit !in UNITS then UnknownSuffix
      else
        match number(raw[..|raw| - 1])
        case None => BadNumber
        case Some(v) => Size(Truncate(InBytes(v, unit)))
  }

  // Division of bytes into whole GiB, toward zero.
  function WholeGibOf(bytes: int): int {
    if bytes >= 0 then bytes / GIB else -((-bytes) / GIB)
  }

  // Rounding before or after the division makes no difference.
  lemma RoundedQuotient(x: real)
    ensures Truncate(x / 1073741824.0) == WholeGibOf(Truncate(x))
  {
    var y := if x >= 0.0 then x else -x;
    var q := (y / 1073741824.0).Floor;
    assert (1073741824 * q) as real == 1073741824.0 * q as real;
    assert 1073741824 * q <= y.Floor < 1073741824 * q + 1073741824;
    assert -x / 1073741824.0 == -(x / 1073741824.0);
  }

  lemma ScaledAgree(v: real, unit: char)
    requires unit in UNITS
    ensures Truncate(InGib(v, unit)) == WholeGibOf(Truncate(InBytes(v, unit)))
  {
    hide Truncate, WholeGibOf;
    RoundedQuotient(InBytes(v, unit));
    assert InGib(v, unit) == InBytes(v, unit) / 1073741824.0;
  }

  // The two parsers accept the same strings, and the GiB figure is the byte figure in whole GiB.
  lemma GibIsBytesInWholeGib(s: string, number: string -> Option<real>)
    ensures ParseGib(s, number).Size? <==> ParseBytes(s, number).Size?
    ensures ParseGib(s, number).Size? ==>
              ParseGib(s, number).amount == WholeGibOf(ParseBytes(s, number).amount)
  {
    hide Truncate, WholeGibOf, Normal;
    var raw := Normal(s);
    if raw != "" && raw[|raw| - 1] in UNITS {
      match number(raw[..|raw| - 1])
      case Some(v) => ScaledAgree(v, raw[|raw| - 1]);
      case None =>
    }
  }

  // prepare compares the file with the GiB figure of the size string, fio writes the bytes it says.
  // The comparison refuses what it would refuse in bytes rounded down, so a file that it lets pass
  // lacks less than one GiB of those bytes, and none of a size in whole GiB.
  lemma UnrefusedFileIsLongEnough(d: Disk, s: string, number: string -> Option<real>, answer: Answer)
    requires d.file.Some? && answer.sizeProbe
    requires ParseBytes(s, number).Size? && ParseBytes(s, number).amount >= 0
    ensures ParseGib(s, number).Size?
    ensures var bytes, short := ParseBytes(s, number).amount, d.file.value.size / GIB < ParseGib(s, number).amount;
            && (short <==> Refuses(d, bytes, answer))
            && (!short ==> bytes < d.file.value.size + GIB && (bytes % GIB == 0 ==> bytes <= d.file.value.size))
  {
    GibIsBytesInWholeGib(s, number);
    hide ParseGib, ParseBytes;
    var bytes: nat := ParseBytes(s, number).amount;
    if !Refuses(d, bytes, answer) {
      TestfileHistory.NotRefusedIsLongEnough(d, bytes, answer);
    }
  }

  // ----- what a size string means -----

  const CAPITALS := "KMGTP"

  // What the units stand for: 1024 to the power of 1, 2, 3, 4 and 5.
  const FACTORS := [0x400, 0x10_0000, 0x4000_0000, 0x100_0000_0000, 0x4_0000_0000_0000]

  function ExactBytes(v: real, i: nat): real
    requires i < |FACTORS|
  {
    v * FACTORS[i] as real
  }

  function ExactGib(v: real, i: nat): real
    requires i < |FACTORS|
  {
    ExactBytes(v, i) / 1073741824.0
  }

  predicate IsSuffix(s: string) {
    s in {"", "b", "B", "ib", "iB", "Ib", "IB"}
  }

  lemma {:induction false} StripsBlanks(before: string, core: string, after: string)
    requires AllBlank(before) && AllBlank(after)
    requires core != "" && !Blank(core[0]) && !Blank(core[|core| - 1])
    ensures Strip(before + core + after) == core
    decreases |before| + |after|
  {
    var s := before + core + after;
    if before != "" {
      assert s[1..] == before[1..] + core + after;
      StripsBlanks(before[1..], core, after);
    } else if after != "" {
      assert s[0] == core[0] && s[..|s| - 1] == before + core + after[..|after| - 1];
      StripsBlanks(before, core, after[..|after| - 1]);
    } else {
      assert s == core;
    }
  }

  lemma LowerOfSum(a: string, b: string)
    ensures Lower(a + b) == Lower(a) + Lower(b)
  {
  }

  // The number, the unit in either case and the optional suffix, with blanks around them.
  function SizeText(before: string, digits: string, unit: char, suffix: string, after: string): string {
    before + (digits + [unit] + suffix) + after
  }

  lemma {:induction false} SuffixIsDropped(s: string, head: string, suffix: string)
    requires Lower(Strip(s)) == head + suffix && head != "" && head[|head| - 1] in UNITS
    requires suffix in {"", "b", "ib"}
    ensures Normal(s) == head
  {
    var raw := head + suffix;
    if suffix == "" {
      assert raw == head;
      assert raw[|raw| - 1] in UNITS;
    } else if suffix == "b" {
      assert raw[|raw| - 2..][0] == head[|head| - 1];
      assert raw[..|raw| - 1] == head;
    } else {
      assert raw[|raw| - 2..] == "ib" && raw[..|raw| - 2] == head;
    }
  }

  lemma NormalSize(before: string, digits: string, i: nat, unit: char, suffix: string, after: string)
    requires AllBlank(before) && AllBlank(after) && (digits == "" || !Blank(digits[0]))
    requires i < |UNITS| && (unit == UNITS[i] || unit == CAPITALS[i]) && IsSuffix(suffix)
    ensures Normal(SizeText(before, digits, unit, suffix, after)) == Lower(digits) + [UNITS[i]]
  {
    var core := digits + [unit] + suffix;
    assert core[0] == if digits == "" then unit else digits[0];
    assert core[|core| - 1] == if suffix == "" then unit else suffix[|suffix| - 1];
    StripsBlanks(before, core, after);
    LowerOfSum(digits + [unit], suffix);
    LowerOfSum(digits, [unit]);
    assert Lower([unit]) == [UNITS[i]];
    SuffixLowers(suffix);
    SuffixIsDropped(SizeText(before, digits, unit, suffix, after), Lower(digits) + [UNITS[i]], Lower(suffix));
  }

  lemma SuffixLowers(suffix: string)
    requires IsSuffix(suffix)
    ensures Lower(suffix) in {"", "b", "ib"}
    ensures suffix != "" ==> !Blank(suffix[|suffix| - 1])
  {
    if suffix == "" {
      assert Lower(suffix) == "";
    } else if |suffix| == 1 {
      assert Lower(suffix) == "b";
    } else {
      assert Lower(suffix) == "ib";
    }
  }

  // The exact amount cut off toward zero.
  predicate CutsOff(amount: int, x: real) {
    if x >= 0.0 then amount as real <= x < amount as real + 1.0 else amount as real - 1.0 < x <= amount as real
  }

  lemma TruncateCutsOff(x: real, y: real)
    requires x == y
    ensures CutsOff(Truncate(x), y)
  {
  }

  // The size is the number times 1024 to the power that the unit stands for, cut off to whole bytes, or
  // to whole GiB; either case, "b" and "ib" behind the unit and blanks around make no difference.
  lemma SizeIsNumberTimesUnit(before: string, digits: string, i: nat, unit: char, suffix: string, after: string,
      number: string -> Option<real>)
    requires AllBlank(before) && AllBlank(after) && (digits == "" || !Blank(digits[0]))
    requires i < |UNITS| && (unit == UNITS[i] || unit == CAPITALS[i]) && IsSuffix(suffix)
    ensures var s := SizeText(before, digits, unit, suffix, after);
            match number(Lower(digits))
            case None => ParseBytes(s, number) == BadNumber && ParseGib(s, number) == BadNumber
            case Some(v) =>
              && ParseBytes(s, number).Size? && CutsOff(ParseBytes(s, number).amount, ExactBytes(v, i))
              && ParseGib(s, number).Size?
              && CutsOff(ParseGib(s, number).amount, ExactGib(v, i))
  {
    hide Normal, SizeText, Lower, CutsOff, ParseBytes, ParseGib, IsSuffix;
    var s := SizeText(before, digits, unit, suffix, after);
    NormalSize(before, digits, i, unit, suffix, after);
    ParsedByUnit(s, Lower(digits), i, number);
  }

  lemma ParsedByUnit(s: string, digits: string, i: nat, number: string -> Option<real>)
    requires i < |UNITS| && Normal(s) == digits + [UNITS[i]]
    ensures match number(digits)
            case None => ParseBytes(s, number) == BadNumber && ParseGib(s, number) == BadNumber
            case Some(v) =>
              && ParseBytes(s, number).Size? && CutsOff(ParseBytes(s, number).amount, ExactBytes(v, i))
              && ParseGib(s, number).Size?
              && CutsOff(ParseGib(s, number).amount, ExactGib(v, i))
  {
    hide Normal, Truncate, CutsOff, ExactBytes, ExactGib, InGib, InBytes;
    var raw := Normal(s);
    assert raw[|raw| - 1] == UNITS[i] && raw[..|raw| - 1] == digits;
    if number(digits).Some? {
      AmountsCutOff(number(digits).value, UNITS[i], i);
    }
  }

  lemma AmountsCutOff(v: real, unit: char, i: nat)
    requires i < |UNITS| && unit == UNITS[i]
    ensures CutsOff(Truncate(InBytes(v, unit)), ExactBytes(v, i))
    ensures CutsOff(Truncate(InGib(v, unit)), ExactGib(v, i))
  {
    hide Truncate, CutsOff, ExactBytes, ExactGib, InGib, InBytes;
    UnitsArePowers(v, i);
    TruncateCutsOff(InBytes(v, unit), ExactBytes(v, i));
    TruncateCutsOff(InGib(v, unit), ExactGib(v, i));
  }

  lemma UnitsArePowers(v: real, i: nat)
    requires i < |UNITS|
    ensures InBytes(v, UNITS[i]) == ExactBytes(v, i)
    ensures InGib(v, UNITS[i]) == ExactGib(v, i)
  {
    assert 1024 * FACTORS[0] == FACTORS[1] && 1024 * FACTORS[1] == FACTORS[2];
    assert 1024 * FACTORS[2] == FACTORS[3] && 1024 * FACTORS[3] == FACTORS[4];
  }
}
