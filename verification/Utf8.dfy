// UTF-8 as a scanner over bytes, one character for each byte (section 4 of RFC 3629).
module Utf8 {

  // Between: no character is begun. Inside: `left` more bytes complete it, the next one in lo..hi.
  datatype Scan = Between | Inside(left: nat, lo: int, hi: int) | Invalid

  function Lead(u: int): Scan {
    if u <= 0x7F then Between
    else if 0xC2 <= u <= 0xDF then Inside(1, 0x80, 0xBF)
    else if u == 0xE0 then Inside(2, 0xA0, 0xBF)
    else if u == 0xED then Inside(2, 0x80, 0x9F)
    else if 0xE1 <= u <= 0xEF then Inside(2, 0x80, 0xBF)
    else if u == 0xF0 then Inside(3, 0x90, 0xBF)
    else if u == 0xF4 then Inside(3, 0x80, 0x8F)
    else if 0xF1 <= u <= 0xF3 then Inside(3, 0x80, 0xBF)
    else Invalid
  }

  function Feed(s: Scan, c: char): Scan {
    match s
    case Between => Lead(c as int)
    case Inside(left, lo, hi) =>
      if !(lo <= c as int <= hi) then Invalid else if left <= 1 then Between else Inside(left - 1, 0x80, 0xBF)
    case Invalid => Invalid
  }

  function Decode(s: Scan, text: string): Scan {
    if text == "" then s else Feed(Decode(s, text[..|text| - 1]), text[|text| - 1])
  }

  // Whole characters only: nothing invalid, and no character cut at the end.
  predicate Whole(text: string) {
    Decode(Between, text) == Between
  }

  lemma {:induction false} DecodeOn(s: Scan, a: string, b: string)
    ensures Decode(s, a + b) == Decode(Decode(s, a), b)
  {
    if b == "" {
      assert a + b == a;
    } else {
      assert (a + b)[..|a + b| - 1] == a + b[..|b| - 1];
      DecodeOn(s, a, b[..|b| - 1]);
    }
  }

  // Behind whole characters, the rest decodes by itself.
  lemma WholeThen(a: string, b: string)
    requires Whole(a)
    ensures Whole(a + b) <==> Whole(b)
  {
    DecodeOn(Between, a, b);
  }

  predicate Ascii(c: char) {
    c as int <= 0x7F
  }

  lemma {:induction false} AsciiIsWhole(text: string)
    requires forall i | 0 <= i < |text| :: Ascii(text[i])
    ensures Whole(text)
  {
    if text != "" {
      AsciiIsWhole(text[..|text| - 1]);
    }
  }

  // Some cut of a text falls inside a character exactly when the text is not pure ASCII.
  lemma {:induction false} SomeCutIsInsideExactlyWhen(text: string)
    ensures (exists k | 0 <= k <= |text| :: !Whole(text[..k])) <==> (exists i | 0 <= i < |text| :: !Ascii(text[i]))
  {
    if text == "" {
      assert Whole(text[..0]);
    } else {
      var init := text[..|text| - 1];
      SomeCutIsInsideExactlyWhen(init);
      assert forall k | 0 <= k <= |init| :: text[..k] == init[..k];
      assert text[..|text|] == text && text[..|text| - 1] == init;
      if (forall k | 0 <= k <= |init| :: Whole(init[..k])) {
        assert init[..|init|] == init;
        assert Whole(text) <==> Ascii(text[|text| - 1]);
        if !Ascii(text[|text| - 1]) {
          assert !Whole(text[..|text|]);
        } else {
          assert forall i | 0 <= i < |init| :: init[i] == text[i];
        }
      } else {
        var k :| 0 <= k <= |init| && !Whole(init[..k]);
        assert !Whole(text[..k]);
        var i :| 0 <= i < |init| && !Ascii(init[i]);
        assert !Ascii(text[i]);
      }
    }
  }
}
