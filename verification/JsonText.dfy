// What every JSON object text must look like from the outside (sections 2, 4 and 7 of RFC 8259),
// as a scanner over the bytes of its UTF-8 form, one character for each byte: brackets balance,
// strings close and are followed by a separator, backslashes occur in strings only, and nothing but
// what a reader may strip follows the last bracket.
module JsonText {

  // Open(n): outside strings with n + 1 brackets open. Closed: right after a string. Text, Escape: in one.
  datatype Scan = Start | Open(outer: nat) | Closed(outer: nat) | Text(outer: nat) | Escape(outer: nat) | Done | Bad

  predicate Space(c: char) {
    c == ' ' || c == '\t' || c == '\n' || c == '\r'
  }

  // What may follow the text: anything but a printable ASCII character, hence every blank, Unicode's
  // included, that a reader may strip from a line before parsing it.
  predicate Trailing(c: char) {
    c <= ' ' || c > '~'
  }

  function Close(outer: nat): Scan {
    if outer == 0 then Done else Open(outer - 1)
  }

  function Step(s: Scan, c: char): Scan {
    match s
    case Start => if c == '{' then Open(0) else Bad
    case Open(n) =>
      if c == '"' then Text(n)
      else if c == '{' || c == '[' then Open(n + 1)
      else if c == '}' || c == ']' then Close(n)
      else if c == '\\' then Bad
      else Open(n)
    case Closed(n) =>
      if Space(c) then Closed(n)
      else if c == ',' || c == ':' then Open(n)
      else if c == '}' || c == ']' then Close(n)
      else Bad
    case Text(n) => if c == '"' then Closed(n) else if c == '\\' then Escape(n) else Text(n)
    case Escape(n) => if c in "\"\\/bfnrtu" then Text(n) else Bad
    case Done => if Trailing(c) then Done else Bad
    case Bad => Bad
  }

  function Read(s: Scan, text: string): Scan {
    if text == "" then s else Step(Read(s, text[..|text| - 1]), text[|text| - 1])
  }

  lemma {:induction false} ReadOn(s: Scan, a: string, b: string)
    ensures Read(s, a + b) == Read(Read(s, a), b)
  {
    if b == "" {
      assert a + b == a;
    } else {
      assert (a + b)[..|a + b| - 1] == a + b[..|b| - 1];
      ReadOn(s, a, b[..|b| - 1]);
    }
  }

  lemma {:induction false} BadStays(text: string)
    ensures Read(Bad, text) == Bad
  {
    if text != "" {
      BadStays(text[..|text| - 1]);
    }
  }

  lemma {:induction false} NeverBackToStart(s: Scan, text: string)
    requires text != ""
    ensures Read(s, text) != Start
  {
  }

  // A record's text: an object whose first key begins with an r, with nothing to strip at the end.
  predicate RecordText(text: string) {
    |text| > 3 && text[..3] == "{\"r" && !Trailing(text[|text| - 1]) && Read(Start, text) == Done
  }

  lemma {:induction false} PrefixNotBad(text: string, n: nat)
    requires Read(Start, text) == Done && n <= |text|
    ensures Read(Start, text[..n]) != Bad
  {
    assert text == text[..n] + text[n..];
    ReadOn(Start, text[..n], text[n..]);
    BadStays(text[n..]);
  }

  // No proper prefix of a record's text is a whole object.
  lemma TornIsNotDone(text: string, n: nat)
    requires RecordText(text) && n < |text|
    ensures Read(Start, text[..n]) != Done
  {
    if Read(Start, text[..n]) == Done {
      var rest := text[n..|text| - 1];
      assert text[..|text| - 1] == text[..n] + rest;
      ReadOn(Start, text[..n], rest);
      DoneOrBad(rest);
    }
  }

  lemma {:induction false} DoneOrBad(text: string)
    ensures Read(Done, text) == Done || Read(Done, text) == Bad
  {
    if text != "" {
      DoneOrBad(text[..|text| - 1]);
    }
  }

  // The same scan with n + 1 more brackets open around it.
  function Within(s: Scan, n: nat): Scan {
    match s
    case Open(m) => Open(m + n + 1)
    case Closed(m) => Closed(m + n + 1)
    case Text(m) => Text(m + n + 1)
    case Escape(m) => Escape(m + n + 1)
    case _ => Open(n)
  }

  lemma StepWithin(s: Scan, c: char, n: nat)
    requires s != Start && Step(s, c) != Bad
    ensures Step(Within(s, n), c) == Within(Step(s, c), n)
  {
  }

  lemma {:induction false} ReadWithin(text: string, n: nat, k: nat)
    requires RecordText(text) && 0 < k <= |text|
    ensures Read(Open(n), text[..k]) == Within(Read(Start, text[..k]), n)
  {
    hide RecordText, Step, Within;
    assert text[..k][..k - 1] == text[..k - 1];
    if k > 1 {
      ReadWithin(text, n, k - 1);
      NeverBackToStart(Start, text[..k - 1]);
      NotBadOf(text, k);
      StepWithin(Read(Start, text[..k - 1]), text[k - 1], n);
    } else {
      FirstWithin(text, n);
    }
  }

  lemma NotBadOf(text: string, k: nat)
    requires RecordText(text) && k <= |text|
    ensures Read(Start, text[..k]) != Bad
  {
    PrefixNotBad(text, k);
  }

  lemma FirstWithin(text: string, n: nat)
    requires RecordText(text)
    ensures Read(Open(n), text[..1]) == Within(Read(Start, text[..1]), n)
  {
    assert text[..1][..0] == "";
    assert text[0] == text[..3][0] == '{';
    assert Read(Start, text[..1]) == Step(Start, '{');
    assert Read(Open(n), text[..1]) == Step(Open(n), '{');
  }

  // Any part of a record glued behind any non-empty text is never a whole object.
  lemma {:induction false} GluedIsNotDone(tail: string, text: string, k: nat)
    requires tail != "" && RecordText(text) && 0 < k <= |text|
    ensures Read(Start, tail + text[..k]) != Done
  {
    var s := Read(Start, tail);
    NeverBackToStart(Start, tail);
    ReadOn(Start, tail, text[..k]);
    if s.Open? {
      ReadWithin(text, s.outer, k);
    } else {
      GluedInString(s, text, k);
    }
  }

  lemma {:induction false} ReadOne(s: Scan, text: string)
    requires |text| > 0
    ensures Read(s, text[..1]) == Step(s, text[0])
  {
    assert text[..1][..0] == "";
  }

  lemma {:induction false} ReadNext(s: Scan, text: string, k: nat)
    requires 0 < k <= |text|
    ensures Read(s, text[..k]) == Step(Read(s, text[..k - 1]), text[k - 1])
  {
    assert text[..k][..k - 1] == text[..k - 1];
  }

  lemma {:induction false} BadFrom(s: Scan, text: string, m: nat, k: nat)
    requires m <= k <= |text| && Read(s, text[..m]) == Bad
    ensures Read(s, text[..k]) == Bad
  {
    assert text[..k] == text[..m] + text[m..k];
    ReadOn(s, text[..m], text[m..k]);
    BadStays(text[m..k]);
  }

  // In a string, the record's own first quote closes it, and the letter behind is out of place.
  lemma {:induction false} GluedInString(s: Scan, text: string, k: nat)
    requires !s.Start? && !s.Open? && RecordText(text) && 0 < k <= |text|
    ensures Read(s, text[..k]) != Done
  {
    assert text[0] == text[..3][0] && text[1] == text[..3][1] && text[2] == text[..3][2];
    ReadOne(s, text);
    if s.Text? {
      ReadNext(s, text, 2);
      ReadNext(s, text, 3);
      assert Read(s, text[..3]) == Bad;
      if k > 3 {
        BadFrom(s, text, 3, k);
      }
    } else {
      BadFrom(s, text, 1, k);
    }
  }
}
