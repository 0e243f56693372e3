/** Control sequences round trip through the scanner: whatever decimal or empty parameters are written
    (section 5.4 of ECMA-48), in however many chunks they arrive, that list reaches the handler. */
module Parameters {
  import opened Scanner
  import opened Strings

  // ---------------------------------------------------------------- chunks

  function RunChunks(bottom: Bottom, st: Scan, chunks: seq<string>): Scan
    decreases |chunks|
  {
    if chunks == [] then st else RunChunks(bottom, Scanner.Run(bottom, st, chunks[0]), chunks[1..])
  }

  function Concat(chunks: seq<string>): string {
    if chunks == [] then [] else chunks[0] + Concat(chunks[1..])
  }

  /** No chunk but the last ends in a carriage return. */
  predicate CleanCuts(chunks: seq<string>) {
    forall i :: 0 <= i < |chunks| - 1 && chunks[i] != [] ==> chunks[i][|chunks[i]| - 1] != '\r'
  }

  lemma {:induction false} AnyChunks(bottom: Bottom, st: Scan, chunks: seq<string>)
    requires CleanCuts(chunks)
    ensures RunChunks(bottom, st, chunks) == Scanner.Run(bottom, st, Concat(chunks))
    decreases |chunks|
  {
    hide Scanner.Run;
    if chunks == [] {
      RunEmpty(bottom, st);
    } else if |chunks| == 1 {
      assert Concat(chunks) == chunks[0] + Concat([]) == chunks[0];
      assert RunChunks(bottom, Scanner.Run(bottom, st, chunks[0]), []) == Scanner.Run(bottom, st, chunks[0]);
    } else {
      AnyChunks(bottom, Scanner.Run(bottom, st, chunks[0]), chunks[1..]);
      ChunkingExact(bottom, st, chunks[0], Concat(chunks[1..]));
    }
  }

  // ---------------------------------------------------------------- numerals

  predicate Digits(ds: string) {
    forall i :: 0 <= i < |ds| ==> IsDigit(ds[i])
  }

  /** What the scanner makes of further digits. */
  function Numeral(cur: int, ds: string): int
    requires Digits(ds)
    decreases |ds|
  {
    if ds == [] then cur else Numeral(Accumulate(cur, ds[0]), ds[1..])
  }

  /** What the digits say, after `value`. */
  function Decimal(value: nat, ds: string): (n: nat)
    requires Digits(ds)
    ensures value <= n
    decreases |ds|
  {
    if ds == [] then value else Decimal(10 * value + DigitValue(ds[0]), ds[1..])
  }

  lemma {:induction false} NoOverflow(cur: nat, ds: string)
    requires Digits(ds) && Decimal(cur, ds) < 0x8000_0000
    ensures Numeral(cur, ds) == Decimal(cur, ds)
    decreases |ds|
  {
    hide Wrap;
    if ds != [] {
      var next := 10 * cur + DigitValue(ds[0]);
      assert next <= Decimal(next, ds[1..]);
      assert Accumulate(cur, ds[0]) == next;
      NoOverflow(next, ds[1..]);
    }
  }

  lemma {:induction false} NumeralFits(cur: int, ds: string)
    requires Digits(ds) && (ds != [] || cur < 0x8000_0000)
    ensures Numeral(cur, ds) < 0x8000_0000
    decreases |ds|
  {
    hide Wrap, DigitValue;
    if ds != [] {
      NumeralFits(Accumulate(cur, ds[0]), ds[1..]);
    }
  }

  /** Parameters are read exactly as long as they fit a Java int. */
  lemma NumeralExact(ds: string)
    requires Digits(ds) && ds != []
    ensures Numeral(-1, ds) == Decimal(0, ds) <==> Decimal(0, ds) < 0x8000_0000
  {
    hide Wrap;
    NumeralFits(-1, ds);
    assert Numeral(-1, ds) == Numeral(0, ds) by {
      assert Accumulate(-1, ds[0]) == Accumulate(0, ds[0]);
    }
    if Decimal(0, ds) < 0x8000_0000 {
      NoOverflow(0, ds);
    }
  }

  // ---------------------------------------------------------------- parameter lists

  predicate AllDigits(ps: seq<string>) {
    forall i :: 0 <= i < |ps| ==> Digits(ps[i])
  }

  /** Empty parameters count as -1. */
  function Values(ps: seq<string>): (vs: seq<int>)
    requires AllDigits(ps)
    ensures |vs| == |ps|
  {
    seq(|ps|, i requires 0 <= i < |ps| => Numeral(-1, ps[i]))
  }

  function InBracket(st: Scan, question: bool, prev: seq<int>, cur: int, raw: string): Scan {
    st.(mode := Bracket(question, prev, cur, raw))
  }

  lemma {:induction false} ReadDigits(bottom: Bottom, st: Scan, q: bool, prev: seq<int>, cur: int, raw: string,
                                      ds: string, rest: string)
    requires Digits(ds)
    ensures Scanner.Run(bottom, InBracket(st, q, prev, cur, raw), ds + rest)
         == Scanner.Run(bottom, InBracket(st, q, prev, Numeral(cur, ds), raw + ds), rest)
    decreases |ds|
  {
    hide Accumulate, Scanner.Run;
    if ds == [] {
      assert ds + rest == rest && raw + ds == raw;
    } else {
      var s := ds + rest;
      assert s[1..] == ds[1..] + rest && raw + ds == (raw + [ds[0]]) + ds[1..];
      RunStep(bottom, InBracket(st, q, prev, cur, raw), s);
      ReadDigits(bottom, st, q, prev, Accumulate(cur, ds[0]), raw + [ds[0]], ds[1..], rest);
    }
  }

  predicate IsFinal(c: char) {
    !IsDigit(c) && c != ';' && c != '?'
  }

  lemma {:induction false} ReadParameters(bottom: Bottom, st: Scan, q: bool, prev: seq<int>, raw: string,
                                          ps: seq<string>, final: char)
    requires ps != [] && AllDigits(ps) && IsFinal(final)
    ensures Scanner.Run(bottom, InBracket(st, q, prev, -1, raw), Join(ps) + [final])
         == Do(st, Control(q, prev + Values(ps), final, raw + Join(ps) + [final]))
    decreases |ps|
  {
    hide Scanner.Run, Numeral;
    var p, v := ps[0], Numeral(-1, ps[0]);
    if |ps| == 1 {
      ReadDigits(bottom, st, q, prev, -1, raw, p, [final]);
      var last := InBracket(st, q, prev, v, raw + p);
      RunStep(bottom, last, [final]);
      assert [final][1..] == [];
      RunEmpty(bottom, Step(last, final));
      assert Values(ps) == [v];
      assert Step(last, final) == Do(st, Control(q, prev + [v], final, raw + p + [final]));
    } else {
      var more := Join(ps[1..]) + [final];
      assert Join(ps) + [final] == p + ([';'] + more);
      ReadDigits(bottom, st, q, prev, -1, raw, p, [';'] + more);
      var mid := InBracket(st, q, prev, v, raw + p);
      assert ([';'] + more)[1..] == more;
      RunStep(bottom, mid, [';'] + more);
      ReadParameters(bottom, st, q, prev + [v], raw + p + [';'], ps[1..], final);
      assert (prev + [v]) + Values(ps[1..]) == prev + Values(ps);
      assert (raw + p + [';']) + Join(ps[1..]) + [final] == raw + Join(ps) + [final];
    }
  }

  /** The characters of a control sequence. */
  function Sequence(question: bool, ps: seq<string>, final: char): string
    requires ps != []
  {
    [ESC, '['] + (if question then ['?'] else []) + Join(ps) + [final]
  }

  /** The parameter law: the handler gets the question mark, the list and the final character. */
  lemma ControlRoundTrip(bottom: Bottom, st: Scan, question: bool, ps: seq<string>, final: char)
    requires st.mode.Initial? && ps != [] && AllDigits(ps) && IsFinal(final)
    ensures Scanner.Run(bottom, st, Sequence(question, ps, final))
         == Do(st, Control(question, Values(ps), final, Sequence(question, ps, final)))
  {
    hide Scanner.Run, Numeral, Join;
    var s, tail := Sequence(question, ps, final), Join(ps) + [final];
    var esc := st.(mode := SeenEsc);
    RunStep(bottom, st, s);
    RunStep(bottom, esc, s[1..]);
    var open := InBracket(st, false, [], -1, [ESC, '[']);
    assert [] + Values(ps) == Values(ps);
    if question {
      assert s[1..][1..] == ['?'] + tail;
      RunStep(bottom, open, ['?'] + tail);
      assert (['?'] + tail)[1..] == tail && [ESC, '['] + ['?'] == [ESC, '[', '?'];
      ReadParameters(bottom, st, true, [], [ESC, '[', '?'], ps, final);
      assert [ESC, '[', '?'] + Join(ps) + [final] == s;
    } else {
      assert s[1..][1..] == tail;
      ReadParameters(bottom, st, false, [], [ESC, '['], ps, final);
      assert [ESC, '['] + Join(ps) + [final] == s;
    }
  }

  lemma {:induction false} JoinIsPlain(ps: seq<string>)
    requires ps != [] && AllDigits(ps)
    ensures '\r' !in Join(ps)
  {
    if |ps| > 1 {
      JoinIsPlain(ps[1..]);
    }
    assert '\r' !in ps[0];
  }

  lemma {:induction false} CutsInside(chunks: seq<string>, i: nat)
    requires i < |chunks| - 1 && chunks[i] != []
    ensures Concat(chunks) != []
    ensures (exists k :: i < k < |chunks| && chunks[k] != []) ==>
              chunks[i][|chunks[i]| - 1] in Concat(chunks)[..|Concat(chunks)| - 1]
    decreases |chunks|
  {
    var last, rest := chunks[i][|chunks[i]| - 1], Concat(chunks[1..]);
    var all := Concat(chunks);
    assert all == chunks[0] + rest;
    if i == 0 {
      if exists k :: 0 < k < |chunks| && chunks[k] != [] {
        var k :| 0 < k < |chunks| && chunks[k] != [];
        assert chunks[1..][k - 1] != [];
        ConcatNonEmpty(chunks[1..], k - 1);
        assert all[|chunks[0]| - 1] == last;
        assert all[..|all| - 1][|chunks[0]| - 1] == last;
      }
    } else {
      CutsInside(chunks[1..], i - 1);
      if exists k :: i < k < |chunks| && chunks[k] != [] {
        var k :| i < k < |chunks| && chunks[k] != [];
        assert chunks[1..][k - 1] != [];
        var j :| 0 <= j < |rest| - 1 && rest[..|rest| - 1][j] == last;
        assert all[..|all| - 1][|chunks[0]| + j] == last;
      }
    }
  }

  lemma {:induction false} ConcatNonEmpty(chunks: seq<string>, k: nat)
    requires k < |chunks| && chunks[k] != []
    ensures Concat(chunks) != []
  {
    if k > 0 {
      ConcatNonEmpty(chunks[1..], k - 1);
    }
  }

  /** ... in however many pieces the sequence arrives, the last one not empty. */
  lemma ControlInPieces(bottom: Bottom, st: Scan, question: bool, ps: seq<string>, final: char, chunks: seq<string>)
    requires st.mode.Initial? && ps != [] && AllDigits(ps) && IsFinal(final)
    requires chunks != [] && chunks[|chunks| - 1] != [] && Concat(chunks) == Sequence(question, ps, final)
    ensures RunChunks(bottom, st, chunks)
         == Do(st, Control(question, Values(ps), final, Sequence(question, ps, final)))
  {
    hide Concat, Join, RunChunks, Scanner.Run;
    var s := Sequence(question, ps, final);
    JoinIsPlain(ps);
    assert '\r' !in s[..|s| - 1];
    forall i | 0 <= i < |chunks| - 1 && chunks[i] != []
      ensures chunks[i][|chunks[i]| - 1] != '\r'
    {
      CutsInside(chunks, i);
    }
    AnyChunks(bottom, st, chunks);
    ControlRoundTrip(bottom, st, question, ps, final);
  }

  // ---------------------------------------------------------------- what parameters mean

  /** A number written out in decimal. */
  function Written(n: nat): (ds: string)
    ensures Digits(ds) && ds != []
  {
    var d := ['0' + (n % 10) as char];
    if n < 10 then d else Written(n / 10) + d
  }

  lemma {:induction false} DecimalSnoc(value: nat, ds: string, c: char)
    requires Digits(ds) && IsDigit(c)
    ensures Digits(ds + [c]) && Decimal(value, ds + [c]) == 10 * Decimal(value, ds) + DigitValue(c)
    decreases |ds|
  {
    hide DigitValue;
    if ds == [] {
      assert ds + [c] == [c] && [c][1..] == [];
    } else {
      assert (ds + [c])[1..] == ds[1..] + [c];
      DecimalSnoc(10 * value + DigitValue(ds[0]), ds[1..], c);
    }
  }

  /** What is written out in decimal reads as itself. */
  lemma {:induction false} DecimalRoundTrip(n: nat)
    ensures Decimal(0, Written(n)) == n
  {
    var c := '0' + (n % 10) as char;
    assert DigitValue(c) == n % 10;
    hide DigitValue;
    if n < 10 {
      assert Written(n) == [] + [c];
      DecimalSnoc(0, [], c);
    } else {
      DecimalRoundTrip(n / 10);
      DecimalSnoc(0, Written(n / 10), c);
    }
  }

  /** A parameter written out in decimal reaches the handler as that number, an empty one as -1. */
  lemma ValuesMean(ps: seq<string>, i: nat, n: nat)
    requires AllDigits(ps) && i < |ps| && n < 0x8000_0000
    ensures ps[i] == [] ==> Values(ps)[i] == -1
    ensures ps[i] == Written(n) ==> Values(ps)[i] == n
  {
    if ps[i] == Written(n) {
      hide Numeral;
      DecimalRoundTrip(n);
      NumeralExact(ps[i]);
    }
  }

  lemma {:induction false} ReadCode(bottom: Bottom, st: Scan, cur: int, raw: string, ds: string, rest: string)
    requires Digits(ds)
    ensures Scanner.Run(bottom, st.(mode := RBracket(cur, raw)), ds + rest)
         == Scanner.Run(bottom, st.(mode := RBracket(Numeral(cur, ds), raw + ds)), rest)
    decreases |ds|
  {
    hide Accumulate, Scanner.Run;
    if ds == [] {
      assert ds + rest == rest && raw + ds == raw;
    } else {
      var s := ds + rest;
      assert s[1..] == ds[1..] + rest && raw + ds == (raw + [ds[0]]) + ds[1..];
      RunStep(bottom, st.(mode := RBracket(cur, raw)), s);
      ReadCode(bottom, st, Accumulate(cur, ds[0]), raw + [ds[0]], ds[1..], rest);
    }
  }

  lemma {:induction false} ReadText(bottom: Bottom, st: Scan, cur: int, text: string, raw: string, more: string, end: char)
    requires '\U{07}' !in more && '\U{00}' !in more && (end == '\U{07}' || end == '\U{00}')
    ensures Scanner.Run(bottom, st.(mode := TextParameter(cur, text, raw)), more + [end])
         == Do(st, OperatingSystem(cur, text + more, raw + more + [end]))
    decreases |more|
  {
    hide Scanner.Run;
    var now, s := st.(mode := TextParameter(cur, text, raw)), more + [end];
    RunStep(bottom, now, s);
    if more == [] {
      assert s[1..] == [] && text + more == text && raw + more == raw;
      RunEmpty(bottom, Step(now, end));
    } else {
      assert more[0] in more && s[1..] == more[1..] + [end];
      ReadText(bottom, st, cur, text + [more[0]], raw + [more[0]], more[1..], end);
      assert text + more == (text + [more[0]]) + more[1..] && raw + more == (raw + [more[0]]) + more[1..];
    }
  }

  /** An operating system command: ESC ] a number ; any text, and BEL or NUL behind it (section 8.3.89 of
      ECMA-48) reach the handler as that number and that text. */
  lemma CommandRoundTrip(bottom: Bottom, st: Scan, ds: string, text: string, end: char)
    requires st.mode.Initial? && Digits(ds) && '\U{07}' !in text && '\U{00}' !in text
    requires end == '\U{07}' || end == '\U{00}'
    ensures var s := ['\U{1b}', ']'] + ds + [';'] + text + [end];
            Scanner.Run(bottom, st, s) == Do(st, OperatingSystem(Numeral(-1, ds), text, s))
  {
    hide Scanner.Run, Numeral;
    var s := ['\U{1b}', ']'] + ds + [';'] + text + [end];
    var esc, tail := st.(mode := SeenEsc), [';'] + (text + [end]);
    RunStep(bottom, st, s);
    assert s[1..][1..] == ds + tail;
    RunStep(bottom, esc, s[1..]);
    var open := st.(mode := RBracket(-1, ['\U{1b}', ']']));
    assert Step(esc, ']') == open;
    ReadCode(bottom, st, -1, ['\U{1b}', ']'], ds, tail);
    var code, raw := Numeral(-1, ds), ['\U{1b}', ']'] + ds;
    RunStep(bottom, st.(mode := RBracket(code, raw)), tail);
    assert tail[1..] == text + [end];
    ReadText(bottom, st, code, [], raw + [';'], text, end);
    assert [] + text == text && raw + [';'] + text + [end] == s;
  }

  /** Any other character behind ESC ends the sequence there. */
  lemma EscapeMeans(bottom: Bottom, st: Scan, c: char)
    requires st.mode.Initial? && c != '[' && c != ']'
    ensures Scanner.Run(bottom, st, ['\U{1b}', c]) == Do(st, Escape(c))
  {
    hide Scanner.Run;
    var s := ['\U{1b}', c];
    RunStep(bottom, st, s);
    assert s[1..] == [c] && [c][1..] == [];
    RunStep(bottom, st.(mode := SeenEsc), s[1..]);
    RunEmpty(bottom, Do(st, Escape(c)));
  }
}
