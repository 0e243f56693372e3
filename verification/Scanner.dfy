/** The escape-sequence scanner of WebTerminal's insertString, first as a function of the characters,
    then as the loop that runs over chunks of output with its growing parameter array. */
module Scanner {

  const ESC: char := '\U{1b}'
  const BEL: char := '\U{07}'
  const NUL: char := '\U{00}'
  const BS: char := '\U{08}'

  /** What the scanner asks the terminal to do. Text is one action per character: where the scanner cuts
      its runs is no concern of the terminal. Sequences carry the characters they were made of. */
  datatype Action =
    | Put(c: char)
    | CarriageReturn
    | CarriageReturnLineFeed
    | LineFeed
    | Backspace
    | Bell
    | Tab
    | Escape(c: char)                                              // ESC 7, ESC 8, ESC M; others do nothing
    | Control(question: bool, params: seq<int>, final: char, raw: string)
    | OperatingSystem(code: int, text: string, raw: string)
    | Aborted(raw: string)                                         // ESC ] cut short

  datatype Mode =
    | Initial
    | SeenEsc
    | Bracket(question: bool, prev: seq<int>, cur: int, raw: string)
    | RBracket(cur: int, raw: string)
    | TextParameter(cur: int, text: string, raw: string)

  datatype Scan = Scan(mode: Mode, history: seq<Action>)

  /** Whether the cursor is on the last line of the scroll region after some actions. */
  type Bottom = seq<Action> -> bool

  /** Java int arithmetic. */
  function Wrap(x: int): (r: int)
    ensures -0x8000_0000 <= r < 0x8000_0000
    ensures -0x8000_0000 <= x < 0x8000_0000 ==> r == x
  {
    (x + 0x8000_0000) % 0x1_0000_0000 - 0x8000_0000
  }

  predicate IsDigit(c: char) {
    '0' <= c <= '9'
  }

  function DigitValue(c: char): (d: nat)
    requires IsDigit(c)
    ensures d <= 9
  {
    c as int - '0' as int
  }

  /** One more digit of a parameter; -1 stands for none so far. */
  function Accumulate(cur: int, c: char): int
    requires IsDigit(c)
  {
    Wrap((if cur >= 0 then Wrap(10 * cur) else 0) + DigitValue(c))
  }

  // ---------------------------------------------------------------- one character

  function Do(st: Scan, a: Action): Scan {
    Scan(Initial, st.history + [a])
  }

  function Plain(c: char): Action {
    if c == '\r' then CarriageReturn
    else if c == '\n' then LineFeed
    else if c == BS then Backspace
    else if c == BEL then Bell
    else if c == '\t' then Tab
    else Put(c)
  }

  /** Every character but the line feed of a pair. */
  function Step(st: Scan, c: char): Scan {
    match st.mode
    case Initial => if c == ESC then st.(mode := SeenEsc) else Do(st, Plain(c))
    case SeenEsc =>
      if c == '[' then st.(mode := Bracket(false, [], -1, [ESC, c]))
      else if c == ']' then st.(mode := RBracket(-1, [ESC, c]))
      else Do(st, Escape(c))
    case Bracket(question, prev, cur, raw) =>
      if IsDigit(c) then st.(mode := Bracket(question, prev, Accumulate(cur, c), raw + [c]))
      else if c == ';' then st.(mode := Bracket(question, prev + [cur], -1, raw + [c]))
      else if c == '?' then st.(mode := Bracket(true, prev, cur, raw + [c]))
      else Do(st, Control(question, prev + [cur], c, raw + [c]))
    case RBracket(cur, raw) =>
      if IsDigit(c) then st.(mode := RBracket(Accumulate(cur, c), raw + [c]))
      else if c == ';' then st.(mode := TextParameter(cur, [], raw + [c]))
      else Do(st, Aborted(raw + [c]))
    case TextParameter(cur, text, raw) =>
      if c == BEL || c == NUL then Do(st, OperatingSystem(cur, text, raw + [c]))
      else st.(mode := TextParameter(cur, text + [c], raw + [c]))
  }

  /** A carriage return and line feed taken together. */
  predicate Pair(bottom: Bottom, st: Scan, s: string) {
    |s| >= 2 && s[0] == '\r' && s[1] == '\n' && st.mode.Initial? && !bottom(st.history)
  }

  /** One chunk of output. */
  function Run(bottom: Bottom, st: Scan, s: string): Scan
    decreases |s|
  {
    if s == [] then st
    else if Pair(bottom, st, s) then Run(bottom, Do(st, CarriageReturnLineFeed), s[2..])
    else Run(bottom, Step(st, s[0]), s[1..])
  }

  // ---------------------------------------------------------------- nothing is lost

  function Raw(a: Action): string {
    match a
    case Put(c) => [c]
    case CarriageReturn => ['\r']
    case CarriageReturnLineFeed => ['\r', '\n']
    case LineFeed => ['\n']
    case Backspace => [BS]
    case Bell => [BEL]
    case Tab => ['\t']
    case Escape(c) => [ESC, c]
    case Control(_, _, _, raw) => raw
    case OperatingSystem(_, _, raw) => raw
    case Aborted(raw) => raw
  }

  function RawAll(history: seq<Action>): string {
    if history == [] then [] else Raw(history[0]) + RawAll(history[1..])
  }

  function Pending(m: Mode): string {
    match m
    case Initial => []
    case SeenEsc => [ESC]
    case Bracket(_, _, _, raw) => raw
    case RBracket(_, raw) => raw
    case TextParameter(_, _, raw) => raw
  }

  /** The characters a scanner state accounts for. */
  function Consumed(st: Scan): string {
    RawAll(st.history) + Pending(st.mode)
  }

  lemma {:induction false} RawSnoc(history: seq<Action>, a: Action)
    ensures RawAll(history + [a]) == RawAll(history) + Raw(a)
  {
    if history == [] {
      assert history + [a] == [a] && RawAll([]) == [];
    } else {
      assert (history + [a])[1..] == history[1..] + [a];
      RawSnoc(history[1..], a);
    }
  }

  lemma StepConsumes(st: Scan, c: char)
    ensures Consumed(Step(st, c)) == Consumed(st) + [c]
  {
    hide Accumulate, RawAll;
    var next := Step(st, c);
    if next.history != st.history {
      var a := next.history[|st.history|];
      RawSnoc(st.history, a);
      assert next.history == st.history + [a];
      assert Raw(a) == Pending(st.mode) + [c];
    }
  }

  /** Conservation: every character lands in exactly one action or is still pending, in order. */
  lemma {:induction false} RunConsumes(bottom: Bottom, st: Scan, s: string)
    ensures Consumed(Run(bottom, st, s)) == Consumed(st) + s
    decreases |s|
  {
    hide Consumed, Step;
    if s != [] {
      if Pair(bottom, st, s) {
        PairConsumes(st);
        RunConsumes(bottom, Do(st, CarriageReturnLineFeed), s[2..]);
        assert s == "\r\n" + s[2..];
      } else {
        StepConsumes(st, s[0]);
        RunConsumes(bottom, Step(st, s[0]), s[1..]);
        assert s == [s[0]] + s[1..];
      }
    }
  }

  lemma PairConsumes(st: Scan)
    requires st.mode.Initial?
    ensures Consumed(Do(st, CarriageReturnLineFeed)) == Consumed(st) + "\r\n"
  {
    RawSnoc(st.history, CarriageReturnLineFeed);
  }

  // ---------------------------------------------------------------- chunks

  lemma {:induction false} HistoryGrows(bottom: Bottom, st: Scan, s: string)
    ensures st.history <= Run(bottom, st, s).history
    decreases |s|
  {
    if s != [] {
      if Pair(bottom, st, s) {
        HistoryGrows(bottom, Do(st, CarriageReturnLineFeed), s[2..]);
      } else {
        assert st.history <= Step(st, s[0]).history by { hide Accumulate; }
        HistoryGrows(bottom, Step(st, s[0]), s[1..]);
      }
    }
  }

  /** The cut falls between a carriage return and a line feed that would have been taken together. */
  predicate Splits(bottom: Bottom, st: Scan, a: string, b: string) {
    && a != [] && b != [] && a[|a| - 1] == '\r' && b[0] == '\n'
    && Pair(bottom, Run(bottom, st, a[..|a| - 1]), "\r\n")
  }

  lemma RunPair(bottom: Bottom, st: Scan, s: string)
    requires Pair(bottom, st, s)
    ensures Run(bottom, st, s) == Run(bottom, Do(st, CarriageReturnLineFeed), s[2..])
  {
  }

  lemma RunStep(bottom: Bottom, st: Scan, s: string)
    requires s != [] && !Pair(bottom, st, s)
    ensures Run(bottom, st, s) == Run(bottom, Step(st, s[0]), s[1..])
  {
  }

  /** The chunking law: feeding two chunks has the effect of feeding them as one if and only if the
      cut does not split a pair. */
  lemma {:induction false} ChunkingExact(bottom: Bottom, st: Scan, a: string, b: string)
    ensures Run(bottom, st, a + b) == Run(bottom, Run(bottom, st, a), b) <==> !Splits(bottom, st, a, b)
    decreases |a|
  {
    hide Run, Step, Do, Pair;
    if a == [] {
      assert a + b == b;
      assert Run(bottom, st, a) == st by { RunEmpty(bottom, st); }
    } else if |a| == 1 {
      LastChar(bottom, st, a, b);
    } else if Pair(bottom, st, a) {
      assert Pair(bottom, st, a + b) by { PairPrefix(bottom, st, a, a + b); }
      RunPair(bottom, st, a);
      RunPair(bottom, st, a + b);
      assert (a + b)[2..] == a[2..] + b;
      ChunkingExact(bottom, Do(st, CarriageReturnLineFeed), a[2..], b);
      SplitsAfterPair(bottom, st, a, b);
    } else {
      assert !Pair(bottom, st, a + b) by { PairPrefix(bottom, st, a, a + b); }
      RunStep(bottom, st, a);
      RunStep(bottom, st, a + b);
      assert (a + b)[1..] == a[1..] + b;
      ChunkingExact(bottom, Step(st, a[0]), a[1..], b);
      SplitsAfterStep(bottom, st, a, b);
    }
  }

  lemma RunEmpty(bottom: Bottom, st: Scan)
    ensures Run(bottom, st, []) == st
  {
  }

  lemma PairPrefix(bottom: Bottom, st: Scan, a: string, s: string)
    requires |a| >= 2 && a <= s
    ensures Pair(bottom, st, a) <==> Pair(bottom, st, s)
  {
  }

  /** Whether a later cut splits a pair does not depend on how the beginning was read. */
  lemma SplitsAfterPair(bottom: Bottom, st: Scan, a: string, b: string)
    requires Pair(bottom, st, a)
    ensures Splits(bottom, st, a, b) <==> Splits(bottom, Do(st, CarriageReturnLineFeed), a[2..], b)
  {
    hide Run, Do;
    if |a| > 2 {
      assert a[..|a| - 1][2..] == a[2..][..|a[2..]| - 1];
      PairPrefix(bottom, st, a[..|a| - 1], a);
      RunPair(bottom, st, a[..|a| - 1]);
    }
  }

  lemma SplitsAfterStep(bottom: Bottom, st: Scan, a: string, b: string)
    requires |a| >= 2 && !Pair(bottom, st, a)
    ensures Splits(bottom, st, a, b) <==> Splits(bottom, Step(st, a[0]), a[1..], b)
  {
    hide Run, Step;
    var front := a[..|a| - 1];
    assert front[1..] == a[1..][..|a[1..]| - 1];
    assert !Pair(bottom, st, front) by {
      if |front| >= 2 {
        PairPrefix(bottom, st, front, a);
      }
    }
    RunStep(bottom, st, front);
  }

  /** The cut behind a single character. */
  lemma LastChar(bottom: Bottom, st: Scan, a: string, b: string)
    requires |a| == 1
    ensures Run(bottom, st, a + b) == Run(bottom, Run(bottom, st, a), b) <==> !Splits(bottom, st, a, b)
  {
    hide Run, Step, Do;
    assert a[1..] == [] && a[..0] == [] && (a + b)[1..] == b;
    RunEmpty(bottom, st);
    RunEmpty(bottom, Step(st, a[0]));
    RunStep(bottom, st, a);
    if Pair(bottom, st, a + b) {
      assert Splits(bottom, st, a, b);
      RunPair(bottom, st, a + b);
      HistoryGrows(bottom, Do(st, CarriageReturnLineFeed), (a + b)[2..]);
      HistoryGrows(bottom, Step(st, a[0]), b);
      PairDiffers(st);
    } else {
      RunStep(bottom, st, a + b);
      assert !Splits(bottom, st, a, b);
    }
  }

  lemma PairDiffers(st: Scan)
    requires st.mode.Initial?
    ensures var n := |st.history|;
            && |Do(st, CarriageReturnLineFeed).history| == |Step(st, '\r').history| == n + 1
            && Do(st, CarriageReturnLineFeed).history[n] != Step(st, '\r').history[n]
  {
  }

  /** A concrete split pair: the terminal sees a line feed of its own. */
  lemma SplitPairDiffers(bottom: Bottom)
    requires !bottom([])
    ensures Run(bottom, Scan(Initial, []), "\r\n").history == [CarriageReturnLineFeed]
    ensures Run(bottom, Run(bottom, Scan(Initial, []), "\r"), "\n").history == [CarriageReturn, LineFeed]
  {
    var st := Scan(Initial, []);
    assert "\r\n"[2..] == [] && "\r"[1..] == [] && "\n"[1..] == [];
    assert [] + [CarriageReturnLineFeed] == [CarriageReturnLineFeed];
    assert Run(bottom, st, "\r") == Scan(Initial, [CarriageReturn]);
  }

  // ---------------------------------------------------------------- what characters do

  /** Only characters that are no control characters of the scanner are printed, in whatever sequence they
      come; with conservation, each of the others has its own action. */
  lemma {:induction false} PrintedMeans(bottom: Bottom, st: Scan, s: string)
    requires AllPrintable(st.history)
    ensures AllPrintable(Run(bottom, st, s).history)
    decreases |s|
  {
    hide Accumulate;
    if s != [] {
      if Pair(bottom, st, s) {
        assert Printable(CarriageReturnLineFeed);
        PrintedMeans(bottom, Do(st, CarriageReturnLineFeed), s[2..]);
      } else {
        PrintedMeans(bottom, Step(st, s[0]), s[1..]);
      }
    }
  }

  predicate AllPrintable(history: seq<Action>) {
    forall i :: 0 <= i < |history| ==> Printable(history[i])
  }

  predicate Printable(a: Action) {
    a.Put? ==> a.c !in {'\U{07}', '\U{08}', '\U{09}', '\U{0a}', '\U{0d}', '\U{1b}'}
  }

  /** A carriage return and a line feed in one chunk: taken together, but on the last line of the region. */
  lemma PairMeans(bottom: Bottom, st: Scan)
    requires st.mode.Initial?
    ensures Run(bottom, st, "\r\n").history
         == st.history + if bottom(st.history) then [CarriageReturn, LineFeed] else [CarriageReturnLineFeed]
    ensures Run(bottom, st, "\r\n").mode == Initial
  {
    assert "\r\n"[2..] == [] && "\r\n"[1..] == "\n" && "\n"[1..] == [];
    assert Step(st, '\r') == Do(st, CarriageReturn);
    assert Run(bottom, Do(st, CarriageReturn), "\n") == Do(Do(st, CarriageReturn), LineFeed);
  }

  /** Java arithmetic stays in range and is off by multiples of 2^32. */
  lemma WrapMeans(x: int, r: int)
    ensures r == Wrap(x) <==> -0x8000_0000 <= r < 0x8000_0000 && (x - r) % 0x1_0000_0000 == 0
  {
  }
}
