/** insertString as it runs: the state of an unfinished escape sequence in fields, parameters in an
    array that grows, text passed on in runs. It does what the scanner function says. */
module Terminal {
  import opened Scanner
  import opened Parameters

  const INITIAL_STATE := 0
  const SEEN_ESC_STATE := 1
  const SEEN_ESC_LBRACKET_STATE := 2
  const SEEN_ESC_LBRACKET_QUESTION_STATE := 3
  const SEEN_ESC_RBRACKET_STATE := 4
  const SEEN_ESC_BRACKET_TEXT_STATE := 5

  /** What is passed on: runs of text and single actions. */
  datatype Output = Text(s: string) | Act(a: Action)

  function Puts(s: string): (acts: seq<Action>)
    ensures |acts| == |s| && forall i :: 0 <= i < |s| ==> acts[i] == Put(s[i])
  {
    seq(|s|, i requires 0 <= i < |s| => Put(s[i]))
  }

  function Acts(o: Output): seq<Action> {
    match o
    case Text(s) => Puts(s)
    case Act(a) => [a]
  }

  function Flatten(outputs: seq<Output>): seq<Action> {
    if outputs == [] then [] else Flatten(outputs[..|outputs| - 1]) + Acts(outputs[|outputs| - 1])
  }

  lemma FlattenSnoc(outputs: seq<Output>, o: Output)
    ensures Flatten(outputs + [o]) == Flatten(outputs) + Acts(o)
  {
    assert (outputs + [o])[..|outputs|] == outputs;
  }

  /** The scanner with some plain text still to be passed on. */
  function WithText(st: Scan, s: string): Scan {
    st.(history := st.history + Puts(s))
  }

  predicate IsPlain(c: char) {
    c !in {'\r', '\n', BS, BEL, ESC, '\t'}
  }

  lemma MoreText(st: Scan, s: string, c: char)
    requires st.mode.Initial? && IsPlain(c)
    ensures Step(WithText(st, s), c) == WithText(st, s + [c])
  {
    assert Puts(s + [c]) == Puts(s) + [Put(c)];
  }

  lemma NoText(st: Scan)
    ensures WithText(st, []) == st
  {
    assert st.history + Puts([]) == st.history;
  }

  class Handler {
    const bottom: Bottom
    var state: int
    var prevParametersCount: nat
    var curNumParameter: int
    var prevNumParameters: array?<int>
    var curTextParameter: string
    /** The characters of the open sequence and everything passed on so far. */
    var raw: string
    var outputs: seq<Output>

    ghost function Repr(): set<object>
      reads this
    {
      {this} + if prevNumParameters == null then {} else {prevNumParameters}
    }

    predicate InBracket()
      reads this
    {
      state == SEEN_ESC_LBRACKET_STATE || state == SEEN_ESC_LBRACKET_QUESTION_STATE
    }

    /** The array exists only while a sequence is open, and has room for every parameter counted. */
    ghost predicate Valid()
      reads this
    {
      && 0 <= state <= 5
      && (!InBracket() ==> prevNumParameters == null)
      && (InBracket() && prevNumParameters == null ==> prevParametersCount == 0)
      && (prevNumParameters != null ==>
          4 <= prevNumParameters.Length && prevParametersCount <= prevNumParameters.Length)
    }

    function Parameters(): seq<int>
      requires prevNumParameters != null ==> prevParametersCount <= prevNumParameters.Length
      reads this, if prevNumParameters == null then {} else {prevNumParameters}
    {
      if prevNumParameters == null then [] else prevNumParameters[..prevParametersCount]
    }

    ghost function ModeNow(): Mode
      requires Valid()
      reads this, Repr()
    {
      match state
      case 0 => Initial
      case 1 => SeenEsc
      case 2 => Bracket(false, Parameters(), curNumParameter, raw)
      case 3 => Bracket(true, Parameters(), curNumParameter, raw)
      case 4 => RBracket(curNumParameter, raw)
      case _ => TextParameter(curNumParameter, curTextParameter, raw)
    }

    ghost function Now(): Scan
      requires Valid()
      reads this, Repr()
    {
      Scan(ModeNow(), Flatten(outputs))
    }

    constructor (atBottom: Bottom)
      ensures Valid() && fresh(Repr()) && bottom == atBottom && Now() == Scan(Initial, [])
    {
      bottom := atBottom;
      state, prevParametersCount, curNumParameter, prevNumParameters := INITIAL_STATE, 0, -1, null;
      curTextParameter, raw, outputs := [], [], [];
    }

    method InsertSimpleOutput(str: string, beginIndex: nat, endIndex: nat)
      requires Valid() && beginIndex <= endIndex <= |str|
      modifies `outputs
      ensures Valid() && Now() == WithText(old(Now()), str[beginIndex..endIndex])
    {
      hide Flatten;
      var sslen := endIndex - beginIndex;
      if sslen == 0 {
        NoText(Now());
        assert str[beginIndex..endIndex] == [];
        return;
      }
      FlattenSnoc(outputs, Text(str[beginIndex..endIndex]));
      outputs := outputs + [Text(str[beginIndex..endIndex])];
    }

    /** Pass on an action that ends a sequence. */
    method Finish(a: Action)
      requires Valid()
      modifies this
      ensures Valid() && Now() == Do(old(Now()), a) && prevNumParameters == null
    {
      hide Flatten;
      FlattenSnoc(outputs, Act(a));
      outputs := outputs + [Act(a)];
      prevNumParameters, state := null, INITIAL_STATE;
    }

    method AfterEsc(ch: char)
      requires Valid() && state == SEEN_ESC_STATE
      modifies this
      ensures Valid() && Now() == Step(old(Now()), ch) && fresh(Repr() - old(Repr()))
    {
      if ch == '[' {
        state, curNumParameter, prevParametersCount, raw := SEEN_ESC_LBRACKET_STATE, -1, 0, [ESC, ch];
      } else if ch == ']' {
        state, curNumParameter, prevParametersCount, raw := SEEN_ESC_RBRACKET_STATE, -1, 0, [ESC, ch];
      } else {
        Finish(Escape(ch));
      }
    }

    /** Another parameter: the array is created or doubled when it is full. */
    method PushParameter()
      requires Valid() && InBracket()
      modifies Repr()
      ensures Valid() && InBracket() && state == old(state) && raw == old(raw) && outputs == old(outputs)
      ensures Parameters() == old(Parameters()) + [old(curNumParameter)] && curNumParameter == -1
      ensures fresh(Repr() - old(Repr()))
    {
      ghost var before := Parameters();
      if prevNumParameters == null {
        prevNumParameters := new int[4];
      } else if prevNumParameters.Length <= prevParametersCount {
        var was := prevNumParameters;
        var longer := new int[2 * prevParametersCount];
        forall i | 0 <= i < was.Length {
          longer[i] := was[i];
        }
        prevNumParameters := longer;
      }
      assert prevNumParameters[..prevParametersCount] == before;
      prevNumParameters[prevParametersCount] := curNumParameter;
      curNumParameter := -1;
      prevParametersCount := prevParametersCount + 1;
      assert prevNumParameters[..prevParametersCount] == before + [old(curNumParameter)];
    }

    method AfterBracket(ch: char)
      requires Valid() && InBracket()
      modifies Repr()
      ensures Valid() && Now() == Step(old(Now()), ch) && fresh(Repr() - old(Repr()))
    {
      hide Accumulate, Flatten;
      if IsDigit(ch) {
        curNumParameter, raw := Accumulate(curNumParameter, ch), raw + [ch];
      } else if ch == ';' {
        PushParameter();
        raw := raw + [ch];
      } else if ch == '?' {
        state, raw := SEEN_ESC_LBRACKET_QUESTION_STATE, raw + [ch];
      } else {
        Finish(Control(state == SEEN_ESC_LBRACKET_QUESTION_STATE, Parameters() + [curNumParameter], ch, raw + [ch]));
      }
    }

    method AfterRBracket(ch: char)
      requires Valid() && state == SEEN_ESC_RBRACKET_STATE
      modifies this
      ensures Valid() && Now() == Step(old(Now()), ch) && fresh(Repr() - old(Repr()))
    {
      hide Accumulate, Flatten;
      if IsDigit(ch) {
        curNumParameter, raw := Accumulate(curNumParameter, ch), raw + [ch];
      } else if ch == ';' {
        state, curTextParameter, raw := SEEN_ESC_BRACKET_TEXT_STATE, [], raw + [ch];
      } else {
        Finish(Aborted(raw + [ch]));
      }
    }

    method InText(ch: char)
      requires Valid() && state == SEEN_ESC_BRACKET_TEXT_STATE
      modifies this
      ensures Valid() && Now() == Step(old(Now()), ch) && fresh(Repr() - old(Repr()))
    {
      hide Flatten;
      if ch == BEL || ch == NUL {
        Finish(OperatingSystem(curNumParameter, curTextParameter, raw + [ch]));
      } else {
        curTextParameter, raw := curTextParameter + [ch], raw + [ch];
      }
    }

    /** The cases of the switch in front of the initial one. */
    method InSequence(ch: char)
      requires Valid() && state != INITIAL_STATE
      modifies Repr()
      ensures Valid() && Now() == Step(old(Now()), ch) && fresh(Repr() - old(Repr()))
    {
      hide Step;
      if state == SEEN_ESC_STATE {
        AfterEsc(ch);
      } else if InBracket() {
        AfterBracket(ch);
      } else if state == SEEN_ESC_RBRACKET_STATE {
        AfterRBracket(ch);
      } else {
        InText(ch);
      }
    }

    /** A control character, with the text in front of it already passed on; a line feed behind a
        carriage return is taken with it unless the cursor is at the bottom. */
    method ControlCharacter(str: string, i: nat) returns (next: nat)
      requires Valid() && state == INITIAL_STATE && i < |str| && !IsPlain(str[i])
      modifies this
      ensures Valid() && fresh(Repr() - old(Repr())) && i < next <= |str|
      ensures Scanner.Run(bottom, old(Now()), str[i..]) == Scanner.Run(bottom, Now(), str[next..])
    {
      hide Flatten, Scanner.Run;
      var ch := str[i];
      assert str[i..][1..] == str[i + 1..];
      if ch == '\r' && i + 1 < |str| && str[i + 1] == '\n' && !bottom(Flatten(outputs)) {
        assert str[i..][2..] == str[i + 2..];
        RunPair(bottom, Now(), str[i..]);
        Finish(CarriageReturnLineFeed);
        return i + 2;
      }
      RunStep(bottom, Now(), str[i..]);
      if ch == ESC {
        state := SEEN_ESC_STATE;
      } else {
        Finish(Plain(ch));
      }
      next := i + 1;
    }

    /** One chunk of output: the handler ends up where the scanner does, and what it has passed on is
        what the scanner asks for, whatever sequence was open at the start. */
    method InsertString(str: string)
      requires Valid()
      modifies Repr()
      ensures Valid() && fresh(Repr() - old(Repr()))
      ensures Now() == Scanner.Run(bottom, old(Now()), str)
    {
      hide Flatten, Step, Scanner.Run;
      var prevEnd, i := 0, 0;
      NoText(Now());
      assert str[0..] == str && str[0..0] == [];
      while i < |str|
        invariant prevEnd <= i <= |str| && Valid() && fresh(Repr() - old(Repr()))
        invariant Scanner.Run(bottom, old(Now()), str)
               == Scanner.Run(bottom, WithText(Now(), if state == INITIAL_STATE then str[prevEnd..i] else []), str[i..])
        decreases |str| - i
      {
        var ch := str[i];
        assert str[i..][1..] == str[i + 1..];
        if state != INITIAL_STATE {
          NoText(Now());
          RunStep(bottom, Now(), str[i..]);
          InSequence(ch);
          i := i + 1;
          if state == INITIAL_STATE {
            prevEnd := i;
          }
          NoText(Now());
        } else if IsPlain(ch) {
          var text := str[prevEnd..i];
          RunStep(bottom, WithText(Now(), text), str[i..]);
          MoreText(Now(), text, ch);
          assert str[prevEnd..i + 1] == text + [ch];
          i := i + 1;
        } else {
          InsertSimpleOutput(str, prevEnd, i);
          i := ControlCharacter(str, i);
          prevEnd := i;
          assert str[prevEnd..i] == [];
          NoText(Now());
        }
      }
      assert str[i..] == [];
      RunEmpty(bottom, WithText(Now(), if state == INITIAL_STATE then str[prevEnd..i] else []));
      if state == INITIAL_STATE {
        InsertSimpleOutput(str, prevEnd, i);
      } else {
        NoText(Now());
      }
    }
  }

  /** Whole sessions: chunk after chunk through one handler. */
  method Session(bottom: Bottom, chunks: seq<string>) returns (outputs: seq<Output>)
    ensures Flatten(outputs) == RunChunks(bottom, Scan(Initial, []), chunks).history
  {
    hide Flatten, Scanner.Run;
    var h := new Handler(bottom);
    ghost var all := RunChunks(bottom, Scan(Initial, []), chunks);
    var i := 0;
    assert chunks[0..] == chunks;
    while i < |chunks|
      invariant i <= |chunks| && h.Valid() && fresh(h.Repr()) && h.bottom == bottom
      invariant RunChunks(bottom, h.Now(), chunks[i..]) == all
    {
      assert chunks[i..][1..] == chunks[i + 1..];
      h.InsertString(chunks[i]);
      i := i + 1;
    }
    assert chunks[i..] == [];
    outputs := h.outputs;
  }
}
