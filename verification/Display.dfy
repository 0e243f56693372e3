/** From raw output to rendered characters: text and SGR sequences, cut into chunks in any way, scanned by
    the handler and printed through the style spans, show every character with the properties the
    sequences in front of it ask for. */
module Display {
  import opened Words
  import opened Scanner
  import opened Properties
  import opened Rendering
  import P = Parameters
  import S = Styles
  import T = Terminal

  // ---------------------------------------------------------------- what actions show

  /** Text and SGR: the actions that print and style. */
  predicate Shows(a: Action) {
    a.Put? || (a.Control? && a.final == 'm')
  }

  predicate AllShow(acts: seq<Action>) {
    forall i :: 0 <= i < |acts| ==> Shows(acts[i])
  }

  function EventsOf(outputs: seq<T.Output>): seq<Event> {
    if outputs == [] then [] else EventOf(outputs[0]) + EventsOf(outputs[1..])
  }

  function EventOf(o: T.Output): seq<Event> {
    match o
    case Text(s) => [Print(s)]
    case Act(a) => ActionEvents(a)
  }

  function ActionEvents(a: Action): seq<Event> {
    if a.Put? then [Print([a.c])] else if a.Control? && a.final == 'm' then [Sgr(a.params)] else []
  }

  /** What a list of actions shows, character by character. */
  function ShownActions(styles: seq<string>, acts: seq<Action>): seq<Rendered>
    decreases |acts|
  {
    if acts == [] then [] else
    var a, rest := acts[0], acts[1..];
    if a.Put? then [Rendered(Some(a.c), styles)] + ShownActions(styles, rest)
    else if a.Control? && a.final == 'm' then ShownActions(Rendition(styles, a.params), rest)
    else ShownActions(styles, rest)
  }

  lemma {:induction false} ShownText(styles: seq<string>, s: string, rest: seq<Action>)
    ensures ShownActions(styles, T.Puts(s) + rest) == Typed(s, styles) + ShownActions(styles, rest)
    decreases |s|
  {
    var acts := T.Puts(s) + rest;
    if s == [] {
      assert acts == rest && Typed(s, styles) == [];
      assert [] + ShownActions(styles, rest) == ShownActions(styles, rest);
    } else {
      assert acts[1..] == T.Puts(s[1..]) + rest;
      ShownText(styles, s[1..], rest);
      assert Typed(s, styles) == [Rendered(Some(s[0]), styles)] + Typed(s[1..], styles);
    }
  }

  lemma {:induction false} FlattenCons(outputs: seq<T.Output>)
    requires outputs != []
    ensures T.Flatten(outputs) == T.Acts(outputs[0]) + T.Flatten(outputs[1..])
    decreases |outputs|
  {
    hide T.Acts, T.Flatten;
    var front, last := outputs[..|outputs| - 1], outputs[|outputs| - 1];
    assert outputs == front + [last];
    T.FlattenSnoc(front, last);
    NothingFlat();
    if front == [] {
      assert outputs[1..] == [];
    } else {
      assert outputs[1..] == front[1..] + [last];
      T.FlattenSnoc(front[1..], last);
      FlattenCons(front);
    }
  }

  /** Printing the runs shows what the single characters show: where runs are cut does not matter. */
  lemma {:induction false} OutputsShow(styles: seq<string>, outputs: seq<T.Output>)
    ensures Shown(styles, EventsOf(outputs)) == ShownActions(styles, T.Flatten(outputs))
    decreases |outputs|
  {
    hide T.Flatten, Rendition, Typed;
    if outputs == [] {
      assert T.Flatten(outputs) == [] by { NothingFlat(); }
    } else {
      var o, rest := outputs[0], outputs[1..];
      FlattenCons(outputs);
      EventsCons(outputs);
      match o {
        case Text(s) =>
          ShownText(styles, s, T.Flatten(rest));
          OutputsShow(styles, rest);
        case Act(a) =>
          assert (T.Acts(o) + T.Flatten(rest))[1..] == T.Flatten(rest);
          OutputsShow(if a.Control? && a.final == 'm' then Rendition(styles, a.params) else styles, rest);
          if a.Put? {
            OneTyped(a.c, styles);
          }
      }
    }
  }

  lemma NothingFlat()
    ensures T.Flatten([]) == []
  {
  }

  lemma OneTyped(c: char, styles: seq<string>)
    ensures Typed([c], styles) == [Rendered(Some(c), styles)]
  {
  }

  lemma EventsCons(outputs: seq<T.Output>)
    requires outputs != []
    ensures var es, rest := EventsOf(outputs), EventsOf(outputs[1..]);
            && es == EventOf(outputs[0]) + rest
            && (EventOf(outputs[0]) == [] ==> es == rest)
            && (|EventOf(outputs[0])| == 1 ==> es != [] && es[0] == EventOf(outputs[0])[0] && es[1..] == rest)
  {
  }

  // ---------------------------------------------------------------- raw output

  /** Raw output of the styled kind: plain text and SGR sequences with any parameters. */
  datatype Segment = Plain(text: string) | Select(params: seq<string>)

  predicate SegmentOk(g: Segment) {
    match g
    case Plain(text) => forall i :: 0 <= i < |text| ==> T.IsPlain(text[i])
    case Select(ps) => ps != [] && P.AllDigits(ps)
  }

  predicate AllOk(gs: seq<Segment>) {
    forall i :: 0 <= i < |gs| ==> SegmentOk(gs[i])
  }

  function Encode(g: Segment): string
    requires SegmentOk(g)
  {
    match g
    case Plain(text) => text
    case Select(ps) => P.Sequence(false, ps, 'm')
  }

  function EncodeAll(gs: seq<Segment>): string
    requires AllOk(gs)
  {
    if gs == [] then [] else Encode(gs[0]) + EncodeAll(gs[1..])
  }

  function SegmentEvent(g: Segment): Event
    requires SegmentOk(g)
  {
    match g
    case Plain(text) => Print(text)
    case Select(ps) => Sgr(P.Values(ps))
  }

  function SegmentEvents(gs: seq<Segment>): seq<Event>
    requires AllOk(gs)
  {
    if gs == [] then [] else [SegmentEvent(gs[0])] + SegmentEvents(gs[1..])
  }

  function SegmentActions(gs: seq<Segment>): seq<Action>
    requires AllOk(gs)
  {
    if gs == [] then [] else
    (match gs[0]
     case Plain(text) => T.Puts(text)
     case Select(ps) => [Control(false, P.Values(ps), 'm', P.Sequence(false, ps, 'm'))])
    + SegmentActions(gs[1..])
  }

  lemma {:induction false} ScanText(bottom: Bottom, st: Scan, s: string)
    requires st.mode.Initial? && forall i :: 0 <= i < |s| ==> T.IsPlain(s[i])
    ensures Scanner.Run(bottom, st, s) == T.WithText(st, s)
    decreases |s|
  {
    hide Scanner.Run, Step, T.WithText;
    if s == [] {
      RunEmpty(bottom, st);
      T.NoText(st);
    } else {
      RunStep(bottom, st, s);
      T.NoText(st);
      T.MoreText(st, [], s[0]);
      assert [] + [s[0]] == [s[0]];
      MoreText(st, s);
      ScanText(bottom, T.WithText(st, [s[0]]), s[1..]);
    }
  }

  lemma MoreText(st: Scan, s: string)
    requires s != []
    ensures T.WithText(T.WithText(st, [s[0]]), s[1..]) == T.WithText(st, s)
    ensures T.WithText(st, [s[0]]).mode == st.mode
  {
    assert T.Puts(s) == T.Puts([s[0]]) + T.Puts(s[1..]);
    assert st.history + T.Puts([s[0]]) + T.Puts(s[1..]) == st.history + (T.Puts([s[0]]) + T.Puts(s[1..]));
  }

  lemma ScanSegment(bottom: Bottom, st: Scan, g: Segment)
    requires st.mode.Initial? && SegmentOk(g)
    ensures Scanner.Run(bottom, st, Encode(g)) == st.(history := st.history + SegmentActions([g]))
    ensures Encode(g) != [] ==> Encode(g)[|Encode(g)| - 1] != '\r'
  {
    hide Scanner.Run;
    assert [g][1..] == [];
    match g {
      case Plain(text) =>
        ScanText(bottom, st, text);
        assert SegmentActions([g]) == T.Puts(text) + [] == T.Puts(text);
      case Select(ps) =>
        P.ControlRoundTrip(bottom, st, false, ps, 'm');
        var a := Control(false, P.Values(ps), 'm', P.Sequence(false, ps, 'm'));
        assert SegmentActions([g]) == [a] + [] == [a];
    }
  }

  /** The scanner turns styled output into its actions. */
  lemma {:induction false} ScanSegments(bottom: Bottom, st: Scan, gs: seq<Segment>)
    requires st.mode.Initial? && AllOk(gs)
    ensures Scanner.Run(bottom, st, EncodeAll(gs)) == st.(history := st.history + SegmentActions(gs))
    decreases |gs|
  {
    hide Scanner.Run, SegmentOk, Encode;
    if gs == [] {
      RunEmpty(bottom, st);
      assert st.history + [] == st.history;
    } else {
      var g, rest := gs[0], gs[1..];
      ScanSegment(bottom, st, g);
      ChunkingExact(bottom, st, Encode(g), EncodeAll(rest));
      var st1 := st.(history := st.history + SegmentActions([g]));
      ScanSegments(bottom, st1, rest);
      SegmentsCons(gs);
      assert st.history + SegmentActions([g]) + SegmentActions(rest)
          == st.history + (SegmentActions([g]) + SegmentActions(rest));
    }
  }

  lemma SegmentsCons(gs: seq<Segment>)
    requires gs != [] && AllOk(gs)
    ensures AllOk([gs[0]]) && AllOk(gs[1..])
    ensures SegmentActions(gs) == SegmentActions([gs[0]]) + SegmentActions(gs[1..])
  {
    hide SegmentOk;
    assert [gs[0]][1..] == [];
    assert SegmentActions([]) == [];
  }

  /** Its actions show what its events show. */
  lemma {:induction false} SegmentsShow(styles: seq<string>, gs: seq<Segment>)
    requires AllOk(gs)
    ensures ShownActions(styles, SegmentActions(gs)) == Shown(styles, SegmentEvents(gs))
    decreases |gs|
  {
    hide Rendition, Typed;
    if gs != [] {
      var g, rest := gs[0], gs[1..];
      assert SegmentEvents(gs)[1..] == SegmentEvents(rest);
      match g {
        case Plain(text) =>
          ShownText(styles, text, SegmentActions(rest));
          SegmentsShow(styles, rest);
        case Select(ps) =>
          assert SegmentActions(gs)[1..] == SegmentActions(rest);
          SegmentsShow(Rendition(styles, P.Values(ps)), rest);
      }
    }
  }

  lemma {:induction false} NoReturns(gs: seq<Segment>)
    requires AllOk(gs)
    ensures '\r' !in EncodeAll(gs)
  {
    if gs != [] {
      NoReturns(gs[1..]);
      assert SegmentOk(gs[0]);
      match gs[0] {
        case Plain(text) => assert '\r' !in text;
        case Select(ps) => P.JoinIsPlain(ps);
      }
    }
  }

  lemma {:induction false} InConcat(chunks: seq<string>, i: nat, k: nat)
    requires i < |chunks| && k < |chunks[i]|
    ensures chunks[i][k] in P.Concat(chunks)
  {
    if i == 0 {
      assert P.Concat(chunks)[k] == chunks[0][k];
    } else {
      InConcat(chunks[1..], i - 1, k);
    }
  }

  // ---------------------------------------------------------------- the law

  /** Any styled output through handler and style spans. */
  method ShowChunks(bottom: Bottom, chunks: seq<string>, s: Screen) returns (s': Screen)
    requires Ok(s) && AllShow(P.RunChunks(bottom, Scan(Initial, []), chunks).history)
    ensures Ok(s') && S.Right(s'.doc) == S.Right(s.doc)
    ensures Render(S.Left(s'.doc)) == Render(S.Left(s.doc))
         + ShownActions(s.styles, P.RunChunks(bottom, Scan(Initial, []), chunks).history)
  {
    hide Ok, Play, Render, ShownActions, S.Left, S.Right, P.RunChunks, AllShow;
    var outputs := T.Session(bottom, chunks);
    s' := Play(s, EventsOf(outputs));
    SessionRenders(s, EventsOf(outputs));
    OutputsShow(s.styles, outputs);
  }

  /** The rendering law on raw output: text and SGR sequences, arriving in whatever chunks, show each
      character with the properties selected in front of it. */
  method ShowRaw(bottom: Bottom, gs: seq<Segment>, chunks: seq<string>, s: Screen) returns (s': Screen)
    requires Ok(s) && AllOk(gs) && P.Concat(chunks) == EncodeAll(gs)
    ensures Ok(s') && S.Right(s'.doc) == S.Right(s.doc)
    ensures Render(S.Left(s'.doc)) == Render(S.Left(s.doc)) + Shown(s.styles, SegmentEvents(gs))
  {
    hide Ok, Render, ShownActions, Shown, S.Left, S.Right, P.RunChunks, EncodeAll, SegmentActions, SegmentOk, P.Concat;
    hide Scanner.Run;
    NoReturns(gs);
    forall i | 0 <= i < |chunks| && chunks[i] != []
      ensures chunks[i][|chunks[i]| - 1] != '\r'
    {
      InConcat(chunks, i, |chunks[i]| - 1);
    }
    var st := Scan(Initial, []);
    P.AnyChunks(bottom, st, chunks);
    ScanSegments(bottom, st, gs);
    assert [] + SegmentActions(gs) == SegmentActions(gs);
    SegmentsAllShow(gs);
    SegmentsShow(s.styles, gs);
    s' := ShowChunks(bottom, chunks, s);
  }

  lemma {:induction false} SegmentsAllShow(gs: seq<Segment>)
    requires AllOk(gs)
    ensures AllShow(SegmentActions(gs))
  {
    if gs != [] {
      SegmentsAllShow(gs[1..]);
    }
  }

  /** Which actions style: control sequences that end in m, with a question mark or without. */
  lemma SelectMeans(question: bool, params: seq<int>, final: char, raw: string)
    ensures ActionEvents(Control(question, params, final, raw)) == if final == 'm' then [Sgr(params)] else []
  {
  }
}
