/** What SGR parameters mean (section 8.3.117 of ECMA-48), read off the parameters alone, and what raw output
    with such sequences therefore looks like. */
module Graphics {
  import opened Properties
  import opened Rendering
  import opened Scanner
  import opened Strings
  import opened Words
  import D = Display
  import P = Parameters
  import S = Styles

  const COLORS := ["black", "red", "green", "yellow", "blue", "magenta", "cyan", "white"]

  /** The latest parameter that decides: one of `deciding`, or one that resets everything; 0 at the beginning. */
  function Latest(codes: seq<int>, deciding: set<int>): int
    decreases |codes|
  {
    if codes == [] then 0 else
    var last := codes[|codes| - 1];
    if last <= 0 || last in deciding then last else Latest(codes[..|codes| - 1], deciding)
  }

  const FOREGROUNDS := {7, 27, 30, 31, 32, 33, 34, 35, 36, 37, 39}
  const BACKGROUNDS := {7, 27, 40, 41, 42, 43, 44, 45, 46, 47, 49}

  function Weight(codes: seq<int>): seq<string> {
    if Latest(codes, {1, 22}) == 1 then ["font-weight: bold"] else []
  }

  function Decoration(codes: seq<int>): seq<string> {
    if Latest(codes, {4, 24}) == 4 then ["text-decoration: underline"] else []
  }

  function Foreground(codes: seq<int>): seq<string> {
    var c := Latest(codes, FOREGROUNDS);
    if 30 <= c <= 37 then ["color: " + COLORS[c - 30]] else if c == 7 then ["color: white"] else []
  }

  function Background(codes: seq<int>): seq<string> {
    var c := Latest(codes, BACKGROUNDS);
    if 40 <= c <= 47 then ["background-color: " + COLORS[c - 40]]
    else if c == 7 then ["background-color: black"]
    else []
  }

  /** A list of properties is exactly what the parameters select: for each property its one setting or
      none, and nothing else. */
  ghost predicate Dressed(props: seq<string>, codes: seq<int>) {
    && Only(props, "font-weight:") == Weight(codes) && Only(props, "text-decoration:") == Decoration(codes)
    && Only(props, "color:") == Foreground(codes) && Only(props, "background-color:") == Background(codes)
    && AllNamed(props)
  }

  predicate AllNamed(props: seq<string>) {
    forall i :: 0 <= i < |props| ==>
      || StartsWith(props[i], "font-weight:") || StartsWith(props[i], "text-decoration:")
      || StartsWith(props[i], "color:") || StartsWith(props[i], "background-color:")
  }

  // ---------------------------------------------------------------- single parameters

  lemma Cons(sets: seq<Set>, name: string)
    ensures sets == [] ==> Change(sets, name) == None
    ensures |sets| == 1 ==> Change(sets, name) == if sets[0].name == name then Some(sets[0].value) else None
    ensures |sets| == 2 ==> Change(sets, name) == if sets[1].name == name then Some(sets[1].value)
                                                  else if sets[0].name == name then Some(sets[0].value) else None
  {
    if |sets| == 1 {
      assert sets[..0] == [];
    } else if |sets| == 2 {
      assert sets[..1] == [sets[0]] && [sets[0]][..0] == [];
    }
  }

  lemma NamesApart()
    ensures WEIGHT != DECORATION && WEIGHT != COLOR && WEIGHT != BACKGROUND
    ensures DECORATION != COLOR && DECORATION != BACKGROUND && COLOR != BACKGROUND
  {
    assert WEIGHT[0] == 'f' && DECORATION[0] == 't' && COLOR[0] == 'c' && BACKGROUND[0] == 'b';
  }

  lemma WeightChange(code: int)
    requires code > 0
    ensures Change(Settings(code), WEIGHT) == if code == 1 then Some(Some("bold")) else if code == 22 then Some(None) else None
  {
    NamesApart();
    hide Change, ColorName;
    Cons(Settings(code), WEIGHT);
  }

  lemma DecorationChange(code: int)
    requires code > 0
    ensures Change(Settings(code), DECORATION)
         == if code == 4 then Some(Some("underline")) else if code == 24 then Some(None) else None
  {
    NamesApart();
    hide Change, ColorName;
    Cons(Settings(code), DECORATION);
  }

  lemma ForegroundChange(code: int)
    requires code > 0
    ensures Change(Settings(code), COLOR)
         == if code == 7 then Some(Some("white")) else if 30 <= code <= 37 then Some(Some(COLORS[code - 30]))
            else if code == 27 || code == 39 then Some(None) else None
  {
    NamesApart();
    if 30 <= code <= 37 {
      ColorsInOrder(code - 30);
    }
    hide Change, ColorName;
    Cons(Settings(code), COLOR);
  }

  lemma BackgroundChange(code: int)
    requires code > 0
    ensures Change(Settings(code), BACKGROUND)
         == if code == 7 then Some(Some("black")) else if 40 <= code <= 47 then Some(Some(COLORS[code - 40]))
            else if code == 27 || code == 49 then Some(None) else None
  {
    NamesApart();
    if 40 <= code <= 47 {
      ColorsInOrder(code - 40);
    }
    hide Change, ColorName;
    Cons(Settings(code), BACKGROUND);
  }

  lemma ColorsInOrder(i: int)
    requires 0 <= i <= 7
    ensures ColorName(i) == COLORS[i]
  {
  }

  // ---------------------------------------------------------------- any parameters

  lemma {:induction false} WeightExact(codes: seq<int>)
    ensures Effect(codes, WEIGHT) == if Latest(codes, {1, 22}) == 1 then Some("bold") else None
    decreases |codes|
  {
    hide Change, Settings;
    if codes != [] {
      var n := |codes| - 1;
      if codes[n] > 0 {
        WeightChange(codes[n]);
      }
      WeightExact(codes[..n]);
    }
  }

  lemma {:induction false} DecorationExact(codes: seq<int>)
    ensures Effect(codes, DECORATION) == if Latest(codes, {4, 24}) == 4 then Some("underline") else None
    decreases |codes|
  {
    hide Change, Settings;
    if codes != [] {
      var n := |codes| - 1;
      if codes[n] > 0 {
        DecorationChange(codes[n]);
      }
      DecorationExact(codes[..n]);
    }
  }

  lemma {:induction false} ForegroundExact(codes: seq<int>)
    ensures var c := Latest(codes, FOREGROUNDS);
            Effect(codes, COLOR)
            == if 30 <= c <= 37 then Some(COLORS[c - 30]) else if c == 7 then Some("white") else None
    decreases |codes|
  {
    hide Change, Settings;
    if codes != [] {
      var n := |codes| - 1;
      if codes[n] > 0 {
        ForegroundChange(codes[n]);
      }
      ForegroundExact(codes[..n]);
    }
  }

  lemma {:induction false} BackgroundExact(codes: seq<int>)
    ensures var c := Latest(codes, BACKGROUNDS);
            Effect(codes, BACKGROUND)
            == if 40 <= c <= 47 then Some(COLORS[c - 40]) else if c == 7 then Some("black") else None
    decreases |codes|
  {
    hide Change, Settings;
    if codes != [] {
      var n := |codes| - 1;
      if codes[n] > 0 {
        BackgroundChange(codes[n]);
      }
      BackgroundExact(codes[..n]);
    }
  }

  lemma NamedWithout(styles: seq<string>, name: string)
    requires AllNamed(styles)
    ensures AllNamed(Without(styles, name))
  {
    hide StartsWith;
    if styles != [] {
      NamedWithout(styles[1..], name);
    }
  }

  lemma NamedPush(styles: seq<string>, setting: Set)
    requires AllNamed(styles) && IsName(setting.name)
    ensures AllNamed(Push(styles, setting.name, setting.value))
  {
    NamedWithout(styles, setting.name);
    hide Without;
    if setting.value != None {
      assert StartsWith(Setting(setting.name, setting.value.value), setting.name);
    }
    hide StartsWith;
  }

  lemma {:induction false} NamedPushAll(styles: seq<string>, sets: seq<Set>)
    requires AllNamed(styles) && Named(sets)
    ensures AllNamed(PushAll(styles, sets))
    decreases |sets|
  {
    hide AllNamed, Push, IsName, Clean;
    if sets != [] {
      NamedPush(styles, sets[0]);
      NamedPushAll(Push(styles, sets[0].name, sets[0].value), sets[1..]);
    }
  }

  lemma {:induction false} NamedRendition(styles: seq<string>, codes: seq<int>)
    requires AllNamed(styles)
    ensures AllNamed(Rendition(styles, codes))
    decreases |codes|
  {
    hide PushAll, Settings, Named;
    if codes != [] {
      SettingsNamed(codes[0]);
      NamedPushAll(styles, Settings(codes[0]));
      NamedRendition(if codes[0] <= 0 then [] else PushAll(styles, Settings(codes[0])), codes[1..]);
    }
  }

  /** The SGR law by parameters: after any of them the list holds exactly what the latest deciding one of
      each property selects. */
  lemma RenditionDressed(codes: seq<int>)
    ensures Dressed(Rendition([], codes), codes)
  {
    hide Rendition, Effect, Only, Latest, AllNamed;
    RenditionExact(codes, WEIGHT);
    RenditionExact(codes, DECORATION);
    RenditionExact(codes, COLOR);
    RenditionExact(codes, BACKGROUND);
    WeightExact(codes);
    DecorationExact(codes);
    ForegroundExact(codes);
    BackgroundExact(codes);
    assert AllNamed([]) by { NothingNamed(); }
    NamedRendition([], codes);
    Spelling();
  }

  lemma NothingNamed()
    ensures AllNamed([])
  {
  }

  lemma Spelling()
    ensures Setting(WEIGHT, "bold") == "font-weight: bold"
    ensures Setting(DECORATION, "underline") == "text-decoration: underline"
    ensures forall c: string {:trigger Setting(COLOR, c)} :: Setting(COLOR, c) == "color: " + c
    ensures forall c: string {:trigger Setting(BACKGROUND, c)} :: Setting(BACKGROUND, c) == "background-color: " + c
    ensures "color: " + "white" == "color: white" && "background-color: " + "black" == "background-color: black"
  {
  }

  // ---------------------------------------------------------------- raw output

  /** Every printed character with the parameters of all SGR sequences in front of it. */
  function Story(gs: seq<D.Segment>, codes: seq<int>): seq<(char, seq<int>)>
    requires D.AllOk(gs)
    decreases |gs|
  {
    if gs == [] then [] else
    match gs[0]
    case Plain(text) => seq(|text|, i requires 0 <= i < |text| => (text[i], codes)) + Story(gs[1..], codes)
    case Select(ps) =>
      assert D.SegmentOk(gs[0]);
      Story(gs[1..], codes + P.Values(ps))
  }

  lemma {:induction false} RenditionConcat(styles: seq<string>, a: seq<int>, b: seq<int>)
    ensures Rendition(styles, a + b) == Rendition(Rendition(styles, a), b)
    decreases |a|
  {
    hide PushAll, Settings;
    if a == [] {
      assert a + b == b;
    } else {
      assert (a + b)[1..] == a[1..] + b;
      RenditionConcat(if a[0] <= 0 then [] else PushAll(styles, Settings(a[0])), a[1..], b);
    }
  }

  /** Characters are shown as told. */
  ghost predicate Told(shown: seq<Rendered>, story: seq<(char, seq<int>)>) {
    |shown| == |story|
    && forall k :: 0 <= k < |shown| ==> shown[k].c == Some(story[k].0) && shown[k].props == Rendition([], story[k].1)
  }

  lemma {:induction false} ShownAsTold(gs: seq<D.Segment>, codes: seq<int>)
    requires D.AllOk(gs)
    ensures Told(Shown(Rendition([], codes), D.SegmentEvents(gs)), Story(gs, codes))
    decreases |gs|
  {
    hide Rendition;
    if gs != [] {
      assert D.SegmentOk(gs[0]);
      assert D.SegmentEvents(gs)[1..] == D.SegmentEvents(gs[1..]);
      match gs[0] {
        case Plain(text) => ShownAsTold(gs[1..], codes);
        case Select(ps) =>
          RenditionConcat([], codes, P.Values(ps));
          ShownAsTold(gs[1..], codes + P.Values(ps));
      }
    }
  }

  /** The rendering law on raw characters, by parameters: text and SGR sequences, cut into any chunks, behind
      any earlier sequences, add the printed characters in order, each with exactly the properties the
      latest deciding parameters in front of it select. */
  method ShowDressed(bottom: Bottom, gs: seq<D.Segment>, chunks: seq<string>, s: Screen, ghost codes: seq<int>)
    returns (s': Screen)
    requires Ok(s) && D.AllOk(gs) && P.Concat(chunks) == D.EncodeAll(gs) && s.styles == Rendition([], codes)
    ensures S.Right(s'.doc) == S.Right(s.doc) && Render(S.Left(s.doc)) <= Render(S.Left(s'.doc))
    ensures var added, story := Render(S.Left(s'.doc))[|S.Left(s.doc)|..], Story(gs, codes);
            && |added| == |story|
            && forall k :: 0 <= k < |story| ==> added[k].c == Some(story[k].0) && Dressed(added[k].props, story[k].1)
  {
    hide Ok, Render, Shown, S.Left, S.Right, D.EncodeAll, P.Concat, Rendition, Dressed, Story;
    s' := D.ShowRaw(bottom, gs, chunks, s);
    ShownAsTold(gs, codes);
    ghost var before, shown := Render(S.Left(s.doc)), Shown(s.styles, D.SegmentEvents(gs));
    assert (before + shown)[|before|..] == shown;
    forall k | 0 <= k < |shown|
      ensures Dressed(shown[k].props, Story(gs, codes)[k].1)
    {
      RenditionDressed(Story(gs, codes)[k].1);
    }
  }

  /** An SGR sequence as it is written: ESC [ the parameters with semicolons between them, and m. */
  lemma SequenceMeans(ps: seq<string>)
    requires ps != [] && P.AllDigits(ps)
    ensures D.SegmentOk(D.Select(ps)) && D.Encode(D.Select(ps)) == ['\U{1b}', '['] + Join(ps) + ['m']
  {
    hide Join;
    assert ['\U{1b}', '['] + [] == ['\U{1b}', '['];
  }
}
