/** Whole sessions of styled output: however SGR sequences and text alternate, every character is
    rendered with exactly the properties that were current when it was printed, then and ever after. */
module Rendering {
  import opened Words
  import opened Properties
  import opened Strings
  import opened Styles

  datatype Event = Sgr(codes: seq<int>) | Print(text: string)

  /** The document, the current styles and adjustStyleNeeded. */
  datatype Screen = Screen(doc: Doc, styles: seq<string>, needed: bool)

  /** Printing in insert mode: the style is adjusted only if it may have changed. */
  function Next(s: Screen, e: Event): Screen {
    match e
    case Sgr(codes) => s.(styles := Rendition(s.styles, codes), needed := true)
    case Print(text) =>
      if text == [] then s else
      var doc := if s.needed then Adjust(s.doc, s.styles) else s.doc;
      s.(doc := Beside(doc, [Text(text)], []), needed := false)
  }

  function Play(s: Screen, events: seq<Event>): Screen
    decreases |events|
  {
    if events == [] then s else Play(Next(s, events[0]), events[1..])
  }

  /** A rendered character: what a reader sees of a glyph. */
  datatype Rendered = Rendered(c: Option<char>, props: seq<string>)

  function Render(gs: seq<Glyph>): (r: seq<Rendered>)
    ensures |r| == |gs|
  {
    seq(|gs|, i requires 0 <= i < |gs| => Rendered(gs[i].c, gs[i].context.props))
  }

  function Typed(text: string, props: seq<string>): (r: seq<Rendered>)
    ensures |r| == |text|
  {
    seq(|text|, i requires 0 <= i < |text| => Rendered(Some(text[i]), props))
  }

  /** What a session should show, from the events alone. */
  function Shown(styles: seq<string>, events: seq<Event>): seq<Rendered>
    decreases |events|
  {
    if events == [] then [] else
    match events[0]
    case Sgr(codes) => Shown(Rendition(styles, codes), events[1..])
    case Print(text) => Typed(text, styles) + Shown(styles, events[1..])
  }

  /** Every element around the cursor is styled, and the styles there are current unless flagged. */
  predicate Ok(s: Screen) {
    && AllClean(s.styles)
    && (forall i :: 0 <= i < |s.doc.levels| ==> s.doc.levels[i].style != [])
    && (!s.needed ==> At(s.doc.levels).props == s.styles)
  }

  predicate AllStyled(ss: seq<string>) {
    forall i :: 0 <= i < |ss| ==> ss[i] != []
  }

  lemma StyledLevels(levels: seq<Level>)
    ensures AllStyled(StylesOf(levels)) <==> forall i :: 0 <= i < |levels| ==> levels[i].style != []
  {
    assert forall i :: 0 <= i < |levels| ==> StylesOf(levels)[i] == levels[i].style;
  }

  lemma WrapStyles(d: Doc, style: string)
    ensures StylesOf(Wrap(d, style).levels) == [style] + StylesOf(d.levels)
  {
  }

  /** Restyling leaves only styled elements around the cursor. */
  lemma AdjustKeepsStyled(d: Doc, wanted: seq<string>)
    requires AllClean(wanted) && AllStyled(StylesOf(d.levels))
    ensures AllStyled(StylesOf(Adjust(d, wanted).levels))
  {
    hide Pops, Kept, PopMany, Join, Clean, StylesOf, Wrap;
    var popped, kept := PopMany(d, Pops(d, wanted)), Kept(d, wanted);
    PopManyPreserves(d, Pops(d, wanted));
    if kept < |wanted| {
      JoinEnds(wanted[kept..]);
      WrapStyles(popped, Join(wanted[kept..]));
    }
  }

  /** The document a character goes into: right properties, nothing else changed. */
  lemma Prepared(s: Screen)
    requires Ok(s)
    ensures var doc := if s.needed then Adjust(s.doc, s.styles) else s.doc;
            && At(doc.levels).props == s.styles && AllStyled(StylesOf(doc.levels))
            && Left(doc) == Left(s.doc) && Right(doc) == Right(s.doc)
  {
    hide Adjust, At, Left, Right, Pops, Leftover, StylesOf, Clean;
    StyledLevels(s.doc.levels);
    if s.needed {
      StyledLevelsSuffice(s.doc, s.styles);
      AdjustExact(s.doc, s.styles);
      AdjustPreserves(s.doc, s.styles);
      AdjustKeepsStyled(s.doc, s.styles);
    }
  }

  lemma RenderConcat(a: seq<Glyph>, b: seq<Glyph>)
    ensures Render(a + b) == Render(a) + Render(b)
  {
  }

  lemma RenderLetters(text: string, ctx: Context)
    ensures Render(AllGlyphs([Text(text)], ctx)) == Typed(text, ctx.props)
  {
    GlyphsOne(Text(text), ctx);
  }

  lemma BesideStyles(d: Doc, before: seq<Node>, after: seq<Node>)
    ensures StylesOf(Beside(d, before, after).levels) == StylesOf(d.levels)
  {
    if d.levels != [] {
      assert d.levels == [d.levels[0]] + d.levels[1..];
    }
  }

  lemma PrintStep(s: Screen, text: string)
    requires Ok(s)
    ensures var s' := Next(s, Print(text));
            && Ok(s') && s'.styles == s.styles && Right(s'.doc) == Right(s.doc)
            && Render(Left(s'.doc)) == Render(Left(s.doc)) + Typed(text, s.styles)
  {
    hide Adjust, At, Left, Right, StylesOf, Clean, AllGlyphs, Beside, Render;
    if text == [] {
      assert Typed(text, s.styles) == [];
      assert Render(Left(s.doc)) + [] == Render(Left(s.doc));
    } else {
      var doc := if s.needed then Adjust(s.doc, s.styles) else s.doc;
      Prepared(s);
      BesideGlyphs(doc, [Text(text)], []);
      BesideStyles(doc, [Text(text)], []);
      StyledLevels(Next(s, Print(text)).doc.levels);
      RenderConcat(Left(doc), AllGlyphs([Text(text)], At(doc.levels)));
      RenderLetters(text, At(doc.levels));
      NoGlyphs(At(doc.levels));
      assert [] + Right(doc) == Right(doc);
    }
  }

  lemma NoGlyphs(ctx: Context)
    ensures AllGlyphs([], ctx) == []
  {
  }

  /** The rendering law for whole sessions. */
  lemma {:induction false} SessionRenders(s: Screen, events: seq<Event>)
    requires Ok(s)
    ensures var s' := Play(s, events);
            && Ok(s') && Right(s'.doc) == Right(s.doc)
            && Render(Left(s'.doc)) == Render(Left(s.doc)) + Shown(s.styles, events)
    decreases |events|
  {
    hide At, Left, Right, Clean, Render, Rendition, Typed;
    if events == [] {
      assert Render(Left(s.doc)) + [] == Render(Left(s.doc));
    } else {
      var s1, rest := Next(s, events[0]), events[1..];
      match events[0] {
        case Sgr(codes) =>
          RenditionClean(s.styles, codes);
          assert Ok(s1) && s1.doc == s.doc && s1.styles == Rendition(s.styles, codes);
          hide Next, Ok;
          SessionRenders(s1, rest);
        case Print(text) =>
          PrintStep(s, text);
          hide Next, Ok;
          SessionRenders(s1, rest);
          assert (Render(Left(s.doc)) + Typed(text, s.styles)) + Shown(s.styles, rest)
              == Render(Left(s.doc)) + (Typed(text, s.styles) + Shown(s.styles, rest));
      }
    }
  }
}
