/** Style spans around the cursor: the document as a tree with a hole where the input line sits, and
    the surgery by which adjustStyle moves that hole out of the wrong spans and into a new one. */
module Styles {
  import opened Words
  import opened Properties
  import opened Strings

  datatype Node =
    | Text(data: string)
    | Br
    | Span(cls: string, style: string, children: seq<Node>)

  /** An element around the input line: its siblings there, in front and behind. */
  datatype Level = Level(cls: string, style: string, before: seq<Node>, after: seq<Node>)

  /** The document: the elements around the input line, innermost first, and the rest of the body. */
  datatype Doc = Doc(levels: seq<Level>, before: seq<Node>, after: seq<Node>)

  // ---------------------------------------------------------------- what a reader sees

  /** Enclosing classes and style properties, outermost first. */
  datatype Context = Context(classes: seq<string>, props: seq<string>)

  const BODY := Context([], [])

  /** One character or line break with everything that applies to it. */
  datatype Glyph = Glyph(c: Option<char>, context: Context)

  function Within(ctx: Context, cls: string, style: string): Context {
    Context(ctx.classes + (if cls == [] then [] else [cls]), ctx.props + Props(style))
  }

  function Letters(s: string, ctx: Context): (g: seq<Glyph>)
    ensures |g| == |s|
  {
    seq(|s|, i requires 0 <= i < |s| => Glyph(Some(s[i]), ctx))
  }

  function Glyphs(n: Node, ctx: Context): seq<Glyph>
    decreases n
  {
    match n
    case Text(s) => Letters(s, ctx)
    case Br => [Glyph(None, ctx)]
    case Span(cls, style, children) => AllGlyphs(children, Within(ctx, cls, style))
  }

  function AllGlyphs(ns: seq<Node>, ctx: Context): seq<Glyph>
    decreases ns
  {
    if ns == [] then [] else Glyphs(ns[0], ctx) + AllGlyphs(ns[1..], ctx)
  }

  /** What applies at the cursor. */
  function At(levels: seq<Level>): Context {
    if levels == [] then BODY else Within(At(levels[1..]), levels[0].cls, levels[0].style)
  }

  function Left(d: Doc): seq<Glyph>
    decreases |d.levels|
  {
    if d.levels == [] then AllGlyphs(d.before, BODY)
    else Left(d.(levels := d.levels[1..])) + AllGlyphs(d.levels[0].before, At(d.levels))
  }

  function Right(d: Doc): seq<Glyph>
    decreases |d.levels|
  {
    if d.levels == [] then AllGlyphs(d.after, BODY)
    else AllGlyphs(d.levels[0].after, At(d.levels)) + Right(d.(levels := d.levels[1..]))
  }

  lemma {:induction false} GlyphsConcat(a: seq<Node>, b: seq<Node>, ctx: Context)
    ensures AllGlyphs(a + b, ctx) == AllGlyphs(a, ctx) + AllGlyphs(b, ctx)
  {
    hide Glyphs;
    if a == [] {
      assert a + b == b;
    } else {
      assert (a + b)[1..] == a[1..] + b;
      GlyphsConcat(a[1..], b, ctx);
    }
  }

  lemma GlyphsOne(n: Node, ctx: Context)
    ensures AllGlyphs([n], ctx) == Glyphs(n, ctx)
  {
    assert [n][1..] == [];
    assert AllGlyphs([], ctx) == [];
  }

  // ---------------------------------------------------------------- popStyle

  /** Put nodes next to the hole of the document. */
  function Beside(d: Doc, before: seq<Node>, after: seq<Node>): Doc {
    if d.levels == [] then d.(before := d.before + before, after := after + d.after)
    else d.(levels := [d.levels[0].(before := d.levels[0].before + before, after := after + d.levels[0].after)]
                      + d.levels[1..])
  }

  /** The input line leaves the innermost element, which is split around it. */
  function Pop(d: Doc): Doc
    requires d.levels != []
  {
    var l := d.levels[0];
    Beside(d.(levels := d.levels[1..]),
           [Span(l.cls, l.style, l.before)],
           if l.after == [] then [] else [Span(l.cls, l.style, l.after)])
  }

  lemma BesideGlyphs(d: Doc, before: seq<Node>, after: seq<Node>)
    ensures Left(Beside(d, before, after)) == Left(d) + AllGlyphs(before, At(d.levels))
    ensures Right(Beside(d, before, after)) == AllGlyphs(after, At(d.levels)) + Right(d)
    ensures At(Beside(d, before, after).levels) == At(d.levels)
  {
    hide AllGlyphs, Within;
    var d' := Beside(d, before, after);
    if d.levels == [] {
      GlyphsConcat(d.before, before, BODY);
      GlyphsConcat(after, d.after, BODY);
    } else {
      assert d'.levels[1..] == d.levels[1..];
      GlyphsConcat(d.levels[0].before, before, At(d.levels));
      GlyphsConcat(after, d.levels[0].after, At(d.levels));
    }
  }

  /** Popping changes what applies at the cursor and nothing else: every character keeps its place and
      its enclosing classes and properties. */
  lemma PopPreserves(d: Doc)
    requires d.levels != []
    ensures Left(Pop(d)) == Left(d) && Right(Pop(d)) == Right(d)
    ensures At(Pop(d).levels) == At(d.levels[1..]) && |Pop(d).levels| == |d.levels| - 1
  {
    var l, rest := d.levels[0], d.(levels := d.levels[1..]);
    var span1, span2 := Span(l.cls, l.style, l.before), Span(l.cls, l.style, l.after);
    BesideGlyphs(rest, [span1], if l.after == [] then [] else [span2]);
    GlyphsOne(span1, At(rest.levels));
    GlyphsOne(span2, At(rest.levels));
    assert AllGlyphs([], At(d.levels)) == [] && AllGlyphs([], At(rest.levels)) == [];
    hide Within;
  }

  function PopMany(d: Doc, n: nat): Doc
    requires n <= |d.levels|
    decreases n
  {
    if n == 0 then d else (PopPreserves(d); PopMany(Pop(d), n - 1))
  }

  lemma {:induction false} PopManyPreserves(d: Doc, n: nat)
    requires n <= |d.levels|
    ensures Left(PopMany(d, n)) == Left(d) && Right(PopMany(d, n)) == Right(d)
    ensures |PopMany(d, n).levels| == |d.levels| - n
    ensures StylesOf(PopMany(d, n).levels) == StylesOf(d.levels)[n..]
    ensures At(PopMany(d, n).levels) == At(d.levels[n..])
    decreases n
  {
    hide Left, Right, Pop, At;
    if n == 0 {
      assert d.levels[0..] == d.levels && StylesOf(d.levels)[0..] == StylesOf(d.levels);
    } else {
      PopPreserves(d);
      PopKeepsStyles(d);
      PopManyPreserves(Pop(d), n - 1);
      assert StylesOf(d.levels)[1..][n - 1..] == StylesOf(d.levels)[n..];
      SameContexts(Pop(d).levels[n - 1..], d.levels[n..]);
    }
  }

  function StylesOf(levels: seq<Level>): (ss: seq<string>)
    ensures |ss| == |levels|
  {
    seq(|levels|, i requires 0 <= i < |levels| => levels[i].style)
  }

  predicate SameTags(a: seq<Level>, b: seq<Level>) {
    |a| == |b| && forall i :: 0 <= i < |a| ==> a[i].cls == b[i].cls && a[i].style == b[i].style
  }

  lemma {:induction false} SameContexts(a: seq<Level>, b: seq<Level>)
    requires SameTags(a, b)
    ensures At(a) == At(b)
  {
    hide Within;
    if a != [] {
      SameContexts(a[1..], b[1..]);
    }
  }

  lemma PopKeepsStyles(d: Doc)
    requires d.levels != []
    ensures SameTags(Pop(d).levels, d.levels[1..]) && StylesOf(Pop(d).levels) == StylesOf(d.levels)[1..]
  {
    var rest := d.levels[1..];
    if rest != [] {
      assert rest == [rest[0]] + rest[1..];
    }
  }

  // ---------------------------------------------------------------- adjustStyle

  /** The style attributes that are present, innermost first. */
  function Present(ss: seq<string>): (r: seq<string>)
    ensures |r| <= |ss|
  {
    if ss == [] then [] else if ss[0] == [] then Present(ss[1..]) else [ss[0]] + Present(ss[1..])
  }

  /** The properties of nested style attributes, outermost first. */
  function AllProps(ss: seq<string>): seq<string> {
    if ss == [] then [] else AllProps(ss[1..]) + Props(ss[0])
  }

  /** How many of the present attributes, from the outermost one, spell out the wanted list; an
      attribute behind its end is not looked at. */
  function Keep(ss: seq<string>, wanted: seq<string>): (n: nat)
    ensures n <= |ss|
    decreases |ss|
  {
    if ss == [] || wanted == [] then 0 else
    var outer := Props(ss[|ss| - 1]);
    if outer <= wanted then 1 + Keep(ss[..|ss| - 1], wanted[|outer|..]) else 0
  }

  function Pops(d: Doc, wanted: seq<string>): (n: nat)
    ensures n <= |d.levels|
  {
    var ss := Present(StylesOf(d.levels));
    |ss| - Keep(ss, wanted)
  }

  /** How many of the wanted properties are already in force outside the popped levels. */
  function Kept(d: Doc, wanted: seq<string>): (n: nat)
    ensures n <= |wanted|
  {
    var ss := Present(StylesOf(d.levels));
    KeepSpells(ss, wanted);
    |AllProps(ss[|ss| - Keep(ss, wanted)..])|
  }

  /** The input line moves into a new element. */
  function Wrap(d: Doc, style: string): Doc {
    d.(levels := [Level([], style, [], [])] + d.levels)
  }

  function Adjust(d: Doc, wanted: seq<string>): Doc {
    var popped := PopMany(d, Pops(d, wanted));
    var kept := Kept(d, wanted);
    if kept < |wanted| then Wrap(popped, Join(wanted[kept..])) else popped
  }

  lemma {:induction false} AllPropsConcat(a: seq<string>, b: seq<string>)
    ensures AllProps(a + b) == AllProps(b) + AllProps(a)
  {
    hide Props;
    if a == [] {
      assert a + b == b;
    } else {
      assert (a + b)[1..] == a[1..] + b;
      AllPropsConcat(a[1..], b);
    }
  }

  lemma {:induction false} KeepSpells(ss: seq<string>, wanted: seq<string>)
    ensures AllProps(ss[|ss| - Keep(ss, wanted)..]) <= wanted
    decreases |ss|
  {
    hide Props, AllProps;
    var n, t := |ss|, Keep(ss, wanted);
    if t > 0 {
      var outer := Props(ss[n - 1]);
      var rest := ss[..n - 1];
      KeepSpells(rest, wanted[|outer|..]);
      assert ss[n - t..] == rest[n - t..] + [ss[n - 1]];
      AllPropsConcat(rest[n - t..], [ss[n - 1]]);
      OneProps(ss[n - 1]);
      hide Keep;
      LongerPrefix(outer, AllProps(rest[n - t..]), wanted);
    } else {
      OneProps([]);
      assert ss[n..] == [];
    }
  }

  lemma OneProps(s: string)
    ensures AllProps([s]) == Props(s) && AllProps([]) == []
  {
    hide Props;
    assert AllProps([s]) == AllProps([]) + Props(s);
  }

  lemma LongerPrefix(a: seq<string>, b: seq<string>, wanted: seq<string>)
    requires a <= wanted && b <= wanted[|a|..]
    ensures a + b <= wanted
  {
  }

  lemma {:induction false} PresentConcat(a: seq<string>, b: seq<string>)
    ensures Present(a + b) == Present(a) + Present(b)
  {
    if a == [] {
      assert a + b == b;
    } else {
      assert (a + b)[1..] == a[1..] + b;
      PresentConcat(a[1..], b);
    }
  }

  /** Absent attributes contribute nothing. */
  lemma {:induction false} PresentProps(ss: seq<string>)
    ensures AllProps(Present(ss)) == AllProps(ss)
  {
    if ss != [] {
      PresentProps(ss[1..]);
      assert Props([]) == [];
      if ss[0] != [] {
        assert Present(ss)[1..] == Present(ss[1..]);
      } else {
        assert Present(ss) == Present(ss[1..]);
        assert AllProps(ss[1..]) + Props(ss[0]) == AllProps(ss[1..]);
      }
    }
  }

  lemma {:induction false} ContextProps(levels: seq<Level>)
    ensures At(levels).props == AllProps(StylesOf(levels))
  {
    hide Props;
    if levels != [] {
      ContextProps(levels[1..]);
      assert StylesOf(levels)[1..] == StylesOf(levels[1..]);
    }
  }

  /** Properties of styled elements that should have been left but were not, because elements without a
      style were left in their place. */
  function Leftover(d: Doc, wanted: seq<string>): seq<string> {
    var all, pops := StylesOf(d.levels), Pops(d, wanted);
    var ss, gone := Present(all), |Present(all[..pops])|;
    AllProps(ss[gone..pops])
  }

  /** What applies at the cursor behind the pops. */
  lemma PoppedProps(d: Doc, wanted: seq<string>)
    ensures At(PopMany(d, Pops(d, wanted)).levels).props
         == wanted[..Kept(d, wanted)] + Leftover(d, wanted)
  {
    hide Props, PopMany, At, Keep, Present, AllProps, StylesOf;
    var all, pops := StylesOf(d.levels), Pops(d, wanted);
    var ss := Present(all);
    PopManyPreserves(d, pops);
    ContextProps(PopMany(d, pops).levels);
    PresentProps(all[pops..]);
    assert all == all[..pops] + all[pops..];
    PresentConcat(all[..pops], all[pops..]);
    var gone := |Present(all[..pops])|;
    assert Present(all[pops..]) == ss[gone..];
    assert ss[gone..] == ss[gone..pops] + ss[pops..];
    AllPropsConcat(ss[gone..pops], ss[pops..]);
    KeepSpells(ss, wanted);
  }

  lemma WrapPreserves(d: Doc, style: string)
    ensures Left(Wrap(d, style)) == Left(d) && Right(Wrap(d, style)) == Right(d)
    ensures At(Wrap(d, style).levels).props == At(d.levels).props + Props(style)
  {
    hide Props;
    var d' := Wrap(d, style);
    assert d'.levels[1..] == d.levels;
    assert d'.(levels := d'.levels[1..]) == d;
    assert AllGlyphs([], At(d'.levels)) == [];
  }

  /** Restyling preserves meaning: every character, its order and its enclosing classes and properties
      stay, in front of the cursor and behind it. */
  lemma AdjustPreserves(d: Doc, wanted: seq<string>)
    ensures Left(Adjust(d, wanted)) == Left(d) && Right(Adjust(d, wanted)) == Right(d)
  {
    hide Left, Right, Kept, Pops, PopMany, Join;
    PopManyPreserves(d, Pops(d, wanted));
    if Kept(d, wanted) < |wanted| {
      WrapPreserves(PopMany(d, Pops(d, wanted)), Join(wanted[Kept(d, wanted)..]));
    }
  }

  /** Restyling is exact: the properties at the cursor become the wanted ones if and only if nothing is
      left over. */
  lemma AdjustExact(d: Doc, wanted: seq<string>)
    requires AllClean(wanted)
    ensures At(Adjust(d, wanted).levels).props
         == wanted[..Kept(d, wanted)] + Leftover(d, wanted) + wanted[Kept(d, wanted)..]
    ensures At(Adjust(d, wanted).levels).props == wanted <==> Leftover(d, wanted) == []
  {
    hide Props, Kept, Pops, PopMany, Leftover, At, Join, Clean;
    var kept := Kept(d, wanted);
    PoppedProps(d, wanted);
    var popped := PopMany(d, Pops(d, wanted));
    if kept < |wanted| {
      WrapPreserves(popped, Join(wanted[kept..]));
      PropsOfJoin(wanted[kept..]);
    } else {
      assert wanted[kept..] == [];
    }
    assert wanted[..kept] + wanted[kept..] == wanted;
    if Leftover(d, wanted) == [] {
      assert wanted[..kept] + [] == wanted[..kept];
    }
  }

  /** Nothing is left over when the elements left are all styled, as those adjustStyle makes are. */
  lemma StyledLevelsSuffice(d: Doc, wanted: seq<string>)
    requires forall i :: 0 <= i < Pops(d, wanted) ==> d.levels[i].style != []
    ensures Leftover(d, wanted) == []
  {
    hide Keep, Props;
    AllPresent(StylesOf(d.levels)[..Pops(d, wanted)]);
  }

  lemma {:induction false} AllPresent(ss: seq<string>)
    requires forall i :: 0 <= i < |ss| ==> ss[i] != []
    ensures Present(ss) == ss
  {
    if ss != [] {
      AllPresent(ss[1..]);
    }
  }

  /** A plain element inside a bold one: the plain one is left, the bold one stays. */
  lemma PlainElementDefeats(bold: string)
    requires Clean(bold)
    ensures var d := Doc([Level([], [], [], []), Level([], bold, [], [])], [], []);
            At(Adjust(d, []).levels).props == [bold]
  {
    var d := Doc([Level([], [], [], []), Level([], bold, [], [])], [], []);
    var all := StylesOf(d.levels);
    assert all == [[], bold];
    PropsOfJoin([bold]);
    OneProps(bold);
    AdjustExact(d, []);
    hide Props, AllProps, Clean, Adjust, At;
    assert Present(all) == [bold] by {
      assert all[1..] == [bold] && [bold][1..] == [] && Present([bold]) == [bold];
    }
    assert Pops(d, []) == 1;
    assert all[..1][1..] == [] && Present(all[..1]) == [];
    assert [bold][0..1] == [bold];
    assert Kept(d, []) == 0;
  }

  // ---------------------------------------------------------------- no more is popped than has to be

  /** The outermost `m` attributes spell out a beginning of the wanted list, none of them behind its end. */
  ghost predicate Spells(ss: seq<string>, m: nat, wanted: seq<string>)
    requires m <= |ss|
  {
    && AllProps(ss[|ss| - m..]) <= wanted
    && (m > 0 ==> |AllProps(ss[|ss| - m + 1..])| < |wanted|)
  }

  /** Restyling keeps as many of the elements around the cursor as it can. */
  lemma {:induction false} KeepMost(ss: seq<string>, m: nat, wanted: seq<string>)
    requires m <= |ss| && Spells(ss, m, wanted)
    ensures m <= Keep(ss, wanted)
    decreases |ss|
  {
    hide Props, AllProps;
    if m > 0 {
      var n := |ss|;
      var rest, outer := ss[..n - 1], Props(ss[n - 1]);
      OneProps(ss[n - 1]);
      assert ss[n - m..] == rest[n - m..] + [ss[n - 1]];
      AllPropsConcat(rest[n - m..], [ss[n - 1]]);
      assert wanted != [];
      assert outer <= wanted;
      if m > 1 {
        assert ss[n - m + 1..] == rest[n - m + 1..] + [ss[n - 1]];
        AllPropsConcat(rest[n - m + 1..], [ss[n - 1]]);
      }
      assert rest[|rest| - (m - 1)..] == rest[n - m..];
      assert m > 1 ==> rest[|rest| - (m - 1) + 1..] == rest[n - m + 1..];
      KeepMost(rest, m - 1, wanted[|outer|..]);
    }
  }

  /** Both ways: the number kept is the greatest for which this holds. */
  lemma KeepExact(ss: seq<string>, wanted: seq<string>)
    ensures Spells(ss, Keep(ss, wanted), wanted)
    ensures forall m: nat :: m <= |ss| && Spells(ss, m, wanted) ==> m <= Keep(ss, wanted)
  {
    hide Props, AllProps;
    KeepSpells(ss, wanted);
    KeepEnds(ss, wanted);
    assert Spells(ss, Keep(ss, wanted), wanted);
    hide Keep, Spells;
    forall m: nat | m <= |ss| && Spells(ss, m, wanted)
      ensures m <= Keep(ss, wanted)
    {
      KeepMost(ss, m, wanted);
    }
  }

  lemma {:induction false} KeepEnds(ss: seq<string>, wanted: seq<string>)
    ensures Keep(ss, wanted) > 0 ==> |AllProps(ss[|ss| - Keep(ss, wanted) + 1..])| < |wanted|
    decreases |ss|
  {
    hide Props, AllProps;
    var n, t := |ss|, Keep(ss, wanted);
    OneProps([]);
    if t > 0 {
      var rest, outer := ss[..n - 1], Props(ss[n - 1]);
      KeepEnds(rest, wanted[|outer|..]);
      if t == 1 {
        assert ss[n..] == [];
      } else {
        assert ss[n - t + 1..] == rest[n - t + 1..] + [ss[n - 1]];
        AllPropsConcat(rest[n - t + 1..], [ss[n - 1]]);
        OneProps(ss[n - 1]);
      }
    }
  }

  /** An element that is left stays in front of the input line with what it held there; a copy of it goes
      behind exactly if there was something to go into it. */
  lemma PopMeans(d: Doc)
    requires |d.levels| == 1
    ensures var l, d' := d.levels[0], Pop(d);
            && d'.levels == [] && d'.before == d.before + [Span(l.cls, l.style, l.before)]
            && (l.after == [] ==> d'.after == d.after)
            && (l.after != [] ==> d'.after == [Span(l.cls, l.style, l.after)] + d.after)
  {
    assert [] + d.after == d.after;
  }
}
