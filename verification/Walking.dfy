/** Walking through the document: the hole of the input line moves over nodes, into and out of spans,
    and through text, and what stands in front of it and behind it changes accordingly. */
module Walking {
  import opened Styles
  import opened Positions

  /** What positions are computed from. */
  function Chars(gs: seq<Glyph>): (items: seq<Item>)
    ensures |items| == |gs| && forall i :: 0 <= i < |gs| ==> items[i] == gs[i].c
  {
    seq(|gs|, i requires 0 <= i < |gs| => gs[i].c)
  }

  function Marked(items: seq<Item>, ctx: Context): (gs: seq<Glyph>)
    ensures |gs| == |items| && Chars(gs) == items
    ensures forall i :: 0 <= i < |gs| ==> gs[i] == Glyph(items[i], ctx)
  {
    seq(|items|, i requires 0 <= i < |items| => Glyph(items[i], ctx))
  }

  function Content(d: Doc): seq<Glyph> {
    Left(d) + Right(d)
  }

  // ---------------------------------------------------------------- the innermost element

  function BeforeOf(d: Doc): seq<Node> {
    if d.levels == [] then d.before else d.levels[0].before
  }

  function AfterOf(d: Doc): seq<Node> {
    if d.levels == [] then d.after else d.levels[0].after
  }

  function Replace(d: Doc, before: seq<Node>, after: seq<Node>): Doc {
    if d.levels == [] then d.(before := before, after := after)
    else d.(levels := [d.levels[0].(before := before, after := after)] + d.levels[1..])
  }

  function OuterLeft(d: Doc): seq<Glyph> {
    if d.levels == [] then [] else Left(d.(levels := d.levels[1..]))
  }

  function OuterRight(d: Doc): seq<Glyph> {
    if d.levels == [] then [] else Right(d.(levels := d.levels[1..]))
  }

  lemma Sides(d: Doc)
    ensures Left(d) == OuterLeft(d) + AllGlyphs(BeforeOf(d), At(d.levels))
    ensures Right(d) == AllGlyphs(AfterOf(d), At(d.levels)) + OuterRight(d)
  {
    hide AllGlyphs;
    if d.levels == [] {
      assert [] + AllGlyphs(d.before, BODY) == AllGlyphs(d.before, BODY);
      assert AllGlyphs(d.after, BODY) + [] == AllGlyphs(d.after, BODY);
    }
  }

  /** Changing the content of the innermost element changes nothing around it. */
  lemma ReplaceSides(d: Doc, before: seq<Node>, after: seq<Node>)
    ensures var d', ctx := Replace(d, before, after), At(d.levels);
            && At(d'.levels) == ctx && |d'.levels| == |d.levels|
            && BeforeOf(d') == before && AfterOf(d') == after
            && Left(d') == OuterLeft(d) + AllGlyphs(before, ctx)
            && Right(d') == AllGlyphs(after, ctx) + OuterRight(d)
  {
    hide AllGlyphs, Within;
    var d' := Replace(d, before, after);
    if d.levels != [] {
      assert d'.levels[1..] == d.levels[1..];
      assert d'.(levels := d'.levels[1..]) == d.(levels := d.levels[1..]);
    } else {
      assert [] + AllGlyphs(before, BODY) == AllGlyphs(before, BODY);
      assert AllGlyphs(after, BODY) + [] == AllGlyphs(after, BODY);
    }
  }

  /** Lifting a move inside the innermost element to the document: `moved` passes the hole from behind
      to the front, `inserted` is put in front of it. */
  lemma LocalMove(d: Doc, before: seq<Node>, after: seq<Node>, moved: seq<Glyph>, inserted: seq<Glyph>)
    requires AllGlyphs(before, At(d.levels)) == AllGlyphs(BeforeOf(d), At(d.levels)) + moved + inserted
    requires AllGlyphs(AfterOf(d), At(d.levels)) == moved + AllGlyphs(after, At(d.levels))
    ensures var d' := Replace(d, before, after);
            && Left(d') == Left(d) + moved + inserted && Right(d) == moved + Right(d')
            && At(d'.levels) == At(d.levels) && |d'.levels| == |d.levels|
            && BeforeOf(d') == before && AfterOf(d') == after
  {
    hide AllGlyphs, Left, Right, At, Replace, OuterLeft, OuterRight;
    var ctx := At(d.levels);
    Sides(d);
    ReplaceSides(d, before, after);
    assert OuterLeft(d) + (AllGlyphs(BeforeOf(d), ctx) + moved + inserted)
        == OuterLeft(d) + AllGlyphs(BeforeOf(d), ctx) + moved + inserted;
    assert moved + AllGlyphs(after, ctx) + OuterRight(d) == moved + (AllGlyphs(after, ctx) + OuterRight(d));
  }

  lemma GlyphsSnoc(ns: seq<Node>, n: Node, ctx: Context)
    ensures AllGlyphs(ns + [n], ctx) == AllGlyphs(ns, ctx) + Glyphs(n, ctx)
  {
    hide AllGlyphs, Glyphs;
    GlyphsConcat(ns, [n], ctx);
    GlyphsOne(n, ctx);
  }

  // ---------------------------------------------------------------- moves of the hole

  /** Over a node without content to enter. */
  function Skip(d: Doc): Doc
    requires AfterOf(d) != []
  {
    Replace(d, BeforeOf(d) + [AfterOf(d)[0]], AfterOf(d)[1..])
  }

  lemma SkipMoves(d: Doc)
    requires AfterOf(d) != []
    ensures var gs := Glyphs(AfterOf(d)[0], At(d.levels));
            Left(Skip(d)) == Left(d) + gs && Right(d) == gs + Right(Skip(d))
  {
    hide AllGlyphs, Glyphs, Left, Right, At;
    var before, after, ctx := BeforeOf(d), AfterOf(d), At(d.levels);
    GlyphsSnoc(before, after[0], ctx);
    GlyphsCons(after, ctx);
    var gs := Glyphs(after[0], ctx);
    assert AllGlyphs(before, ctx) + gs + [] == AllGlyphs(before, ctx) + gs;
    LocalMove(d, before + [after[0]], after[1..], gs, []);
    assert Left(d) + gs + [] == Left(d) + gs;
  }

  lemma GlyphsCons(ns: seq<Node>, ctx: Context)
    requires ns != []
    ensures AllGlyphs(ns, ctx) == Glyphs(ns[0], ctx) + AllGlyphs(ns[1..], ctx)
  {
  }

  /** Into a span. */
  function Enter(d: Doc): Doc
    requires AfterOf(d) != [] && AfterOf(d)[0].Span?
  {
    var span := AfterOf(d)[0];
    var outer := Replace(d, BeforeOf(d), AfterOf(d)[1..]);
    outer.(levels := [Level(span.cls, span.style, [], span.children)] + outer.levels)
  }

  lemma EnterMoves(d: Doc)
    requires AfterOf(d) != [] && AfterOf(d)[0].Span?
    ensures Left(Enter(d)) == Left(d) && Right(Enter(d)) == Right(d)
  {
    hide Left, Right, AllGlyphs, Glyphs, At, Replace;
    var span, ctx := AfterOf(d)[0], At(d.levels);
    var outer, d' := Replace(d, BeforeOf(d), AfterOf(d)[1..]), Enter(d);
    Sides(d);
    ReplaceSides(d, BeforeOf(d), AfterOf(d)[1..]);
    GlyphsCons(AfterOf(d), ctx);
    Entered(outer, span);
    assert Left(outer) == Left(d);
    assert Glyphs(span, ctx) + (AllGlyphs(AfterOf(d)[1..], ctx) + OuterRight(d))
        == Glyphs(span, ctx) + AllGlyphs(AfterOf(d)[1..], ctx) + OuterRight(d);
  }

  /** The hole at the start of a new innermost element. */
  lemma Entered(outer: Doc, span: Node)
    requires span.Span?
    ensures var d' := outer.(levels := [Level(span.cls, span.style, [], span.children)] + outer.levels);
            Left(d') == Left(outer) && Right(d') == Glyphs(span, At(outer.levels)) + Right(outer)
  {
    hide AllGlyphs, Within;
    var d' := outer.(levels := [Level(span.cls, span.style, [], span.children)] + outer.levels);
    assert d'.levels[1..] == outer.levels;
    assert d'.(levels := d'.levels[1..]) == outer;
    NothingBefore(At(d'.levels));
    assert Left(outer) + [] == Left(outer);
  }

  lemma NothingBefore(ctx: Context)
    ensures AllGlyphs([], ctx) == []
  {
  }

  /** Out of an element that has nothing more behind the hole. */
  lemma LeaveMoves(d: Doc)
    requires d.levels != [] && AfterOf(d) == []
    ensures Left(Pop(d)) == Left(d) && Right(Pop(d)) == Right(d) && |Pop(d).levels| == |d.levels| - 1
    ensures AfterOf(Pop(d)) == AfterOf(d.(levels := d.levels[1..]))
  {
    PopPreserves(d);
    hide Left, Right;
  }

  // ---------------------------------------------------------------- text

  lemma LettersConcat(a: string, b: string, ctx: Context)
    ensures Letters(a + b, ctx) == Letters(a, ctx) + Letters(b, ctx)
  {
  }

  /** The text nodes that end right in front of the hole, and what is in front of those. */
  function Trailing(before: seq<Node>): string {
    if before == [] || !before[|before| - 1].Text? then []
    else Trailing(before[..|before| - 1]) + before[|before| - 1].data
  }

  function Stripped(before: seq<Node>): seq<Node> {
    if before == [] || !before[|before| - 1].Text? then before else Stripped(before[..|before| - 1])
  }

  lemma {:induction false} TrailingGlyphs(before: seq<Node>, ctx: Context)
    ensures AllGlyphs(before, ctx) == AllGlyphs(Stripped(before), ctx) + Letters(Trailing(before), ctx)
    decreases |before|
  {
    hide AllGlyphs, Letters;
    if before == [] || !before[|before| - 1].Text? {
      assert Letters([], ctx) == [] by { NoLetters(ctx); }
      assert AllGlyphs(before, ctx) + [] == AllGlyphs(before, ctx);
    } else {
      var n := |before| - 1;
      TrailingGlyphs(before[..n], ctx);
      assert before == before[..n] + [before[n]];
      GlyphsSnoc(before[..n], before[n], ctx);
      LettersConcat(Trailing(before[..n]), before[n].data, ctx);
      var front := AllGlyphs(Stripped(before), ctx);
      assert front + Letters(Trailing(before[..n]), ctx) + Letters(before[n].data, ctx)
          == front + (Letters(Trailing(before[..n]), ctx) + Letters(before[n].data, ctx));
    }
  }

  lemma NoLetters(ctx: Context)
    ensures Letters([], ctx) == []
  {
  }

  /** The hole moves `k` characters into the next text node, with something inserted there: adjacent text
      nodes are merged, and the node is split unless the hole ends up behind it. */
  function PassText(d: Doc, k: nat, inserted: string): Doc
    requires AfterOf(d) != [] && AfterOf(d)[0].Text? && k <= |AfterOf(d)[0].data|
  {
    var s, more := AfterOf(d)[0].data, AfterOf(d)[1..];
    var front := Stripped(BeforeOf(d)) + [Text(Trailing(BeforeOf(d)) + s[..k] + inserted)];
    Replace(d, front, if k == |s| then more else [Text(s[k..])] + more)
  }

  lemma PassTextMoves(d: Doc, k: nat, inserted: string)
    requires AfterOf(d) != [] && AfterOf(d)[0].Text? && k <= |AfterOf(d)[0].data|
    ensures var s, d', ctx := AfterOf(d)[0].data, PassText(d, k, inserted), At(d.levels);
            && Left(d') == Left(d) + Letters(s[..k], ctx) + Letters(inserted, ctx)
            && Right(d) == Letters(s[..k], ctx) + Right(d')
            && At(d'.levels) == ctx && |d'.levels| == |d.levels|
            && AfterOf(d') == (if k == |s| then AfterOf(d)[1..] else [Text(s[k..])] + AfterOf(d)[1..])
  {
    hide AllGlyphs, Left, Right, Letters, At, Trailing, Stripped;
    var s, ctx, before, more := AfterOf(d)[0].data, At(d.levels), BeforeOf(d), AfterOf(d)[1..];
    var data := Trailing(before) + s[..k] + inserted;
    var after := if k == |s| then more else [Text(s[k..])] + more;
    TrailingGlyphs(before, ctx);
    GlyphsSnoc(Stripped(before), Text(data), ctx);
    LettersConcat(Trailing(before) + s[..k], inserted, ctx);
    LettersConcat(Trailing(before), s[..k], ctx);
    var front := AllGlyphs(Stripped(before), ctx);
    assert front + (Letters(Trailing(before), ctx) + Letters(s[..k], ctx) + Letters(inserted, ctx))
        == front + Letters(Trailing(before), ctx) + Letters(s[..k], ctx) + Letters(inserted, ctx);
    assert AfterOf(d) == [Text(s)] + more;
    if k == |s| {
      assert s[..k] == s;
      GlyphsCons(AfterOf(d), ctx);
    } else {
      TextSplits(s, k, more, ctx);
    }
    LocalMove(d, Stripped(before) + [Text(data)], after, Letters(s[..k], ctx), Letters(inserted, ctx));
  }

  lemma TextSplits(s: string, k: nat, more: seq<Node>, ctx: Context)
    requires k <= |s|
    ensures AllGlyphs([Text(s)] + more, ctx) == Letters(s[..k], ctx) + AllGlyphs([Text(s[k..])] + more, ctx)
  {
    hide AllGlyphs, Letters;
    assert s == s[..k] + s[k..];
    LettersConcat(s[..k], s[k..], ctx);
    GlyphsConcat([Text(s)], more, ctx);
    GlyphsConcat([Text(s[k..])], more, ctx);
    GlyphsOne(Text(s), ctx);
    GlyphsOne(Text(s[k..]), ctx);
  }

  /** Text put directly in front of the hole, joining a text node that ends there. */
  function InsertText(d: Doc, s: string): Doc {
    Replace(d, WithText(BeforeOf(d), s), AfterOf(d))
  }

  function WithText(nodes: seq<Node>, s: string): seq<Node> {
    var n := |nodes| - 1;
    if nodes != [] && nodes[n].Text? then nodes[..n] + [Text(nodes[n].data + s)] else nodes + [Text(s)]
  }

  lemma WithTextGlyphs(nodes: seq<Node>, s: string, ctx: Context)
    ensures AllGlyphs(WithText(nodes, s), ctx) == AllGlyphs(nodes, ctx) + Letters(s, ctx)
  {
    hide AllGlyphs, Letters;
    var n := |nodes| - 1;
    if nodes != [] && nodes[n].Text? {
      GlyphsSnoc(nodes[..n], Text(nodes[n].data + s), ctx);
      GlyphsSnoc(nodes[..n], nodes[n], ctx);
      assert nodes == nodes[..n] + [nodes[n]];
      LettersConcat(nodes[n].data, s, ctx);
    } else {
      GlyphsSnoc(nodes, Text(s), ctx);
    }
  }

  lemma InsertTextMoves(d: Doc, s: string)
    ensures Left(InsertText(d, s)) == Left(d) + Letters(s, At(d.levels))
    ensures Right(InsertText(d, s)) == Right(d)
    ensures |InsertText(d, s).levels| == |d.levels| && AfterOf(InsertText(d, s)) == AfterOf(d)
    ensures At(InsertText(d, s).levels) == At(d.levels)
  {
    hide AllGlyphs, Left, Right, Letters, At, WithText, Replace;
    var before, ctx := BeforeOf(d), At(d.levels);
    WithTextGlyphs(before, s, ctx);
    assert AllGlyphs(before, ctx) + [] == AllGlyphs(before, ctx);
    assert [] + AllGlyphs(AfterOf(d), ctx) == AllGlyphs(AfterOf(d), ctx);
    LocalMove(d, WithText(before, s), AfterOf(d), [], Letters(s, ctx));
    assert Left(d) + [] + Letters(s, ctx) == Left(d) + Letters(s, ctx);
    assert [] + Right(InsertText(d, s)) == Right(InsertText(d, s));
  }

  // ---------------------------------------------------------------- text nodes in front of the hole

  /** Passing text leaves one text node in front of the hole, and no other one directly in front of that. */
  lemma TextMerged(d: Doc, k: nat, inserted: string)
    requires AfterOf(d) != [] && AfterOf(d)[0].Text? && k <= |AfterOf(d)[0].data|
    ensures var before := BeforeOf(PassText(d, k, inserted));
            && before != [] && before[|before| - 1].Text?
            && (|before| > 1 ==> !before[|before| - 2].Text?)
  {
    StrippedEnds(BeforeOf(d));
  }

  lemma {:induction false} StrippedEnds(before: seq<Node>)
    ensures Stripped(before) != [] ==> !Stripped(before)[|Stripped(before)| - 1].Text?
    decreases |before|
  {
    if before != [] {
      StrippedEnds(before[..|before| - 1]);
    }
  }

  /** Inserted text joins a text node that ends in front of the hole; only otherwise there is one node more. */
  lemma TextJoined(d: Doc, s: string)
    ensures var before, now := BeforeOf(d), BeforeOf(InsertText(d, s));
            && now != [] && now[|now| - 1].Text?
            && |now| == |before| + if before != [] && before[|before| - 1].Text? then 0 else 1
  {
  }
}
