/** The terminal's cursor: the place of the input line in the document and the cached line and column
    that moveTo keeps beside it. When is the cache right, and does it matter where a move starts? */
module Cursor {
  import opened Words
  import opened Styles
  import opened Positions
  import opened Remains
  import opened Walking
  import opened Moving

  // ---------------------------------------------------------------- starting from home

  /** The children of cursorHome with the input line taken out. */
  function Close(d: Doc): seq<Node>
    decreases |d.levels|
  {
    if d.levels == [] then d.before + d.after
    else
      var l, rest := d.levels[0], d.(levels := d.levels[1..]);
      Close(Beside(rest, [Span(l.cls, l.style, l.before + l.after)], []))
  }

  /** The hole in front of everything. */
  function Home(d: Doc): Doc {
    Doc([], [], Close(d))
  }

  lemma {:induction false} HomeKeepsContent(d: Doc)
    ensures Left(Home(d)) == [] && Right(Home(d)) == Content(d)
    decreases |d.levels|
  {
    hide AllGlyphs, Left, Right, Content;
    HomeSides(Close(d));
    if d.levels == [] {
      GlyphsConcat(d.before, d.after, BODY);
      HomeSides(d.after);
      RootContent(d);
    } else {
      var l, rest := d.levels[0], d.(levels := d.levels[1..]);
      var d1 := Beside(rest, [Span(l.cls, l.style, l.before + l.after)], []);
      HomeKeepsContent(d1);
      ClosedOnce(d);
    }
  }

  lemma HomeSides(ns: seq<Node>)
    ensures Left(Doc([], [], ns)) == [] && Right(Doc([], [], ns)) == AllGlyphs(ns, BODY)
  {
  }

  lemma RootContent(d: Doc)
    requires d.levels == []
    ensures Content(d) == AllGlyphs(d.before, BODY) + AllGlyphs(d.after, BODY)
  {
  }

  /** Closing one element around the hole. */
  lemma ClosedOnce(d: Doc)
    requires d.levels != []
    ensures var l, rest := d.levels[0], d.(levels := d.levels[1..]);
            Content(Beside(rest, [Span(l.cls, l.style, l.before + l.after)], [])) == Content(d)
  {
    hide AllGlyphs, Left, Right, At, Glyphs, Beside;
    var l, rest := d.levels[0], d.(levels := d.levels[1..]);
    var span, ctx := Span(l.cls, l.style, l.before + l.after), At(d.levels);
    BesideGlyphs(rest, [span], []);
    GlyphsOne(span, At(rest.levels));
    GlyphsConcat(l.before, l.after, ctx);
    NothingBefore(At(rest.levels));
    SpanContext(d);
    assert [] + Right(rest) == Right(rest);
    assert Left(rest) + (AllGlyphs(l.before, ctx) + AllGlyphs(l.after, ctx)) + Right(rest)
        == (Left(rest) + AllGlyphs(l.before, ctx)) + (AllGlyphs(l.after, ctx) + Right(rest));
  }

  lemma SpanContext(d: Doc)
    requires d.levels != []
    ensures var l, rest := d.levels[0], d.(levels := d.levels[1..]);
            && Glyphs(Span(l.cls, l.style, l.before + l.after), At(rest.levels))
               == AllGlyphs(l.before + l.after, At(d.levels))
            && Left(d) == Left(rest) + AllGlyphs(l.before, At(d.levels))
            && Right(d) == AllGlyphs(l.after, At(d.levels)) + Right(rest)
  {
  }

  // ---------------------------------------------------------------- the law

  /** Where the cursor is. */
  function Place(d: Doc): Pos {
    Locate(Chars(Left(d)), HOME)
  }

  /** What a caller can tell beforehand: moveTo records a false position exactly if it comes to the end of
      the document above the goal line with a column left over, or if the last thing in the document
      carries it beyond the goal: a tab that stops elsewhere, or a newline and a negative column. */
  predicate Honest(start: Doc, goal: Pos) {
    var items, p := Chars(Right(start)), Place(start);
    var s := Seek(items, p, goal);
    match s
    case Reached(n, _) => RunsOut(start, s) ==> !Overshoots(items, n, p, goal)
    case Short(_, _) => true
    case AtEnd(at) => at.line == goal.line || goal.col == 0 || (at.col == 0 && goal.col >= 0)
  }

  /** After a move the cursor is where the content in front of it says, and the recorded position is
      that one if and only if the stop was honest. */
  lemma RecordedExact(start: Doc, goal: Pos, d: Doc, at: Pos, ctx: Context)
    requires 0 <= Place(start).line <= goal.line && Place(start).col >= 0
    requires Moved(start, Place(start), goal, d, at, ctx)
    ensures var s := Seek(Chars(Right(start)), Place(start), goal);
            && Place(d) == Arrival(s, goal)
            && (at == Place(d) <==> Honest(start, goal))
  {
    hide Left, Right, Seek, Locate, SolidEnd;
    var p, items := Place(start), Chars(Right(start));
    var s := Seek(items, p, goal);
    var n := Passed(s, items);
    var pad := Filling(s, goal);
    ArrivalIsTrue(items, p, goal);
    CharsConcat(Left(start) + Right(start)[..n], Marked(pad, ctx));
    CharsConcat(Left(start), Right(start)[..n]);
    assert Chars(Right(start)[..n]) == items[..n];
    assert Chars(Left(start)) + items[..n] + pad == Chars(Left(start)) + (items[..n] + pad);
    LocateConcat(Chars(Left(start)), items[..n] + pad, HOME);
    if !s.Reached? {
      RecordedGoalExact(items, p, goal);
    } else if s.n > 0 {
      ReachedExact(items, p, goal);
    }
  }

  predicate Blank(c: Item) {
    c == Some(' ') || c == Some('\n')
  }

  /** A move adds spaces and newlines at the new cursor and changes nothing else: every character keeps
      its order, its classes and its properties. */
  lemma OnlyBlanksAdded(start: Doc, p: Pos, goal: Pos, d: Doc, at: Pos, ctx: Context)
    requires Moved(start, p, goal, d, at, ctx)
    ensures exists k, pad: seq<Glyph> ::
              && 0 <= k <= |Content(start)|
              && Left(d) == Content(start)[..k] + pad && Right(d) == Content(start)[k..]
              && forall i :: 0 <= i < |pad| ==> Blank(pad[i].c)
  {
    hide Left, Right, Seek;
    var right := Right(start);
    var s := Seek(Chars(right), p, goal);
    var n := Passed(s, Chars(right));
    var pad := Marked(Filling(s, goal), ctx);
    var k := |Left(start)| + n;
    assert Content(start)[..k] == Left(start) + right[..n];
    assert Content(start)[k..] == right[n..];
    assert forall i :: 0 <= i < |pad| ==> Blank(pad[i].c);
  }

  class Screen {
    var doc: Doc
    var currentCursorLine: int
    var currentCursorColumn: int

    constructor (d: Doc)
      ensures doc == d && currentCursorLine == currentCursorColumn == -1
    {
      doc, currentCursorLine, currentCursorColumn := d, -1, -1;
    }

    predicate Known()
      reads this
    {
      currentCursorLine >= 0 && currentCursorColumn >= 0
    }

    function Cached(): Pos
      reads this
    {
      Pos(currentCursorLine, currentCursorColumn)
    }

    /** moveTo(goalLine, goalColumn): from the cursor if that is not behind the goal, else from home. */
    method MoveTo(goalLine: int, goalColumn: int)
      requires goalLine >= 0 && NoCarriageReturn(Content(doc))
      modifies this
      ensures var goal := Pos(goalLine, goalColumn);
              if old(Known()) && NotBefore(goal, old(Cached()))
              then exists ctx: Context :: Moved(old(doc), old(Cached()), goal, doc, Cached(), ctx)
              else exists ctx: Context :: Moved(Home(old(doc)), HOME, goal, doc, Cached(), ctx)
      ensures var goal := Pos(goalLine, goalColumn);
              var start := if old(Known()) && NotBefore(goal, old(Cached())) then old(doc) else Home(old(doc));
              (old(Known()) ==> old(Cached()) == Place(old(doc))) ==>
                (Cached() == Place(doc) <==> Honest(start, goal))
    {
      hide Moved, Content, Place, Honest, Seek, Right;
      var goal := Pos(goalLine, goalColumn);
      var start, p := Home(doc), HOME;
      HomeContent(doc);
      if Known() && NotBefore(goal, Cached()) {
        start, p := doc, Cached();
      }
      var d, at := Walk(start, p, goal);
      ghost var ctx: Context :| Moved(start, p, goal, d, at, ctx);
      HomePlace(doc);
      if (Known() ==> Cached() == Place(doc)) {
        RecordedExact(start, goal, d, at, ctx);
      }
      doc, currentCursorLine, currentCursorColumn := d, at.line, at.col;
      assert Moved(start, p, goal, doc, Cached(), ctx);
    }
  }

  lemma HomeContent(d: Doc)
    ensures Content(Home(d)) == Content(d)
  {
    hide Left, Right;
    HomeKeepsContent(d);
  }

  lemma HomePlace(d: Doc)
    ensures Place(Home(d)) == HOME
  {
    HomeKeepsContent(d);
    LocateNothing(HOME);
  }

  /** Fast and slow start: with a right cache, starting at the cursor and starting at home lead to the
      same line and column and add the same blanks; also at the same place, if and only if the goal is
      not where the cursor already is, behind a zero-width character. */
  lemma StartsAgree(d: Doc, goal: Pos)
    requires goal.line >= 0 && NotBefore(goal, Place(d))
    ensures var fast := Seek(Chars(Right(d)), Place(d), goal);
            var slow := Seek(Chars(Right(Home(d))), HOME, goal);
            && Arrival(slow, goal) == Arrival(fast, goal) && Filling(slow, goal) == Filling(fast, goal)
            && (Passed(slow, Chars(Right(Home(d)))) == |Left(d)| + Passed(fast, Chars(Right(d)))
                <==> !(goal == Place(d) && EndsInZeroWidth(Chars(Left(d)))))
  {
    hide Left, Right, Seek, Locate;
    HomeKeepsContent(d);
    CharsConcat(Left(d), Right(d));
    FastStartExact(Chars(Left(d)), Chars(Right(d)), goal);
  }

  /** Moving below a last line that is not empty goes wrong: one line "ab", a move to line 1, column 3
      adds one space only and records column 3. */
  lemma MoveBelowLastLine()
    ensures var d, goal := Doc([], [], [Text("ab")]), Pos(1, 3);
            var s := Seek(Chars(Right(d)), Place(d), goal);
            && s == AtEnd(Pos(0, 2)) && !Honest(d, goal) && Arrival(s, goal) == Pos(1, 1)
  {
    var d, items := Doc([], [], [Text("ab")]), [Some('a'), Some('b')];
    GlyphsOne(Text("ab"), BODY);
    StrLetters("ab", BODY);
    assert Str("ab") == items;
    LocateNothing(HOME);
    assert items[1..] == [Some('b')] && items[1..][1..] == [];
    assert Seek(items[1..], Pos(0, 1), Pos(1, 3)) == AtEnd(Pos(0, 2));
  }

  /** Passing the goal by a tab at the very end goes wrong too: a tab, a move to column 3. */
  lemma TabAtTheEnd()
    ensures var d, goal := Doc([], [], [Text("\t")]), Pos(0, 3);
            var s := Seek(Chars(Right(d)), Place(d), goal);
            && s == Reached(1, Pos(0, 8)) && RunsOut(d, s) && !Honest(d, goal)
  {
    var d, items := Doc([], [], [Text("\t")]), [Some('\t')];
    GlyphsOne(Text("\t"), BODY);
    StrLetters("\t", BODY);
    assert Str("\t") == items;
    LocateNothing(HOME);
    assert items[1..] == [];
    assert [Text("\t")][1..] == [];
    assert Rest(d) == [true];
  }

  /** So does a negative column, as ESC [ 2 ; 0 H asks for: behind a newline the cursor is at column 0, and
      -1 is recorded. */
  lemma NegativeColumn()
    ensures var d, goal := Doc([], [], [Text("\n")]), Pos(1, -1);
            var s := Seek(Chars(Right(d)), Place(d), goal);
            && s == Reached(1, Pos(1, 0)) && RunsOut(d, s) && !Honest(d, goal)
  {
    var d, items := Doc([], [], [Text("\n")]), [Some('\n')];
    GlyphsOne(Text("\n"), BODY);
    StrLetters("\n", BODY);
    assert Str("\n") == items;
    LocateNothing(HOME);
    assert items[1..] == [];
    assert [Text("\n")][1..] == [];
    assert Rest(d) == [true];
  }
}
