/** moveTo as it runs: a walk through the tree in document order that stops at the goal, pads a line
    that is too short, or appends lines and spaces at the end. */
module Moving {
  import opened Words
  import opened Styles
  import opened Positions
  import opened Remains
  import opened Walking

  function Str(s: string): (items: seq<Item>)
    ensures |items| == |s| && forall i :: 0 <= i < |s| ==> items[i] == Some(s[i])
  {
    seq(|s|, i requires 0 <= i < |s| => Some(s[i]))
  }

  lemma StrLetters(s: string, ctx: Context)
    ensures Chars(Letters(s, ctx)) == Str(s) && Letters(s, ctx) == Marked(Str(s), ctx)
  {
  }

  lemma CharsConcat(a: seq<Glyph>, b: seq<Glyph>)
    ensures Chars(a + b) == Chars(a) + Chars(b)
  {
  }

  // ---------------------------------------------------------------- termination

  function Size(n: Node): nat
    decreases n
  {
    match n
    case Text(_) => 1
    case Br => 1
    case Span(_, _, children) => 2 + Sizes(children)
  }

  function Sizes(ns: seq<Node>): nat
    decreases ns
  {
    if ns == [] then 0 else Size(ns[0]) + Sizes(ns[1..])
  }

  /** What is left to walk. */
  function Weight(d: Doc): nat
    decreases |d.levels|
  {
    if d.levels == [] then Sizes(d.after)
    else 1 + Sizes(d.levels[0].after) + Weight(d.(levels := d.levels[1..]))
  }

  lemma ReplaceWeight(d: Doc, before: seq<Node>, after: seq<Node>)
    ensures Weight(Replace(d, before, after)) == Weight(d) - Sizes(AfterOf(d)) + Sizes(after)
  {
    hide Sizes;
    if d.levels != [] {
      var d' := Replace(d, before, after);
      assert d'.(levels := d'.levels[1..]) == d.(levels := d.levels[1..]);
    }
  }

  lemma SkipWeight(d: Doc)
    requires AfterOf(d) != []
    ensures Weight(Skip(d)) < Weight(d)
  {
    ReplaceWeight(d, BeforeOf(d) + [AfterOf(d)[0]], AfterOf(d)[1..]);
  }

  lemma EnterWeight(d: Doc)
    requires AfterOf(d) != [] && AfterOf(d)[0].Span?
    ensures Weight(Enter(d)) < Weight(d)
  {
    ReplaceWeight(d, BeforeOf(d), AfterOf(d)[1..]);
    var outer := Replace(d, BeforeOf(d), AfterOf(d)[1..]);
    assert Enter(d).levels[1..] == outer.levels;
    assert Enter(d).(levels := Enter(d).levels[1..]) == outer;
  }

  lemma LeaveWeight(d: Doc)
    requires d.levels != [] && AfterOf(d) == []
    ensures Weight(Pop(d)) < Weight(d)
  {
    hide Sizes;
    var rest, span := d.(levels := d.levels[1..]), Span(d.levels[0].cls, d.levels[0].style, d.levels[0].before);
    assert [] + AfterOf(rest) == AfterOf(rest);
    assert Pop(d) == Replace(rest, BeforeOf(rest) + [span], AfterOf(rest));
    ReplaceWeight(rest, BeforeOf(rest) + [span], AfterOf(rest));
  }

  lemma PassWeight(d: Doc, inserted: string)
    requires AfterOf(d) != [] && AfterOf(d)[0].Text?
    ensures Weight(PassText(d, |AfterOf(d)[0].data|, inserted)) < Weight(d)
  {
    var s := AfterOf(d)[0].data;
    ReplaceWeight(d, Stripped(BeforeOf(d)) + [Text(Trailing(BeforeOf(d)) + s[..|s|] + inserted)], AfterOf(d)[1..]);
  }

  // ---------------------------------------------------------------- seeking, piece by piece

  /** One more item of content. */
  lemma SeekStep(items: seq<Item>, p: Pos, goal: Pos)
    requires items != [] && !Met(p, goal)
    ensures Seek(items, p, goal)
         == if IsNewline(items[0]) && p.line == goal.line then Short(0, p)
            else Further(Seek(items[1..], Step(items[0], p), goal), 1)
  {
  }

  lemma FurtherTwice(s: Stop, t: Stop, u: Stop, a: nat, b: nat)
    requires s == Further(t, a) && t == Further(u, b)
    ensures s == Further(u, a + b)
  {
  }

  /** makeSpaces: eight at a time, then one at a time. */
  method MakeSpaces(count: int) returns (s: string)
    ensures Str(s) == Repeat(' ', count)
  {
    s := [];
    var left := count;
    while left >= 8
      invariant |s| + left == count && (count >= 0 ==> left >= 0) && (count < 0 ==> s == [])
      invariant forall i :: 0 <= i < |s| ==> s[i] == ' '
    {
      s := s + "        ";
      left := left - 8;
    }
    while left > 0
      invariant |s| + left == count && (count >= 0 ==> left >= 0) && (count < 0 ==> s == [])
      invariant forall i :: 0 <= i < |s| ==> s[i] == ' '
    {
      s := s + " ";
      left := left - 1;
    }
  }

  /** The text loop: characters are passed until the goal is met, a newline comes too early, or the
      text ends. `more` is what follows the text. */
  method WalkText(d: Doc, p: Pos, goal: Pos, ghost more: seq<Item>)
    returns (d': Doc, at: Pos, ghost k: nat, short: bool)
    requires AfterOf(d) != [] && AfterOf(d)[0].Text? && !Met(p, goal) && p.line <= goal.line
    ensures k <= |AfterOf(d)[0].data|
    ensures var s := AfterOf(d)[0].data;
            var q := Locate(Str(s)[..k], p);
            if short then
              && at == goal && k < |s|
              && Seek(Str(s) + more, p, goal) == Short(k, q)
              && exists spaces :: Str(spaces) == Repeat(' ', goal.col - q.col) && d' == PassText(d, k, spaces)
            else
              && at == q && d' == PassText(d, k, []) && at.line <= goal.line
              && Seek(Str(s) + more, p, goal) == Further(Seek(Str(s)[k..] + more, q, goal), k)
              && (k < |s| ==> Met(at, goal))
  {
    var s := AfterOf(d)[0].data;
    var i := 0;
    at := p;
    short := false;
    ghost var items := Str(s);
    assert items[..0] == [] && items[0..] == items;
    while i < |s| && !Met(at, goal)
      invariant i <= |s| && at == Locate(items[..i], p) && at.line <= goal.line
      invariant Seek(items + more, p, goal) == Further(Seek(items[i..] + more, at, goal), i)
    {
      ghost var rest := items[i..] + more;
      assert rest[0] == items[i] && rest[1..] == items[i + 1..] + more;
      SeekStep(rest, at, goal);
      if IsNewline(Some(s[i])) && at.line == goal.line {
        var spaces := MakeSpaces(goal.col - at.col);
        d' := PassText(d, i, spaces);
        k, short, at := i, true, goal;
        return;
      }
      assert items[..i + 1] == items[..i] + [items[i]];
      LocateConcat(items[..i], [items[i]], p);
      LocateOne(items[i], at);
      FurtherTwice(Seek(items + more, p, goal), Seek(rest, at, goal), Seek(rest[1..], Step(items[i], at), goal), i, 1);
      at := Step(Some(s[i]), at);
      i := i + 1;
    }
    k := i;
    d' := PassText(d, i, []);
  }

  // ---------------------------------------------------------------- the walk

  /** The hole has come from `start` at `p` to `d` at `cur`, passing content only. */
  ghost predicate OnTheWay(start: Doc, p: Pos, goal: Pos, d: Doc, cur: Pos) {
    && cur.line <= goal.line && SameEnd(Rest(start), Rest(d))
    && |Left(start)| <= |Left(d)| && Content(d) == Content(start)
    && Seek(Chars(Right(start)), p, goal)
       == Further(Seek(Chars(Right(d)), cur, goal), |Left(d)| - |Left(start)|)
  }

  /** The move has ended with the hole in `d` and `at` recorded as its position: content up to the stop
      is in front of it, then the padding, and the rest is behind it. The goal itself is recorded
      if the line was too short or the walk ran out of document. Nodes behind the hole end as before. */
  ghost predicate Moved(start: Doc, p: Pos, goal: Pos, d: Doc, at: Pos, ctx: Context) {
    var right := Right(start);
    var s := Seek(Chars(right), p, goal);
    var n := Passed(s, Chars(right));
    && n <= |right|
    && Left(d) == Left(start) + right[..n] + Marked(Filling(s, goal), ctx)
    && Right(d) == right[n..]
    && at == (if s.Short? || RunsOut(start, s) then goal else s.at)
    && SameEnd(Rest(start), Rest(d))
  }

  /** The walk comes to the end of the document: it does not find the goal, or it meets the goal with the
      last content, and no empty node follows that. */
  predicate RunsOut(start: Doc, s: Stop) {
    s.AtEnd? || (s.Reached? && 0 < s.n == |Right(start)| && SolidEnd(start))
  }

  lemma Start(d: Doc, p: Pos, goal: Pos)
    requires p.line <= goal.line
    ensures OnTheWay(d, p, goal, d, p)
  {
    hide Left, Right, Seek;
  }

  lemma SameContent(start: Doc, p: Pos, goal: Pos, d: Doc, cur: Pos, d': Doc)
    requires OnTheWay(start, p, goal, d, cur) && Left(d') == Left(d) && Right(d') == Right(d)
    requires SameEnd(Rest(d), Rest(d')) && (Rest(d') != [] ==> Rest(d) != [])
    ensures OnTheWay(start, p, goal, d', cur)
  {
    hide Left, Right, Seek, Rest, SameEnd;
    EndsChain(Rest(start), Rest(d), Rest(d'));
  }

  lemma EndsChain(a: seq<bool>, b: seq<bool>, c: seq<bool>)
    requires SameEnd(a, b) && SameEnd(b, c) && (c != [] ==> b != [])
    ensures SameEnd(a, c)
  {
  }

  lemma PassContent(start: Doc, p: Pos, goal: Pos, d: Doc, cur: Pos, n: nat, d': Doc, next: Pos)
    requires OnTheWay(start, p, goal, d, cur) && next.line <= goal.line
    requires Content(d') == Content(d) && |Left(d')| == |Left(d)| + n
    requires SameEnd(Rest(d), Rest(d')) && (Rest(d') != [] ==> Rest(d) != [])
    requires Seek(Chars(Right(d)), cur, goal) == Further(Seek(Chars(Right(d')), next, goal), n)
    ensures OnTheWay(start, p, goal, d', next)
  {
    hide Left, Right, Seek, Chars, Further, Content, Rest, SameEnd;
    EndsChain(Rest(start), Rest(d), Rest(d'));
    FurtherTwice(Seek(Chars(Right(start)), p, goal), Seek(Chars(Right(d)), cur, goal),
                 Seek(Chars(Right(d')), next, goal), |Left(d)| - |Left(start)|, n);
  }

  lemma SameWhole(d: Doc, gs: seq<Glyph>, d': Doc)
    requires Left(d') == Left(d) + gs && Right(d) == gs + Right(d')
    ensures Content(d') == Content(d) && |Left(d')| == |Left(d)| + |gs|
  {
    hide Left, Right;
    assert Left(d) + (gs + Right(d')) == (Left(d) + gs) + Right(d');
  }

  lemma ContentSplit(start: Doc, d: Doc)
    requires Content(d) == Content(start) && |Left(start)| <= |Left(d)|
    ensures var m := |Left(d)| - |Left(start)|;
            && m <= |Right(start)| && Left(d) == Left(start) + Right(start)[..m] && Right(d) == Right(start)[m..]
  {
    hide Left, Right;
    var m := |Left(d)| - |Left(start)|;
    assert |Content(d)| == |Left(d)| + |Right(d)|;
    assert Left(d) == Content(d)[..|Left(d)|] && Right(d) == Content(d)[|Left(d)|..];
    assert Left(start) == Content(start)[..|Left(start)|] && Right(start) == Content(start)[|Left(start)|..];
    assert Content(start)[..|Left(d)|] == Content(start)[..|Left(start)|] + Content(start)[|Left(start)|..][..m];
    assert Content(start)[|Left(d)|..] == Content(start)[|Left(start)|..][m..];
  }

  lemma StopMet(start: Doc, p: Pos, goal: Pos, d: Doc, cur: Pos)
    requires OnTheWay(start, p, goal, d, cur) && Met(cur, goal) && (d == start || AfterOf(d) != [])
    ensures Moved(start, p, goal, d, cur, BODY)
  {
    hide Left, Right, Chars, Rest;
    ContentSplit(start, d);
    if d != start {
      NodesRemain(d);
      if SolidEnd(d) {
        SolidRight(d);
      }
    }
    assert Marked([], BODY) == [];
    assert Left(d) + [] == Left(d);
  }

  lemma StopShort(start: Doc, p: Pos, goal: Pos, d: Doc, cur: Pos, gs: seq<Glyph>, q: Pos,
                  spaces: string, ctx: Context, d': Doc)
    requires OnTheWay(start, p, goal, d, cur)
    requires Left(d') == Left(d) + gs + Letters(spaces, ctx) && Right(d) == gs + Right(d')
    requires Seek(Chars(Right(d)), cur, goal) == Short(|gs|, q)
    requires Str(spaces) == Repeat(' ', goal.col - q.col) && Rest(d') == Rest(d)
    ensures Moved(start, p, goal, d', goal, ctx)
  {
    hide Left, Right, Chars, Seek, Letters, Repeat, Str, Marked, RunsOut, Rest;
    ContentSplit(start, d);
    StrLetters(spaces, ctx);
    Resplit(Left(start), Right(start), |Left(d)| - |Left(start)|, gs, Right(d'));
  }

  lemma Resplit(left: seq<Glyph>, right: seq<Glyph>, m: nat, gs: seq<Glyph>, rest: seq<Glyph>)
    requires m <= |right| && right[m..] == gs + rest
    ensures m + |gs| <= |right| && right[m + |gs|..] == rest
    ensures left + right[..m] + gs == left + right[..m + |gs|]
  {
    assert right[m..][..|gs|] == gs && right[m..][|gs|..] == rest;
    assert right[..m + |gs|] == right[..m] + gs;
  }

  /** The end of the document: lines, then spaces, counted from the column of the last line. */
  lemma StopAtEnd(start: Doc, p: Pos, goal: Pos, d: Doc, cur: Pos, lines: string, fill: string, d': Doc)
    requires OnTheWay(start, p, goal, d, cur) && Right(d) == [] == Right(d')
    requires Str(lines) == Repeat('\n', goal.line - cur.line) && Str(fill) == Repeat(' ', goal.col - cur.col)
    requires Left(d') == Left(d) + Letters(lines, BODY) + Letters(fill, BODY)
    requires Met(cur, goal) ==> |Left(start)| < |Left(d)| && SolidEnd(start)
    requires Rest(d') == Rest(d)
    ensures Moved(start, p, goal, d', goal, BODY)
  {
    hide Left, Right, Letters, Str, Rest;
    ContentSplit(start, d);
    StrLetters(lines, BODY);
    StrLetters(fill, BODY);
    assert Chars(Right(d)) == [];
    var s := Seek(Chars(Right(start)), p, goal);
    var pad := Repeat('\n', goal.line - cur.line) + Repeat(' ', goal.col - cur.col);
    assert Marked(pad, BODY) == Letters(lines, BODY) + Letters(fill, BODY);
    assert Filling(s, goal) == pad;
    assert Left(d) + Letters(lines, BODY) + Letters(fill, BODY)
        == Left(d) + (Letters(lines, BODY) + Letters(fill, BODY));
    assert Right(start)[..|Right(start)|] == Right(start);
  }

  predicate NoCarriageReturn(gs: seq<Glyph>) {
    forall i :: 0 <= i < |gs| ==> gs[i].c != Some('\r')
  }

  method MakeLines(line: int, goalLine: int) returns (s: string)
    ensures Str(s) == Repeat('\n', goalLine - line)
  {
    s := [];
    var l := line;
    while l < goalLine
      invariant l == line + |s| && (line <= goalLine ==> l <= goalLine) && (line > goalLine ==> s == [])
      invariant forall i :: 0 <= i < |s| ==> s[i] == '\n'
    {
      s := s + "\n";
      l := l + 1;
    }
  }

  /** Nothing more in the whole document. */
  lemma NothingRight(d: Doc)
    requires d.levels == [] && d.after == []
    ensures Right(d) == []
  {
  }

  lemma NothingRests(d: Doc)
    requires d.levels == [] && d.after == []
    ensures Rest(d) == []
  {
  }

  lemma SameMarks(m: seq<bool>)
    ensures SameEnd(m, m)
  {
  }

  /** Up and on: out of elements that end here; `done` if that leads to the end of the document, where
      the missing lines and spaces are appended. */
  method GoUp(start: Doc, ghost p: Pos, goal: Pos, d0: Doc, cur: Pos) returns (d: Doc, done: bool)
    requires OnTheWay(start, p, goal, d0, cur) && AfterOf(d0) == []
    requires Met(cur, goal) ==> |Left(start)| < |Left(d0)| && (Rest(d0) == [] ==> SolidEnd(start))
    ensures done ==> Moved(start, p, goal, d, goal, BODY)
    ensures !done ==> OnTheWay(start, p, goal, d, cur) && Weight(d) < Weight(d0) && AfterOf(d) != []
  {
    hide OnTheWay, Moved, Weight, Left, Right, Rest, SolidEnd, SameEnd;
    d := d0;
    while true
      invariant OnTheWay(start, p, goal, d, cur) && AfterOf(d) == [] && Weight(d) <= Weight(d0)
      invariant Left(d) == Left(d0) && Rest(d) == Rest(d0)
      decreases |d.levels|
    {
      if d.levels == [] {
        NothingRight(d);
        assert Rest(d) == [] by { NothingRests(d); }
        var lines := MakeLines(cur.line, goal.line);
        var fill := MakeSpaces(goal.col - cur.col);
        InsertTextMoves(d, lines);
        var d1 := if lines == [] then d else InsertText(d, lines);
        if lines == [] {
          NoLetters(BODY);
          assert Left(d) + [] == Left(d);
        }
        assert Left(d1) == Left(d) + Letters(lines, BODY) && Right(d1) == [];
        InsertTextMoves(d1, fill);
        var d2 := if fill == [] then d1 else InsertText(d1, fill);
        if fill == [] {
          NoLetters(BODY);
          assert Left(d1) + [] == Left(d1);
        }
        InsertRest(d, lines);
        InsertRest(d1, fill);
        StopAtEnd(start, p, goal, d, cur, lines, fill, d2);
        return d2, true;
      }
      LeaveMoves(d);
      LeaveWeight(d);
      LeaveRest(d);
      SameMarks(Rest(d));
      SameContent(start, p, goal, d, cur, Pop(d));
      d := Pop(d);
      if AfterOf(d) != [] {
        return d, false;
      }
    }
  }

  /** A break: passed above the goal line, padded on it. */
  lemma BreakStep(d: Doc, cur: Pos, goal: Pos)
    requires AfterOf(d) != [] && AfterOf(d)[0].Br? && !Met(cur, goal) && cur.line <= goal.line
    ensures var gs := [Glyph(None, At(d.levels))];
            Left(Skip(d)) == Left(d) + gs && Right(d) == gs + Right(Skip(d))
    ensures cur.line == goal.line ==> Seek(Chars(Right(d)), cur, goal) == Short(0, cur)
    ensures cur.line < goal.line ==>
              Seek(Chars(Right(d)), cur, goal) == Further(Seek(Chars(Right(Skip(d))), Pos(cur.line + 1, 0), goal), 1)
  {
    hide Left, Right, Seek, AllGlyphs;
    SkipMoves(d);
    var gs := [Glyph(None, At(d.levels))];
    CharsConcat(gs, Right(Skip(d)));
    assert Chars(gs) == [None];
    var items := Chars(Right(d));
    assert items[0] == None && items[1..] == Chars(Right(Skip(d)));
    SeekStep(items, cur, goal);
  }

  /** A node has been passed: the walk is closer to its end, and if it met the goal with the last node,
      the document ends in content. */
  ghost predicate Advanced(start: Doc, p: Pos, goal: Pos, d: Doc, d': Doc, next: Pos) {
    && OnTheWay(start, p, goal, d', next)
    && (Met(next, goal) ==> |Left(start)| < |Left(d')| && (Rest(d') == [] ==> SolidEnd(start)))
    && (Met(next, goal) || Weight(d') < Weight(d))
  }

  lemma PassSpan(start: Doc, p: Pos, goal: Pos, d: Doc, cur: Pos)
    requires OnTheWay(start, p, goal, d, cur) && !Met(cur, goal) && AfterOf(d) != []
    requires AfterOf(d)[0].Span? && AfterOf(d)[0].children == []
    ensures Advanced(start, p, goal, d, Skip(d), cur)
  {
    hide OnTheWay, Left, Right, Rest, SameEnd, Weight, Skip, SolidEnd, Glyphs;
    SkipMoves(d);
    SkipWeight(d);
    EmptySpan(AfterOf(d)[0], At(d.levels));
    assert Left(d) + [] == Left(d) && [] + Right(Skip(d)) == Right(Skip(d));
    SkipRest(d);
    Dropped(Rest(d), Marks(AfterOf(d)[0]), Rest(Skip(d)));
    SameContent(start, p, goal, d, cur, Skip(d));
  }

  lemma PassEnter(start: Doc, p: Pos, goal: Pos, d: Doc, cur: Pos)
    requires OnTheWay(start, p, goal, d, cur) && AfterOf(d) != [] && AfterOf(d)[0].Span?
    ensures OnTheWay(start, p, goal, Enter(d), cur) && Weight(Enter(d)) < Weight(d)
  {
    hide OnTheWay, Left, Right, Rest, SameEnd, Weight, Enter;
    EnterMoves(d);
    EnterWeight(d);
    EnterRest(d);
    Dropped(Rest(d), [false], Rest(Enter(d)));
    SameContent(start, p, goal, d, cur, Enter(d));
  }

  lemma PassBreak(start: Doc, p: Pos, goal: Pos, d: Doc, cur: Pos)
    requires OnTheWay(start, p, goal, d, cur) && !Met(cur, goal) && cur.line < goal.line
    requires AfterOf(d) != [] && AfterOf(d)[0].Br?
    ensures Advanced(start, p, goal, d, Skip(d), Pos(cur.line + 1, 0))
  {
    hide OnTheWay, Left, Right, Rest, SameEnd, Weight, Skip, SolidEnd, Seek, Chars, Content;
    BreakStep(d, cur, goal);
    SkipWeight(d);
    SkipRest(d);
    Dropped(Rest(d), [true], Rest(Skip(d)));
    LastSolid(start, p, goal, d, cur, Rest(Skip(d)));
    SameWhole(d, [Glyph(None, At(d.levels))], Skip(d));
    Bounds(start, p, goal, d, cur);
    PassContent(start, p, goal, d, cur, 1, Skip(d), Pos(cur.line + 1, 0));
  }

  lemma PassWords(start: Doc, p: Pos, goal: Pos, d: Doc, cur: Pos, k: nat)
    requires OnTheWay(start, p, goal, d, cur) && !Met(cur, goal)
    requires AfterOf(d) != [] && AfterOf(d)[0].Text? && k <= |AfterOf(d)[0].data|
    requires var items, more := Str(AfterOf(d)[0].data), Chars(Right(Skip(d)));
             var next := Locate(items[..k], cur);
             && next.line <= goal.line && (k < |items| ==> Met(next, goal))
             && Seek(items + more, cur, goal) == Further(Seek(items[k..] + more, next, goal), k)
    ensures Advanced(start, p, goal, d, PassText(d, k, []), Locate(Str(AfterOf(d)[0].data)[..k], cur))
  {
    hide OnTheWay, Left, Right, Rest, SameEnd, Weight, Skip, SolidEnd, Seek, Chars, Content, Letters, Str, PassText;
    hide Further, Locate;
    var s, d', more := AfterOf(d)[0].data, PassText(d, k, []), Chars(Right(Skip(d)));
    var next, gs := Locate(Str(s)[..k], cur), Letters(s[..k], At(d.levels));
    TextRight(d);
    PassTextMoves(d, k, []);
    TextPassed(d, k, more);
    SameWhole(d, gs, d');
    PassRest(d, k, []);
    Unmoved(Str(s), k, cur);
    Bounds(start, p, goal, d, cur);
    if k == |s| {
      PassWeight(d, []);
      Dropped(Rest(d), [s != []], Rest(d'));
      if s != [] {
        LastSolid(start, p, goal, d, cur, Rest(d'));
      }
    } else {
      SameMarks(Rest(d));
      StillThere(d, k);
    }
    PassContent(start, p, goal, d, cur, k, d', next);
  }

  lemma Unmoved(items: seq<Item>, k: nat, cur: Pos)
    requires k <= |items|
    ensures k == 0 ==> Locate(items[..k], cur) == cur
  {
    if k == 0 {
      assert items[..0] == [];
    }
  }

  /** A text node that was split leaves its rest behind the hole. */
  lemma StillThere(d: Doc, k: nat)
    requires AfterOf(d) != [] && AfterOf(d)[0].Text? && k < |AfterOf(d)[0].data|
    ensures AfterOf(PassText(d, k, [])) != [] && Rest(PassText(d, k, [])) != []
  {
    hide Rest;
    NodesRemain(PassText(d, k, []));
  }

  /** The main loop of moveTo, from any place in the document whose position is known. */
  method Walk(start: Doc, p: Pos, goal: Pos) returns (d: Doc, at: Pos)
    requires p.line <= goal.line && NoCarriageReturn(Content(start))
    ensures exists ctx: Context :: Moved(start, p, goal, d, at, ctx)
  {
    hide OnTheWay, Moved, Weight, Left, Right, Seek, AllGlyphs, Chars, Content, Letters, Rest, SameEnd, SolidEnd;
    hide Skip, Enter, PassText, InsertText;
    d, at := start, p;
    Start(start, p, goal);
    while at.line < goal.line || at.col < goal.col
      invariant OnTheWay(start, p, goal, d, at) && (d == start || AfterOf(d) != [])
      decreases at.line < goal.line || at.col < goal.col, Weight(d)
    {
      Bounds(start, p, goal, d, at);
      if AfterOf(d) != [] {
        var current := AfterOf(d)[0];
        if current.Span? && current.children != [] {
          PassEnter(start, p, goal, d, at);
          EntersChildren(d);
          d := Enter(d);
          continue;
        } else if current.Br? {
          if at.line == goal.line {
            var spaces := MakeSpaces(goal.col - at.col);
            ghost var ctx := At(d.levels);
            BreakStep(d, at, goal);
            InsertTextMoves(d, spaces);
            assert Left(d) + [] == Left(d) && [] + Right(d) == Right(d);
            InsertRest(d, spaces);
            StopShort(start, p, goal, d, at, [], at, spaces, ctx, InsertText(d, spaces));
            return InsertText(d, spaces), goal;
          }
          PassBreak(start, p, goal, d, at);
          d, at := Skip(d), Pos(at.line + 1, 0);
        } else if current.Text? {
          ghost var c, more := At(d.levels), Chars(Right(Skip(d)));
          var d', next, k, short := WalkText(d, at, goal, more);
          if short {
            ghost var q := Locate(Str(current.data)[..k], at);
            ghost var spaces :| Str(spaces) == Repeat(' ', goal.col - q.col) && d' == PassText(d, k, spaces);
            TextRight(d);
            PassTextMoves(d, k, spaces);
            PassRest(d, k, spaces);
            StopShort(start, p, goal, d, at, Letters(current.data[..k], c), q, spaces, c, d');
            return d', goal;
          }
          PassWords(start, p, goal, d, at, k);
          d, at := d', next;
        } else {
          PassSpan(start, p, goal, d, at);
          d := Skip(d);
        }
        if AfterOf(d) != [] {
          continue;
        }
      }
      var done;
      d, done := GoUp(start, p, goal, d, at);
      if done {
        return d, goal;
      }
    }
    Bounds(start, p, goal, d, at);
    StopMet(start, p, goal, d, at);
  }

  lemma EntersChildren(d: Doc)
    requires AfterOf(d) != [] && AfterOf(d)[0].Span?
    ensures AfterOf(Enter(d)) == AfterOf(d)[0].children
  {
  }

  /** If the node just passed had content and was the last one, the document ended in content. */
  lemma LastSolid(start: Doc, p: Pos, goal: Pos, d: Doc, at: Pos, rest: seq<bool>)
    requires OnTheWay(start, p, goal, d, at) && Rest(d) == [true] + rest
    ensures rest == [] ==> SolidEnd(start)
  {
    hide Left, Right, Seek, Rest;
  }

  lemma Bounds(start: Doc, p: Pos, goal: Pos, d: Doc, at: Pos)
    requires OnTheWay(start, p, goal, d, at)
    ensures at.line <= goal.line && |Left(start)| <= |Left(d)|
  {
  }

  lemma EmptySpan(n: Node, ctx: Context)
    requires n.Span? && n.children == []
    ensures Glyphs(n, ctx) == []
  {
  }

  /** Behind a text node comes its text and then the rest. */
  lemma TextRight(d: Doc)
    requires AfterOf(d) != [] && AfterOf(d)[0].Text?
    ensures Chars(Right(d)) == Str(AfterOf(d)[0].data) + Chars(Right(Skip(d)))
  {
    hide Left, Right, AllGlyphs, Chars;
    SkipMoves(d);
    CharsConcat(Letters(AfterOf(d)[0].data, At(d.levels)), Right(Skip(d)));
    StrLetters(AfterOf(d)[0].data, At(d.levels));
  }

  lemma DropFront(all: seq<Item>, a: seq<Item>, b: seq<Item>, front: seq<Item>, rest: seq<Item>)
    requires all == a + b == front + rest && |front| <= |a|
    ensures rest == a[|front|..] + b
  {
    assert all[|front|..] == rest;
  }

  lemma TextPassed(d: Doc, k: nat, more: seq<Item>)
    requires AfterOf(d) != [] && AfterOf(d)[0].Text? && k <= |AfterOf(d)[0].data|
    requires more == Chars(Right(Skip(d)))
    ensures var s, d', c := AfterOf(d)[0].data, PassText(d, k, []), At(d.levels);
            && Chars(Right(d')) == Str(s)[k..] + more && |Letters(s[..k], c)| == k
            && Left(d') == Left(d) + Letters(s[..k], c)
  {
    hide Left, Right, AllGlyphs, PassText, Letters, Chars, Str, At, AfterOf;
    var s, c := AfterOf(d)[0].data, At(d.levels);
    var d' := PassText(d, k, []);
    PassTextMoves(d, k, []);
    TextRight(d);
    NoLetters(c);
    assert Left(d) + Letters(s[..k], c) + [] == Left(d) + Letters(s[..k], c);
    CharsConcat(Letters(s[..k], c), Right(d'));
    StrLetters(s[..k], c);
    DropFront(Chars(Right(d)), Str(s), more, Str(s[..k]), Chars(Right(d')));
  }
}
