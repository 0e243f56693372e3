/** delta2D: the position of the cursor found by a recursive walk over the whole tree, with line, column
    and a stop bit packed into one 64-bit number. It unpacks to the position of the content in front
    of the cursor, which is what the cursor cache is meant to hold. */
module Delta {
  import opened Words
  import opened Styles
  import opened Positions
  import opened Walking
  import opened Moving
  import opened Cursor

  // ---------------------------------------------------------------- packing

  const TWO_30 := 0x4000_0000
  const TWO_31 := 0x8000_0000
  const TWO_32 := 0x1_0000_0000

  /** Positions that fit: lines below 2^31, columns below 2^30. */
  predicate Fits(p: Pos) {
    0 <= p.line < TWO_31 && 0 <= p.col < TWO_30
  }

  function Pack(p: Pos): int {
    p.line * TWO_32 + p.col * 2
  }

  /** (int) x */
  function ToInt(x: int): int {
    (x + TWO_31) % TWO_32 - TWO_31
  }

  /** (int) (delta >> 32) */
  function LineOf(delta: int): int {
    ToInt(delta / TWO_32)
  }

  /** ((int) delta) >> 1 */
  function ColumnOf(delta: int): int {
    ToInt(delta) / 2
  }

  /** (int) (delta >> 1) & 0x7fffffff, as updateCursorCache has it */
  function CachedColumnOf(delta: int): int {
    (delta / 2) % TWO_31
  }

  /** Unpacking undoes packing, whether the stop bit is set or not, in both of its forms. */
  lemma PackRoundTrip(p: Pos, stop: int)
    requires Fits(p) && 0 <= stop <= 1
    ensures var delta := Pack(p) + stop;
            LineOf(delta) == p.line && ColumnOf(delta) == p.col && CachedColumnOf(delta) == p.col
  {
    var delta := Pack(p) + stop;
    assert delta / TWO_32 == p.line && delta % TWO_32 == p.col * 2 + stop;
    assert ToInt(delta) == p.col * 2 + stop;
  }

  // ---------------------------------------------------------------- content of nodes

  /** CR LF inside a text node. */
  predicate PairFirst(s: string) {
    |s| >= 2 && s[0] == '\r' && s[1] == '\n'
  }

  /** A text node as delta2D counts it: CR LF is one newline. */
  function Collapsed(s: string): seq<Item> {
    if s == [] then []
    else if PairFirst(s) then [Some(s[0])] + Collapsed(s[2..])
    else [Some(s[0])] + Collapsed(s[1..])
  }

  function Pairs(s: string): nat {
    if s == [] then 0 else if PairFirst(s) then 1 + Pairs(s[2..]) else Pairs(s[1..])
  }

  function Flat(n: Node): seq<Item>
    decreases n
  {
    match n
    case Text(s) => Collapsed(s)
    case Br => [None]
    case Span(_, _, children) => Flats(children)
  }

  function Flats(ns: seq<Node>): seq<Item>
    decreases ns
  {
    if ns == [] then [] else Flat(ns[0]) + Flats(ns[1..])
  }

  function NodePairs(n: Node): nat
    decreases n
  {
    match n
    case Text(s) => Pairs(s)
    case Br => 0
    case Span(_, _, children) => AllPairs(children)
  }

  function AllPairs(ns: seq<Node>): nat
    decreases ns
  {
    if ns == [] then 0 else NodePairs(ns[0]) + AllPairs(ns[1..])
  }

  // ---------------------------------------------------------------- lines lost to pairs

  function Down(p: Pos, n: int): Pos {
    Pos(p.line + n, p.col)
  }

  lemma {:induction false} LocateDown(items: seq<Item>, p: Pos, n: int)
    ensures Locate(items, Down(p, n)) == Down(Locate(items, p), n)
    decreases |items|
  {
    if items != [] {
      assert Step(items[0], Down(p, n)) == Down(Step(items[0], p), n);
      LocateDown(items[1..], Step(items[0], p), n);
    }
  }

  /** `walked` leads where `items` lead, but for `n` lines. */
  ghost predicate Loses(items: seq<Item>, walked: seq<Item>, n: nat) {
    forall p :: Down(Locate(walked, p), n) == Locate(items, p)
  }

  lemma LosesConcat(a: seq<Item>, a': seq<Item>, n: nat, b: seq<Item>, b': seq<Item>, m: nat)
    requires Loses(a, a', n) && Loses(b, b', m)
    ensures Loses(a + b, a' + b', n + m)
  {
    hide Locate;
    forall p
      ensures Down(Locate(a' + b', p), n + m) == Locate(a + b, p)
    {
      LocateConcat(a, b, p);
      LocateConcat(a', b', p);
      LocateDown(b', Locate(a', p), n);
    }
  }

  lemma {:induction false} TextLoses(s: string)
    ensures Loses(Str(s), Collapsed(s), Pairs(s))
    decreases |s|
  {
    hide Locate, Loses, Str;
    if s == [] {
      assert Str(s) == [];
      SameLines([]);
    } else if PairFirst(s) {
      TextLoses(s[2..]);
      assert Str(s) == [Some(s[0]), Some(s[1])] + Str(s[2..]);
      OnePair();
      LosesConcat([Some('\r'), Some('\n')], [Some('\r')], 1, Str(s[2..]), Collapsed(s[2..]), Pairs(s[2..]));
    } else {
      TextLoses(s[1..]);
      assert Str(s) == [Some(s[0])] + Str(s[1..]);
      SameLines([Some(s[0])]);
      LosesConcat([Some(s[0])], [Some(s[0])], 0, Str(s[1..]), Collapsed(s[1..]), Pairs(s[1..]));
    }
  }

  lemma SameLines(items: seq<Item>)
    ensures Loses(items, items, 0)
  {
  }

  lemma OnePair()
    ensures Loses([Some('\r'), Some('\n')], [Some('\r')], 1)
  {
    forall p
      ensures Down(Locate([Some('\r')], p), 1) == Locate([Some('\r'), Some('\n')], p)
    {
      LocateOne(Some('\r'), p);
      LocateOne(Some('\n'), Step(Some('\r'), p));
      LocateConcat([Some('\r')], [Some('\n')], p);
      assert [Some('\r')] + [Some('\n')] == [Some('\r'), Some('\n')];
    }
  }

  lemma {:induction false} NodeLoses(n: Node, ctx: Context)
    ensures Loses(Chars(Glyphs(n, ctx)), Flat(n), NodePairs(n))
    decreases n
  {
    hide Loses, Chars, Letters;
    match n
    case Text(s) =>
      StrLetters(s, ctx);
      TextLoses(s);
    case Br =>
      OneChar(None, ctx);
      SameLines([None]);
    case Span(cls, style, children) => NodesLose(children, Within(ctx, cls, style));
  }

  lemma OneChar(c: Item, ctx: Context)
    ensures Chars([Glyph(c, ctx)]) == [c]
  {
  }

  lemma {:induction false} NodesLose(ns: seq<Node>, ctx: Context)
    ensures Loses(Chars(AllGlyphs(ns, ctx)), Flats(ns), AllPairs(ns))
    decreases ns
  {
    hide Loses, Chars;
    if ns == [] {
      assert Chars([]) == [] by { NoChars(); }
      SameLines([]);
    } else {
      NodeLoses(ns[0], ctx);
      NodesLose(ns[1..], ctx);
      CharsConcat(Glyphs(ns[0], ctx), AllGlyphs(ns[1..], ctx));
      LosesConcat(Chars(Glyphs(ns[0], ctx)), Flat(ns[0]), NodePairs(ns[0]),
                  Chars(AllGlyphs(ns[1..], ctx)), Flats(ns[1..]), AllPairs(ns[1..]));
    }
  }

  lemma NoChars()
    ensures Chars([]) == []
  {
  }

  // ---------------------------------------------------------------- positions that fit

  /** Every position along some content fits. */
  ghost predicate FitsAlong(items: seq<Item>, p: Pos)
    decreases |items|
  {
    Fits(p) && (items != [] ==> FitsAlong(items[1..], Step(items[0], p)))
  }

  lemma {:induction false} FitsConcat(a: seq<Item>, b: seq<Item>, p: Pos)
    ensures FitsAlong(a + b, p) <==> FitsAlong(a, p) && FitsAlong(b, Locate(a, p))
    decreases |a|
  {
    hide Step, Fits;
    if a == [] {
      assert a + b == b;
      if b != [] {
        assert FitsAlong(b, p) ==> Fits(p);
      }
    } else {
      assert (a + b)[1..] == a[1..] + b;
      FitsConcat(a[1..], b, Step(a[0], p));
    }
  }

  lemma FitsEnds(items: seq<Item>, p: Pos)
    requires FitsAlong(items, p)
    ensures Fits(p) && Fits(Locate(items, p))
  {
    assert items + [] == items;
    FitsConcat(items, [], p);
  }

  // ---------------------------------------------------------------- the walk

  method DeltaText(s: string, startDelta: int, ghost p: Pos) returns (delta: int)
    requires startDelta == Pack(p) && FitsAlong(Collapsed(s), p)
    ensures delta == Pack(Locate(Collapsed(s), p))
  {
    hide Fits;
    ghost var cur := p;
    FitsEnds(Collapsed(s), p);
    PackRoundTrip(p, 0);
    var line, col := LineOf(startDelta), ColumnOf(startDelta);
    var i := 0;
    assert s[0..] == s;
    while i < |s|
      invariant i <= |s| && cur == Pos(line, col)
      invariant FitsAlong(Collapsed(s[i..]), cur) && Locate(Collapsed(s[i..]), cur) == Locate(Collapsed(s), p)
    {
      var ch := s[i];
      CollapsedStep(s[i..]);
      assert s[i..][1..] == s[i + 1..];
      assert i + 2 <= |s| ==> s[i..][2..] == s[i + 2..];
      cur := Step(Some(ch), cur);
      if IsNewline(Some(ch)) {
        line, col := line + 1, 0;
        if ch == '\r' && i + 1 < |s| && s[i + 1] == '\n' {
          i := i + 1;
        }
      } else {
        col := Advance(ch, col);
      }
      i := i + 1;
    }
    assert s[i..] == [];
    delta := line * TWO_32 + col * 2;
  }

  lemma CollapsedStep(s: string)
    requires s != []
    ensures Collapsed(s) != [] && Collapsed(s)[0] == Some(s[0])
    ensures Collapsed(s)[1..] == Collapsed(if PairFirst(s) then s[2..] else s[1..])
  {
  }

  /** delta2D on a node that does not hold the cursor. */
  method DeltaNode(n: Node, startDelta: int, ghost p: Pos) returns (delta: int)
    requires startDelta == Pack(p) && FitsAlong(Flat(n), p)
    ensures delta == Pack(Locate(Flat(n), p))
    decreases n, 0
  {
    match n
    case Text(s) => delta := DeltaText(s, startDelta, p);
    case Br =>
      FitsEnds(Flat(n), p);
      LocateOne(None, p);
      delta := (startDelta / TWO_32 + 1) * TWO_32;
    case Span(_, _, children) => delta := DeltaChildren(children, startDelta, p);
  }

  /** The loop over children. */
  method DeltaChildren(ns: seq<Node>, startDelta: int, ghost p: Pos) returns (delta: int)
    requires startDelta == Pack(p) && FitsAlong(Flats(ns), p)
    ensures delta == Pack(Locate(Flats(ns), p))
    decreases ns, 1
  {
    hide FitsAlong, Locate, Pack;
    delta := startDelta;
    ghost var cur := p;
    var i := 0;
    assert ns[0..] == ns;
    while i < |ns|
      invariant i <= |ns| && delta == Pack(cur)
      invariant FitsAlong(Flats(ns[i..]), cur) && Locate(Flats(ns[i..]), cur) == Locate(Flats(ns), p)
    {
      assert ns[i..][0] == ns[i] && ns[i..][1..] == ns[i + 1..];
      FitsConcat(Flat(ns[i]), Flats(ns[i + 1..]), cur);
      LocateConcat(Flat(ns[i]), Flats(ns[i + 1..]), cur);
      delta := DeltaNode(ns[i], delta, cur);
      cur := Locate(Flat(ns[i]), cur);
      i := i + 1;
    }
    assert ns[i..] == [];
    LocateNothing(cur);
  }

  /** What is in front of the cursor, element by element from the outside. */
  function InFront(levels: seq<Level>, before: seq<Node>): seq<Item>
    decreases |levels|
  {
    Flats(before)
    + if levels == [] then [] else InFront(levels[..|levels| - 1], levels[|levels| - 1].before)
  }

  lemma InFrontOuter(levels: seq<Level>, before: seq<Node>)
    ensures levels == [] ==> InFront(levels, before) == Flats(before)
    ensures var n := |levels| - 1;
            levels != [] ==> InFront(levels, before) == Flats(before) + InFront(levels[..n], levels[n].before)
  {
    hide Flats;
    if levels == [] {
      assert Flats(before) + [] == Flats(before);
    }
  }

  lemma {:induction false} InFrontSnoc(levels: seq<Level>, before: seq<Node>)
    requires levels != []
    ensures InFront(levels, before) == InFront(levels[1..], before) + Flats(levels[0].before)
    decreases |levels|
  {
    hide Flats, InFront;
    var n := |levels| - 1;
    var outer := levels[n];
    InFrontOuter(levels, before);
    InFrontOuter(levels[1..], before);
    if n == 0 {
      InFrontOuter(levels[..0], outer.before);
    } else {
      InFrontSnoc(levels[..n], outer.before);
      assert levels[..n][1..] == levels[1..][..n - 1];
      var mid := InFront(levels[..n][1..], outer.before);
      assert Flats(before) + (mid + Flats(levels[0].before)) == Flats(before) + mid + Flats(levels[0].before);
    }
  }

  /** The pairs in front of the cursor, each inside one text node. */
  function PairsInFront(d: Doc): nat
    decreases |d.levels|
  {
    if d.levels == [] then AllPairs(d.before)
    else PairsInFront(d.(levels := d.levels[1..])) + AllPairs(d.levels[0].before)
  }

  lemma {:induction false} InFrontLoses(d: Doc)
    ensures Loses(Chars(Left(d)), InFront(d.levels, d.before), PairsInFront(d))
    decreases |d.levels|
  {
    hide Flats, AllGlyphs, Chars, Loses, AllPairs;
    if d.levels == [] {
      NodesLose(d.before, BODY);
      assert Flats(d.before) + [] == Flats(d.before);
    } else {
      var rest, before := d.(levels := d.levels[1..]), d.levels[0].before;
      InFrontLoses(rest);
      InFrontSnoc(d.levels, d.before);
      NodesLose(before, At(d.levels));
      CharsConcat(Left(rest), AllGlyphs(before, At(d.levels)));
      LosesConcat(Chars(Left(rest)), InFront(rest.levels, rest.before), PairsInFront(rest),
                  Chars(AllGlyphs(before, At(d.levels))), Flats(before), AllPairs(before));
    }
  }

  /** delta2D on the way down to the cursor; the stop bit is set where it is found. */
  method DeltaDown(levels: seq<Level>, before: seq<Node>, startDelta: int, ghost p: Pos) returns (delta: int)
    requires startDelta == Pack(p) && FitsAlong(InFront(levels, before), p)
    ensures delta == Pack(Locate(InFront(levels, before), p)) + 1
    decreases |levels|
  {
    hide FitsAlong, Locate, Pack, Flats;
    var n := |levels| - 1;
    ghost var rest := if levels == [] then [] else InFront(levels[..n], levels[n].before);
    FitsConcat(Flats(before), rest, p);
    LocateConcat(Flats(before), rest, p);
    delta := DeltaChildren(before, startDelta, p);
    ghost var cur := Locate(Flats(before), p);
    if levels == [] {
      LocateNothing(cur);
      delta := delta + 1;
    } else {
      delta := DeltaDown(levels[..n], levels[n].before, delta, cur);
    }
  }

  /** updateCursorCache: for every document whose positions fit, the walk over the tree computes the
      place of the cursor, but for one line for each CR LF inside a text node in front of it. */
  method UpdateCursorCache(d: Doc) returns (line: int, column: int)
    requires FitsAlong(InFront(d.levels, d.before), HOME)
    ensures Down(Pos(line, column), PairsInFront(d)) == Place(d)
    ensures Pos(line, column) == Place(d) <==> PairsInFront(d) == 0
  {
    hide Locate, Left, Chars, InFront, FitsAlong, PairsInFront;
    InFrontLoses(d);
    var p := Locate(InFront(d.levels, d.before), HOME);
    FitsEnds(InFront(d.levels, d.before), HOME);
    var lcol := DeltaDown(d.levels, d.before, 0, HOME);
    PackRoundTrip(p, 1);
    line, column := LineOf(lcol), CachedColumnOf(lcol);
  }

  /** A pair is lost: behind "a CR LF b" the walk is a line short. */
  lemma PairIsOneLine()
    ensures var d := Doc([], [Text("a\r\nb")], []);
            PairsInFront(d) == 1 && Place(d).line == Locate(InFront(d.levels, d.before), HOME).line + 1
  {
    var s, d := "a\r\nb", Doc([], [Text("a\r\nb")], []);
    assert s[1..] == "\r\nb" && s[1..][2..] == "b" && "b"[1..] == [];
    assert d.before[1..] == [];
    assert NodePairs(d.before[0]) == Pairs(s) == 1;
    hide Locate, Left, Chars, InFront;
    InFrontLoses(d);
  }

  // ---------------------------------------------------------------- without carriage returns

  lemma {:induction false} TextUnchanged(s: string)
    requires '\r' !in s
    ensures Collapsed(s) == Str(s) && Pairs(s) == 0
    decreases |s|
  {
    if s != [] {
      assert s[0] in s;
      TextUnchanged(s[1..]);
      assert Str(s) == [Some(s[0])] + Str(s[1..]);
    }
  }

  lemma {:induction false} NodeUnchanged(n: Node, ctx: Context)
    requires NoCarriageReturn(Glyphs(n, ctx))
    ensures Flat(n) == Chars(Glyphs(n, ctx)) && NodePairs(n) == 0
    decreases n
  {
    match n
    case Text(s) =>
      StrLetters(s, ctx);
      forall i | 0 <= i < |s|
        ensures s[i] != '\r'
      {
        assert Chars(Glyphs(n, ctx))[i] == Str(s)[i];
      }
      TextUnchanged(s);
    case Br => OneChar(None, ctx);
    case Span(cls, style, children) => NodesUnchanged(children, Within(ctx, cls, style));
  }

  lemma {:induction false} NodesUnchanged(ns: seq<Node>, ctx: Context)
    requires NoCarriageReturn(AllGlyphs(ns, ctx))
    ensures Flats(ns) == Chars(AllGlyphs(ns, ctx)) && AllPairs(ns) == 0
    decreases ns
  {
    hide Chars;
    if ns == [] {
      NoChars();
    } else {
      NoReturnConcat(Glyphs(ns[0], ctx), AllGlyphs(ns[1..], ctx));
      NodeUnchanged(ns[0], ctx);
      NodesUnchanged(ns[1..], ctx);
      CharsConcat(Glyphs(ns[0], ctx), AllGlyphs(ns[1..], ctx));
    }
  }

  lemma NoReturnConcat(a: seq<Glyph>, b: seq<Glyph>)
    ensures NoCarriageReturn(a + b) <==> NoCarriageReturn(a) && NoCarriageReturn(b)
  {
    assert forall i :: 0 <= i < |a| ==> (a + b)[i] == a[i];
    assert forall i :: 0 <= i < |b| ==> (a + b)[|a| + i] == b[i];
  }

  lemma {:induction false} InFrontIsLeft(d: Doc)
    requires NoCarriageReturn(Left(d))
    ensures InFront(d.levels, d.before) == Chars(Left(d)) && PairsInFront(d) == 0
    decreases |d.levels|
  {
    hide Flats, AllGlyphs, Chars, AllPairs, NoCarriageReturn;
    if d.levels == [] {
      NodesUnchanged(d.before, BODY);
      assert Flats(d.before) + [] == Flats(d.before);
    } else {
      var rest := d.(levels := d.levels[1..]);
      NoReturnConcat(Left(rest), AllGlyphs(d.levels[0].before, At(d.levels)));
      InFrontIsLeft(rest);
      InFrontSnoc(d.levels, d.before);
      NodesUnchanged(d.levels[0].before, At(d.levels));
      CharsConcat(Left(rest), AllGlyphs(d.levels[0].before, At(d.levels)));
    }
  }

  // ---------------------------------------------------------------- the cache against the walk

  lemma {:induction false} FitsRepeat(c: char, n: nat, p: Pos, bound: Pos)
    requires c == ' ' || c == '\n'
    requires Fits(p) && Fits(bound)
    requires if c == ' ' then p.col + n <= bound.col else p.line + n <= bound.line
    ensures FitsAlong(Repeat(c, n), p)
    decreases n
  {
    if n > 0 {
      FitsRepeat(c, n - 1, Step(Some(c), p), bound);
      assert Repeat(c, n)[1..] == Repeat(c, n - 1);
    }
  }

  /** Goals that fit: the column may be negative. */
  predicate GoalFits(goal: Pos) {
    0 <= goal.line < TWO_31 && goal.col < TWO_30
  }

  lemma FillingFits(s: Stop, goal: Pos)
    requires Fits(s.at) && GoalFits(goal) && s.at.line <= goal.line
    ensures FitsAlong(Filling(s, goal), s.at)
  {
    hide Repeat, FitsAlong, Locate;
    match s {
      case Reached(_, at) => FitsRepeat(' ', 0, at, at);
      case Short(_, at) =>
        var fill := if goal.col > at.col then goal.col - at.col else 0;
        FitsRepeat(' ', fill, at, Pos(at.line, at.col + fill));
      case AtEnd(at) =>
        var lines, fill := goal.line - at.line, if goal.col > at.col then goal.col - at.col else 0;
        var p1 := if lines == 0 then at else Pos(goal.line, 0);
        FitsRepeat('\n', lines, at, Pos(goal.line, at.col));
        LocateRepeat('\n', lines, at);
        FitsRepeat(' ', fill, p1, Pos(goal.line, p1.col + fill));
        FitsConcat(Repeat('\n', lines), Repeat(' ', fill), at);
    }
  }

  lemma MovedFits(start: Doc, goal: Pos, d: Doc, at: Pos, ctx: Context)
    requires FitsAlong(Chars(Content(start)), HOME) && GoalFits(goal) && Place(start).line <= goal.line
    requires Moved(start, Place(start), goal, d, at, ctx)
    ensures FitsAlong(Chars(Left(d)), HOME)
  {
    hide Left, Right, Seek, Locate, FitsAlong, Filling;
    var p, left, items := Place(start), Chars(Left(start)), Chars(Right(start));
    var s := Seek(items, p, goal);
    var n := Passed(s, items);
    CharsConcat(Left(start), Right(start));
    SeekBounds(items, p, goal);
    assert left + items == left + items[..n] + items[n..];
    FitsConcat(left + items[..n], items[n..], HOME);
    LocateConcat(left, items[..n], HOME);
    FitsEnds(left + items[..n], HOME);
    FillingFits(s, goal);
    FitsConcat(left + items[..n], Filling(s, goal), HOME);
    CharsConcat(Left(start) + Right(start)[..n], Marked(Filling(s, goal), ctx));
    CharsConcat(Left(start), Right(start)[..n]);
    assert Chars(Right(start)[..n]) == items[..n];
  }

  lemma MovedNoReturn(start: Doc, goal: Pos, d: Doc, at: Pos, ctx: Context)
    requires NoCarriageReturn(Content(start)) && Moved(start, Place(start), goal, d, at, ctx)
    ensures NoCarriageReturn(Left(d))
  {
    hide Left, Right, Moved;
    OnlyBlanksAdded(start, Place(start), goal, d, at, ctx);
  }

  /** The cursor law: move from a place whose position is known, record a position as moveTo does, and
      walk the tree as delta2D does. The two agree if and only if the move stopped honestly. */
  method MoveAndWalk(start: Doc, goal: Pos)
    returns (recorded: Pos, walked: Pos)
    requires NoCarriageReturn(Content(start)) && FitsAlong(Chars(Content(start)), HOME)
    requires GoalFits(goal) && Place(start).line <= goal.line
    ensures walked == Arrival(Seek(Chars(Right(start)), Place(start), goal), goal)
    ensures recorded == walked <==> Honest(start, goal)
  {
    hide Left, Right, Seek, Locate, FitsAlong, Moved, Honest, Arrival, NoCarriageReturn, InFront, PairsInFront;
    CharsConcat(Left(start), Right(start));
    NoReturnConcat(Left(start), Right(start));
    InFrontIsLeft(start);
    FitsConcat(Chars(Left(start)), Chars(Right(start)), HOME);
    FitsEnds(Chars(Left(start)), HOME);
    var line, column := UpdateCursorCache(start);
    var d, at := Walk(start, Pos(line, column), goal);
    ghost var ctx: Context :| Moved(start, Place(start), goal, d, at, ctx);
    MovedFits(start, goal, d, at, ctx);
    MovedNoReturn(start, goal, d, at, ctx);
    InFrontIsLeft(d);
    RecordedExact(start, goal, d, at, ctx);
    var l, c := UpdateCursorCache(d);
    recorded, walked := at, Pos(l, c);
  }
}
