/** Cursor positions over the flat content of the terminal's document: what a line and a column mean,
    and where a move to a goal should stop and what it should add. */
module Positions {
  import opened Words

  /** A character, or a br element. */
  type Item = Option<char>

  const ZERO_WIDTH: char := '\U{200b}'

  datatype Pos = Pos(line: int, col: int)

  const HOME := Pos(0, 0)

  predicate IsNewline(i: Item) {
    i == None || i.value == '\n' || i.value == '\r' || i.value == '\U{0c}'
  }

  function NextTabCol(col: int): int {
    col - col % 8 + 8
  }

  /** updateColumn for anything but a newline. */
  function Advance(c: char, col: int): (r: int)
    ensures r >= col
  {
    if c == '\t' then NextTabCol(col) else if c == ZERO_WIDTH then col else col + 1
  }

  function Step(i: Item, p: Pos): Pos {
    if IsNewline(i) then Pos(p.line + 1, 0) else Pos(p.line, Advance(i.value, p.col))
  }

  /** The position behind some content. */
  function Locate(items: seq<Item>, p: Pos): Pos
    decreases |items|
  {
    if items == [] then p else Locate(items[1..], Step(items[0], p))
  }

  lemma {:induction false} LocateConcat(a: seq<Item>, b: seq<Item>, p: Pos)
    ensures Locate(a + b, p) == Locate(b, Locate(a, p))
    decreases |a|
  {
    hide Step;
    if a == [] {
      assert a + b == b;
    } else {
      assert (a + b)[1..] == a[1..] + b;
      LocateConcat(a[1..], b, Step(a[0], p));
    }
  }

  // ---------------------------------------------------------------- what positions mean

  /** Line feed, carriage return, form feed and br end a line. */
  function LineEnds(items: seq<Item>): nat {
    if items == [] then 0
    else (if items[0] in {None, Some('\n'), Some('\r'), Some('\U{0c}')} then 1 else 0) + LineEnds(items[1..])
  }

  /** Lines are counted by what ends them. */
  lemma {:induction false} LineMeans(items: seq<Item>, p: Pos)
    ensures Locate(items, p).line == p.line + LineEnds(items)
    decreases |items|
  {
    if items != [] {
      LineMeans(items[1..], Step(items[0], p));
    }
  }

  /** Characters of one line that take a place of their own: all but the zero-width space. */
  function Width(items: seq<Item>): nat {
    if items == [] then 0 else (if items[0] == Some('\U{200b}') then 0 else 1) + Width(items[1..])
  }

  /** Without tabs a column is a number of characters. */
  lemma {:induction false} ColumnMeans(items: seq<Item>, p: Pos)
    requires LineEnds(items) == 0 && Some('\t') !in items
    ensures Locate(items, p) == Pos(p.line, p.col + Width(items))
    decreases |items|
  {
    if items != [] {
      assert items[0] in items;
      ColumnMeans(items[1..], Step(items[0], p));
    }
  }

  /** The least multiple of eight above a column. */
  predicate IsTabStop(col: int, stop: int) {
    col < stop <= col + 8 && stop % 8 == 0
  }

  lemma TabStop(col: int, stop: int)
    ensures stop == NextTabCol(col) <==> IsTabStop(col, stop)
  {
  }

  /** A line is laid out between its tabs: behind text without any comes the next tab stop, and behind that
      the text that follows; and what is in front of the last line does not matter. */
  lemma TabMeans(text: seq<Item>, more: seq<Item>, p: Pos, stop: int)
    requires LineEnds(text) == LineEnds(more) == 0 && Some('\t') !in text && Some('\t') !in more
    requires IsTabStop(p.col + Width(text), stop)
    ensures Locate(text + [Some('\t')] + more, p) == Pos(p.line, stop + Width(more))
  {
    hide Locate, LineEnds, Width, IsTabStop;
    TabStep(p.line, p.col + Width(text), stop);
    ColumnMeans(text, p);
    LocateConcat(text, [Some('\t')], p);
    LocateConcat(text + [Some('\t')], more, p);
    ColumnMeans(more, Pos(p.line, stop));
  }

  lemma TabStep(line: int, col: int, stop: int)
    requires IsTabStop(col, stop)
    ensures Locate([Some('\t')], Pos(line, col)) == Pos(line, stop)
  {
    TabStop(col, stop);
    hide NextTabCol;
    LocateOne(Some('\t'), Pos(line, col));
  }

  /** Behind the end of a line columns start again. */
  lemma NewLineMeans(before: seq<Item>, end: Item, more: seq<Item>, p: Pos)
    requires end in {None, Some('\n'), Some('\r'), Some('\U{0c}')}
    ensures Locate(before + [end] + more, p) == Locate(more, Pos(p.line + LineEnds(before) + 1, 0))
  {
    hide Locate;
    LocateConcat(before, [end], p);
    LocateConcat(before + [end], more, p);
    LocateOne(end, Locate(before, p));
    LineMeans(before, p);
  }

  // ---------------------------------------------------------------- seeking a goal

  /** How a walk ends: at the goal, at a line break that comes too early, or at the end of everything. */
  datatype Stop = Reached(n: nat, at: Pos) | Short(n: nat, at: Pos) | AtEnd(at: Pos)

  predicate Met(p: Pos, goal: Pos) {
    p.line >= goal.line && p.col >= goal.col
  }

  function Further(s: Stop, k: nat): Stop {
    match s
    case Reached(n, at) => Reached(n + k, at)
    case Short(n, at) => Short(n + k, at)
    case AtEnd(at) => s
  }

  function Seek(items: seq<Item>, p: Pos, goal: Pos): Stop
    decreases |items|
  {
    if Met(p, goal) then Reached(0, p)
    else if items == [] then AtEnd(p)
    else if IsNewline(items[0]) && p.line == goal.line then Short(0, p)
    else Further(Seek(items[1..], Step(items[0], p), goal), 1)
  }

  function Repeat(c: char, n: int): (s: seq<Item>)
    ensures n <= 0 ==> s == []
    ensures n > 0 ==> |s| == n && forall i :: 0 <= i < n ==> s[i] == Some(c)
  {
    if n <= 0 then [] else seq(n, i => Some(c))
  }

  /** What the move adds where it stops. */
  function Filling(s: Stop, goal: Pos): seq<Item> {
    match s
    case Reached(_, _) => []
    case Short(_, at) => Repeat(' ', goal.col - at.col)
    case AtEnd(at) => Repeat('\n', goal.line - at.line) + Repeat(' ', goal.col - at.col)
  }

  function Passed(s: Stop, items: seq<Item>): (n: nat) {
    match s
    case Reached(n, _) => n
    case Short(n, _) => n
    case AtEnd(_) => |items|
  }

  /** A walk that starts at or above the goal line never passes it. */
  lemma {:induction false} SeekBounds(items: seq<Item>, p: Pos, goal: Pos)
    requires p.line <= goal.line
    ensures Passed(Seek(items, p, goal), items) <= |items|
    ensures Seek(items, p, goal).at == Locate(items[..Passed(Seek(items, p, goal), items)], p)
    ensures Seek(items, p, goal).at.line <= goal.line
    ensures Seek(items, p, goal).Short? ==> Seek(items, p, goal).at.line == goal.line
    ensures !Seek(items, p, goal).Reached? ==> !Met(Seek(items, p, goal).at, goal)
    decreases |items|
  {
    var s := Seek(items, p, goal);
    if Met(p, goal) || items == [] || (IsNewline(items[0]) && p.line == goal.line) {
      assert items[..0] == [];
    } else {
      SeekBounds(items[1..], Step(items[0], p), goal);
      var n := Passed(s, items);
      assert items[..n][1..] == items[1..][..n - 1];
    }
  }

  lemma {:induction false} LocateRepeat(c: char, n: nat, p: Pos)
    requires c == ' ' || c == '\n'
    ensures Locate(Repeat(c, n), p)
         == if n == 0 then p else if c == ' ' then Pos(p.line, p.col + n) else Pos(p.line + n, 0)
    decreases n
  {
    if n > 0 {
      LocateRepeat(c, n - 1, Step(Some(c), p));
      assert Repeat(c, n)[1..] == Repeat(c, n - 1);
    }
  }

  /** Where the cursor really is after the move: at the goal, unless the walk ended below the last line. */
  function Arrival(s: Stop, goal: Pos): Pos {
    match s
    case Reached(_, at) => at
    case Short(_, _) => goal
    case AtEnd(at) =>
      if at.line == goal.line then goal
      else Pos(goal.line, if goal.col > at.col then goal.col - at.col else 0)
  }

  lemma FillingArrives(s: Stop, goal: Pos)
    requires s.at.line <= goal.line && (s.Short? ==> s.at.line == goal.line)
    requires !s.Reached? ==> !Met(s.at, goal)
    ensures Locate(Filling(s, goal), s.at) == Arrival(s, goal)
  {
    hide Locate, Repeat;
    match s {
      case Reached(_, at) => LocateNothing(at);
      case Short(_, at) => LocateRepeat(' ', goal.col - at.col, at);
      case AtEnd(at) =>
        var lines, fill := goal.line - at.line, goal.col - at.col;
        var p1 := if lines == 0 then at else Pos(goal.line, 0);
        LocateRepeat('\n', lines, at);
        LocateConcat(Repeat('\n', lines), Repeat(' ', fill), at);
        if fill > 0 {
          LocateRepeat(' ', fill, p1);
        } else {
          LocateNothing(p1);
        }
    }
  }

  /** The move in terms of content: the position behind everything in front of the cursor. */
  lemma ArrivalIsTrue(items: seq<Item>, p: Pos, goal: Pos)
    requires p.line <= goal.line
    ensures var s := Seek(items, p, goal);
            && Passed(s, items) <= |items|
            && Locate(items[..Passed(s, items)] + Filling(s, goal), p) == Arrival(s, goal)
  {
    hide Seek, Locate, Filling, Passed, Arrival;
    var s := Seek(items, p, goal);
    SeekBounds(items, p, goal);
    LocateConcat(items[..Passed(s, items)], Filling(s, goal), p);
    FillingArrives(s, goal);
  }

  lemma LocateNothing(p: Pos)
    ensures Locate([], p) == p
  {
  }

  /** moveTo records the goal itself whenever it had to pad; that is right exactly when the walk did not
      end above the goal line, or there is nothing to subtract: column zero is wanted or was reached. */
  lemma RecordedGoalExact(items: seq<Item>, p: Pos, goal: Pos)
    requires p.line <= goal.line && p.col >= 0 && !Seek(items, p, goal).Reached?
    ensures var s := Seek(items, p, goal);
            Arrival(s, goal) == goal
            <==> s.Short? || s.at.line == goal.line || goal.col == 0 || (s.at.col == 0 && goal.col >= 0)
  {
    SeekBounds(items, p, goal);
    LocateColumns(items, p);
    assert items[..|items|] == items;
  }

  /** The last item passed carries the walk beyond the goal: a newline when the goal column is negative,
      or a tab that does not stop at the goal column. */
  predicate Overshoots(items: seq<Item>, n: nat, p: Pos, goal: Pos)
    requires 0 < n <= |items|
  {
    var last := items[n - 1];
    || (IsNewline(last) && goal.col < 0)
    || (last == Some('\t') && goal.col != NextTabCol(Locate(items[..n - 1], p).col))
  }

  /** A walk that meets its goal stops on it exactly, unless its last step overshoots. */
  lemma {:induction false} ReachedExact(items: seq<Item>, p: Pos, goal: Pos)
    requires p.line <= goal.line && Seek(items, p, goal).Reached? && Seek(items, p, goal).n > 0
    ensures var s := Seek(items, p, goal);
            s.n <= |items| && (s.at == goal <==> !Overshoots(items, s.n, p, goal))
    decreases |items|
  {
    SeekBounds(items, p, goal);
    var s, p1 := Seek(items, p, goal), Step(items[0], p);
    var s1 := Seek(items[1..], p1, goal);
    if s1.n > 0 {
      ReachedExact(items[1..], p1, goal);
      assert items[..s.n - 1][1..] == items[1..][..s1.n - 1];
    } else {
      assert items[..0] == [];
    }
  }

  lemma {:induction false} LocateColumns(items: seq<Item>, p: Pos)
    ensures p.line <= Locate(items, p).line
    ensures Locate(items, p).line == p.line ==> p.col <= Locate(items, p).col
    ensures p.col >= 0 ==> Locate(items, p).col >= 0
    decreases |items|
  {
    if items != [] {
      LocateColumns(items[1..], Step(items[0], p));
    }
  }

  // ---------------------------------------------------------------- starting at the cursor

  /** The goal is not in front of `p`: the test moveTo makes before it starts at the cursor. */
  predicate NotBefore(goal: Pos, p: Pos) {
    goal.line > p.line || (goal.line == p.line && goal.col >= p.col)
  }

  predicate EndsInZeroWidth(items: seq<Item>) {
    items != [] && items[|items| - 1] == Some(ZERO_WIDTH)
  }

  /** Content that does not move the position ends in a zero-width character. */
  lemma Motionless(items: seq<Item>, p: Pos)
    requires items != [] && Locate(items, p) == p
    ensures EndsInZeroWidth(items)
  {
    hide Locate;
    var n := |items| - 1;
    var q := Locate(items[..n], p);
    assert items == items[..n] + [items[n]];
    LocateConcat(items[..n], [items[n]], p);
    LocateColumns(items[..n], p);
    assert Locate([items[n]], q) == Step(items[n], q) by { LocateOne(items[n], q); }
  }

  lemma LocateOne(i: Item, p: Pos)
    ensures Locate([i], p) == Step(i, p)
  {
    assert [i][1..] == [];
  }

  /** Walking over content in front of the goal. */
  lemma {:induction false} SeekOver(left: seq<Item>, right: seq<Item>, p: Pos, goal: Pos)
    requires p.line <= goal.line && NotBefore(goal, Locate(left, p))
    ensures var here := Locate(left, p);
            var slow, fast := Seek(left + right, p, goal), Seek(right, here, goal);
            if goal == here && EndsInZeroWidth(left)
            then fast == Reached(0, here) && slow.Reached? && slow.n < |left| && slow.at == here
            else slow == Further(fast, |left|)
    decreases |left|
  {
    var here := Locate(left, p);
    if left == [] {
      assert left + right == right;
    } else {
      LocateColumns(left, p);
      if Met(p, goal) {
        assert p == here == goal;
        Motionless(left, p);
      } else {
        var p1 := Step(left[0], p);
        LocateColumns(left[1..], p1);
        assert (left + right)[1..] == left[1..] + right;
        SeekOver(left[1..], right, p1, goal);
      }
    }
  }

  /** The fast start and the slow start agree: from the cursor or from home, the move stops at the same
      line and column; also at the same place in the content, if and only if it is not a move to where
      the cursor already is, behind a zero-width character. */
  lemma FastStartExact(left: seq<Item>, right: seq<Item>, goal: Pos)
    requires goal.line >= 0 && NotBefore(goal, Locate(left, HOME))
    ensures var here := Locate(left, HOME);
            var slow, fast := Seek(left + right, HOME, goal), Seek(right, here, goal);
            && Arrival(slow, goal) == Arrival(fast, goal)
            && Filling(slow, goal) == Filling(fast, goal)
            && (Passed(slow, left + right) == |left| + Passed(fast, right)
                <==> !(goal == here && EndsInZeroWidth(left)))
  {
    hide Seek, Locate;
    SeekOver(left, right, HOME, goal);
  }

  /** Positions are ordered by that test as they are read: it is a total order, in which content only leads
      forward. */
  lemma OrderMeans(a: Pos, b: Pos, c: Pos, items: seq<Item>)
    ensures NotBefore(a, b) || NotBefore(b, a)
    ensures NotBefore(a, b) && NotBefore(b, a) ==> a == b
    ensures NotBefore(a, b) && NotBefore(b, c) ==> NotBefore(a, c)
    ensures NotBefore(Locate(items, a), a)
  {
    LocateColumns(items, a);
  }
}
