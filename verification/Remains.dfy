/** The nodes still to be walked, in document order. A walk that meets its goal at the very end of the
    content goes on to the end of the document only if no node without content follows. */
module Remains {
  import opened Styles
  import opened Walking

  /** One mark per node: whether it has content of its own. */
  function Marks(n: Node): (m: seq<bool>)
    ensures m != []
    decreases n
  {
    match n
    case Text(s) => [s != []]
    case Br => [true]
    case Span(_, _, children) => [false] + AllMarks(children)
  }

  function AllMarks(ns: seq<Node>): seq<bool>
    decreases ns
  {
    if ns == [] then [] else Marks(ns[0]) + AllMarks(ns[1..])
  }

  function Rest(d: Doc): seq<bool>
    decreases |d.levels|
  {
    if d.levels == [] then AllMarks(d.after)
    else AllMarks(d.levels[0].after) + Rest(d.(levels := d.levels[1..]))
  }

  function OuterRest(d: Doc): seq<bool> {
    if d.levels == [] then [] else Rest(d.(levels := d.levels[1..]))
  }

  predicate EndsSolid(m: seq<bool>) {
    m != [] && m[|m| - 1]
  }

  /** The last node behind the hole has content. */
  predicate SolidEnd(d: Doc) {
    EndsSolid(Rest(d))
  }

  lemma RestIs(d: Doc)
    ensures Rest(d) == AllMarks(AfterOf(d)) + OuterRest(d)
  {
    hide AllMarks;
    if d.levels == [] {
      assert AllMarks(d.after) + [] == AllMarks(d.after);
    }
  }

  lemma ReplaceRest(d: Doc, before: seq<Node>, after: seq<Node>)
    ensures Rest(Replace(d, before, after)) == AllMarks(after) + OuterRest(d)
  {
    hide AllMarks;
    var d' := Replace(d, before, after);
    if d.levels == [] {
      assert AllMarks(after) + [] == AllMarks(after);
    } else {
      assert d'.(levels := d'.levels[1..]) == d.(levels := d.levels[1..]);
    }
  }

  /** The last mark stays the last one as long as any is left. */
  predicate SameEnd(m: seq<bool>, m': seq<bool>) {
    m' != [] ==> EndsSolid(m') == EndsSolid(m)
  }

  lemma Dropped(m: seq<bool>, front: seq<bool>, m': seq<bool>)
    requires m == front + m'
    ensures SameEnd(m, m')
  {
  }

  lemma SkipRest(d: Doc)
    requires AfterOf(d) != []
    ensures Rest(d) == Marks(AfterOf(d)[0]) + Rest(Skip(d))
  {
    hide Rest, Marks, OuterRest;
    var after := AfterOf(d);
    RestIs(d);
    ReplaceRest(d, BeforeOf(d) + [after[0]], after[1..]);
    assert Marks(after[0]) + AllMarks(after[1..]) + OuterRest(d) == Marks(after[0]) + (AllMarks(after[1..]) + OuterRest(d));
  }

  lemma EnterRest(d: Doc)
    requires AfterOf(d) != [] && AfterOf(d)[0].Span?
    ensures Rest(d) == [false] + Rest(Enter(d))
  {
    var span, more := AfterOf(d)[0], AfterOf(d)[1..];
    var outer := Replace(d, BeforeOf(d), more);
    RestIs(d);
    ReplaceRest(d, BeforeOf(d), more);
    assert Enter(d).levels[1..] == outer.levels;
    assert Enter(d).(levels := Enter(d).levels[1..]) == outer;
    RestIs(Enter(d));
    assert OuterRest(Enter(d)) == Rest(outer);
    SpanMarks(span, more);
    hide OuterRest, AllMarks, Rest, Replace, Enter;
    Regroup([false], AllMarks(span.children), AllMarks(more), OuterRest(d));
  }

  lemma SpanMarks(span: Node, more: seq<Node>)
    requires span.Span?
    ensures AllMarks([span] + more) == [false] + AllMarks(span.children) + AllMarks(more)
  {
    assert ([span] + more)[1..] == more;
  }

  lemma Regroup(a: seq<bool>, b: seq<bool>, c: seq<bool>, d: seq<bool>)
    ensures a + b + c + d == a + (b + (c + d))
  {
  }

  lemma LeaveRest(d: Doc)
    requires d.levels != [] && AfterOf(d) == []
    ensures Rest(Pop(d)) == Rest(d)
  {
    hide AllMarks;
    var rest, span := d.(levels := d.levels[1..]), Span(d.levels[0].cls, d.levels[0].style, d.levels[0].before);
    assert [] + AfterOf(rest) == AfterOf(rest);
    assert Pop(d) == Replace(rest, BeforeOf(rest) + [span], AfterOf(rest));
    ReplaceRest(rest, BeforeOf(rest) + [span], AfterOf(rest));
    RestIs(rest);
    NoMarks();
    assert [] + Rest(rest) == Rest(rest);
  }

  lemma NoMarks()
    ensures AllMarks([]) == []
  {
  }

  lemma PassRest(d: Doc, k: nat, inserted: string)
    requires AfterOf(d) != [] && AfterOf(d)[0].Text? && k <= |AfterOf(d)[0].data|
    ensures var s, d' := AfterOf(d)[0].data, PassText(d, k, inserted);
            Rest(d) == if k == |s| then [s != []] + Rest(d') else Rest(d')
  {
    hide Rest, OuterRest;
    var s, more := AfterOf(d)[0].data, AfterOf(d)[1..];
    var front := Stripped(BeforeOf(d)) + [Text(Trailing(BeforeOf(d)) + s[..k] + inserted)];
    var after := if k == |s| then more else [Text(s[k..])] + more;
    RestIs(d);
    ReplaceRest(d, front, after);
    if k < |s| {
      assert after[1..] == more;
    } else {
      assert [s != []] + AllMarks(more) + OuterRest(d) == [s != []] + (AllMarks(more) + OuterRest(d));
    }
  }

  lemma InsertRest(d: Doc, s: string)
    ensures Rest(InsertText(d, s)) == Rest(d)
  {
    hide Rest, OuterRest, Replace, WithText;
    RestIs(d);
    ReplaceRest(d, WithText(BeforeOf(d), s), AfterOf(d));
  }

  // ---------------------------------------------------------------- marks and content

  lemma {:induction false} MarkedNode(n: Node, ctx: Context)
    requires true in Marks(n)
    ensures Glyphs(n, ctx) != []
    decreases n
  {
    match n
    case Text(s) =>
    case Br =>
    case Span(cls, style, children) => MarkedNodes(children, Within(ctx, cls, style));
  }

  lemma {:induction false} MarkedNodes(ns: seq<Node>, ctx: Context)
    requires true in AllMarks(ns)
    ensures AllGlyphs(ns, ctx) != []
    decreases ns
  {
    if true in Marks(ns[0]) {
      MarkedNode(ns[0], ctx);
    } else {
      MarkedNodes(ns[1..], ctx);
    }
  }

  /** A node with content means content. */
  lemma {:induction false} MarkedRight(d: Doc)
    requires true in Rest(d)
    ensures Right(d) != []
    decreases |d.levels|
  {
    hide AllMarks, AllGlyphs;
    if d.levels == [] {
      MarkedNodes(d.after, BODY);
    } else if true in AllMarks(d.levels[0].after) {
      MarkedNodes(d.levels[0].after, At(d.levels));
    } else {
      MarkedRight(d.(levels := d.levels[1..]));
    }
  }

  lemma SolidRight(d: Doc)
    requires SolidEnd(d)
    ensures Right(d) != []
  {
    hide Rest, Right;
    assert Rest(d)[|Rest(d)| - 1];
    MarkedRight(d);
  }

  lemma NodesRemain(d: Doc)
    requires AfterOf(d) != []
    ensures Rest(d) != []
  {
    hide Rest, Marks;
    RestIs(d);
  }
}
