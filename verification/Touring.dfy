/** Runs of cursor moves: what the cache holds after every move of a run, and what the run does to the
    document. */
module Touring {
  import opened Styles
  import opened Positions
  import opened Walking
  import opened Moving
  import opened Cursor

  /** Where move `i` of a run starts if the cache is right: at the cursor the move before left, or at home. */
  function StartOf(d: Doc, docs: seq<Doc>, goals: seq<Pos>, i: nat): Doc
    requires i < |goals| && i <= |docs|
  {
    if i == 0 then Home(d)
    else if NotBefore(goals[i], Place(docs[i - 1])) then docs[i - 1]
    else Home(docs[i - 1])
  }

  /** The first `n` recorded positions are the true ones. */
  ghost predicate RightUpTo(docs: seq<Doc>, recorded: seq<Pos>, n: nat)
    requires n <= |docs| && n <= |recorded|
  {
    forall i :: 0 <= i < n ==> recorded[i] == Place(docs[i])
  }

  /** The first `n` moves are honest. */
  ghost predicate HonestUpTo(d: Doc, docs: seq<Doc>, goals: seq<Pos>, n: nat)
    requires n <= |docs| && n <= |goals|
  {
    forall i :: 0 <= i < n ==> Honest(StartOf(d, docs, goals, i), goals[i])
  }

  /** The document in front of move `i`. */
  function Before(d: Doc, docs: seq<Doc>, i: nat): Doc
    requires i <= |docs|
  {
    if i == 0 then d else docs[i - 1]
  }

  /** moveTo went from `start`, which it took to be at `p`, to `goal`: it left `d` and recorded `at`. */
  ghost predicate Goes(start: Doc, p: Pos, goal: Pos, d: Doc, at: Pos) {
    exists ctx: Context :: Moved(start, p, goal, d, at, ctx)
  }

  /** Whether move `i` starts from the cached position. */
  predicate Fast(goals: seq<Pos>, recorded: seq<Pos>, i: nat)
    requires i < |goals| && i <= |recorded|
  {
    i > 0 && recorded[i - 1].line >= 0 && recorded[i - 1].col >= 0 && NotBefore(goals[i], recorded[i - 1])
  }

  /** Move `i` of a run on `d` is a moveTo on what the move before left, document and cache. */
  ghost predicate MovedAt(d: Doc, docs: seq<Doc>, goals: seq<Pos>, recorded: seq<Pos>, i: nat)
    requires |docs| == |recorded| <= |goals| && i < |docs|
  {
    if Fast(goals, recorded, i) then Goes(docs[i - 1], recorded[i - 1], goals[i], docs[i], recorded[i])
    else Goes(Home(Before(d, docs, i)), HOME, goals[i], docs[i], recorded[i])
  }

  ghost predicate IsRun(d: Doc, docs: seq<Doc>, goals: seq<Pos>, recorded: seq<Pos>) {
    && |docs| == |recorded| <= |goals|
    && (forall i :: 0 <= i < |goals| ==> goals[i].line >= 0)
    && (forall i :: 0 <= i < |docs| ==> MovedAt(d, docs, goals, recorded, i))
  }

  /** The content is kept, but for blanks. */
  ghost predicate Padded(before: seq<Glyph>, after: seq<Glyph>) {
    exists k, pad: seq<Glyph> ::
      && 0 <= k <= |before| && after == before[..k] + pad + before[k..]
      && forall i :: 0 <= i < |pad| ==> Cursor.Blank(pad[i].c)
  }

  // ---------------------------------------------------------------- single moves

  lemma PlaceIsKnown(d: Doc)
    ensures Place(d).line >= 0 && Place(d).col >= 0
  {
    hide Left, Locate;
    LocateColumns(Chars(Left(d)), HOME);
  }

  lemma GoesExact(start: Doc, goal: Pos, d: Doc, at: Pos)
    requires Place(start).line <= goal.line && Goes(start, Place(start), goal, d, at)
    ensures at == Place(d) <==> Honest(start, goal)
  {
    hide Moved, Place, Honest, Seek, Right;
    var ctx: Context :| Moved(start, Place(start), goal, d, at, ctx);
    PlaceIsKnown(start);
    RecordedExact(start, goal, d, at, ctx);
  }

  lemma GoesPads(start: Doc, p: Pos, goal: Pos, d: Doc, at: Pos)
    requires Goes(start, p, goal, d, at)
    ensures Padded(Content(start), Content(d))
    ensures NoCarriageReturn(Content(start)) ==> NoCarriageReturn(Content(d))
  {
    hide Left, Right, Moved, Padded, NoCarriageReturn;
    var ctx: Context :| Moved(start, p, goal, d, at, ctx);
    OnlyBlanksAdded(start, p, goal, d, at, ctx);
    var k, pad: seq<Glyph> :| 0 <= k <= |Content(start)| && Left(d) == Content(start)[..k] + pad
      && Right(d) == Content(start)[k..] && forall i :: 0 <= i < |pad| ==> Cursor.Blank(pad[i].c);
    Inserted(Content(start), k, pad);
  }

  lemma Inserted(c: seq<Glyph>, k: nat, pad: seq<Glyph>)
    requires k <= |c| && forall i :: 0 <= i < |pad| ==> Cursor.Blank(pad[i].c)
    ensures Padded(c, c[..k] + pad + c[k..])
    ensures NoCarriageReturn(c) ==> NoCarriageReturn(c[..k] + pad + c[k..])
  {
  }

  // ---------------------------------------------------------------- runs

  /** A move keeps a right cache right exactly if it is honest. */
  lemma MoveExact(d: Doc, docs: seq<Doc>, goals: seq<Pos>, recorded: seq<Pos>, i: nat)
    requires IsRun(d, docs, goals, recorded) && i < |docs|
    requires i > 0 ==> recorded[i - 1] == Place(docs[i - 1])
    ensures recorded[i] == Place(docs[i]) <==> Honest(StartOf(d, docs, goals, i), goals[i])
  {
    hide Place, Honest, Home, Goes;
    if i > 0 {
      PlaceIsKnown(docs[i - 1]);
    }
    HomePlace(Before(d, docs, i));
    assert MovedAt(d, docs, goals, recorded, i);
    GoesExact(StartOf(d, docs, goals, i), goals[i], docs[i], recorded[i]);
  }

  /** A move that starts from home is right exactly if it is honest, whatever the cache was before. */
  lemma HomeHeals(d: Doc, docs: seq<Doc>, goals: seq<Pos>, recorded: seq<Pos>, i: nat)
    requires IsRun(d, docs, goals, recorded) && i < |docs| && !Fast(goals, recorded, i)
    ensures recorded[i] == Place(docs[i]) <==> Honest(Home(Before(d, docs, i)), goals[i])
  {
    hide Place, Honest, Home, Goes;
    HomePlace(Before(d, docs, i));
    assert MovedAt(d, docs, goals, recorded, i);
    GoesExact(Home(Before(d, docs, i)), goals[i], docs[i], recorded[i]);
  }

  /** A run only pads: nothing that was in the document is lost, moved or restyled by any of its moves. */
  lemma RunPads(d: Doc, docs: seq<Doc>, goals: seq<Pos>, recorded: seq<Pos>, i: nat)
    requires IsRun(d, docs, goals, recorded) && i < |docs|
    ensures Padded(Content(Before(d, docs, i)), Content(docs[i]))
  {
    hide Goes, Content, Padded, Home;
    assert MovedAt(d, docs, goals, recorded, i);
    HomeContent(Before(d, docs, i));
    if Fast(goals, recorded, i) {
      GoesPads(docs[i - 1], recorded[i - 1], goals[i], docs[i], recorded[i]);
    } else {
      GoesPads(Home(Before(d, docs, i)), HOME, goals[i], docs[i], recorded[i]);
    }
  }

  /** The cache law for whole runs of moveTo: over any number of moves, the recorded positions are all
      right if and only if all moves are honest; and so they are up to the first move that is not. */
  lemma {:induction false} RunExact(d: Doc, docs: seq<Doc>, goals: seq<Pos>, recorded: seq<Pos>, n: nat)
    requires IsRun(d, docs, goals, recorded) && n <= |docs|
    ensures RightUpTo(docs, recorded, n) <==> HonestUpTo(d, docs, goals, n)
    decreases n
  {
    hide Honest, Place, StartOf, MovedAt;
    if n > 0 {
      RunExact(d, docs, goals, recorded, n - 1);
      if RightUpTo(docs, recorded, n - 1) {
        MoveExact(d, docs, goals, recorded, n - 1);
      }
    }
  }

  /** One more move of a run: what came before it does not change. */
  lemma RunSnoc(d: Doc, docs: seq<Doc>, goals: seq<Pos>, recorded: seq<Pos>, d': Doc, at: Pos)
    requires IsRun(d, docs, goals, recorded) && |docs| < |goals|
    requires if Fast(goals, recorded, |docs|) then Goes(docs[|docs| - 1], recorded[|docs| - 1], goals[|docs|], d', at)
             else Goes(Home(Before(d, docs, |docs|)), HOME, goals[|docs|], d', at)
    ensures IsRun(d, docs + [d'], goals, recorded + [at])
  {
    hide Home, Goes;
    forall i | 0 <= i < |docs| + 1
      ensures MovedAt(d, docs + [d'], goals, recorded + [at], i)
    {
      assert i < |docs| ==> MovedAt(d, docs, goals, recorded, i);
      assert Before(d, docs + [d'], i) == Before(d, docs, i);
      assert Fast(goals, recorded + [at], i) == Fast(goals, recorded, i);
    }
  }

  /** Any run of moves on a terminal that does not know its cursor yet is such a run. */
  method Tour(d: Doc, goals: seq<Pos>) returns (docs: seq<Doc>, recorded: seq<Pos>)
    requires NoCarriageReturn(Content(d)) && forall i :: 0 <= i < |goals| ==> goals[i].line >= 0
    ensures |docs| == |goals| && IsRun(d, docs, goals, recorded)
    ensures forall n :: 0 <= n <= |goals| ==>
              (RightUpTo(docs, recorded, n) <==> HonestUpTo(d, docs, goals, n))
    ensures forall i :: 0 <= i < |docs| ==>
              Padded(Content(Before(d, docs, i)), Content(docs[i]))
  {
    hide Honest, Place, Home, Moved, Content, RightUpTo, HonestUpTo, Padded, NoCarriageReturn, Seek, MovedAt;
    var s := new Screen(d);
    docs, recorded := [], [];
    for i := 0 to |goals|
      invariant fresh(s) && |docs| == |recorded| == i
      invariant s.doc == Before(d, docs, i) && NoCarriageReturn(Content(s.doc))
      invariant if i == 0 then !s.Known() else s.Cached() == recorded[i - 1]
      invariant IsRun(d, docs, goals, recorded)
    {
      ghost var before, fast, cached := s.doc, Fast(goals, recorded, i), s.Cached();
      s.MoveTo(goals[i].line, goals[i].col);
      ghost var start, p := if fast then before else Home(before), if fast then cached else HOME;
      assert Goes(start, p, goals[i], s.doc, s.Cached());
      GoesPads(start, p, goals[i], s.doc, s.Cached());
      HomeContent(before);
      RunSnoc(d, docs, goals, recorded, s.doc, s.Cached());
      docs, recorded := docs + [s.doc], recorded + [s.Cached()];
    }
    forall n | 0 <= n <= |goals|
      ensures RightUpTo(docs, recorded, n) <==> HonestUpTo(d, docs, goals, n)
    {
      RunExact(d, docs, goals, recorded, n);
    }
    forall i | 0 <= i < |docs|
      ensures Padded(Content(Before(d, docs, i)), Content(docs[i]))
    {
      RunPads(d, docs, goals, recorded, i);
    }
  }
}
