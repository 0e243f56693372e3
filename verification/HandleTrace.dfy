/** The handles of a decoded trace: which creations and lookups each record causes in the replayer, and
    that renaming them is renaming the handles the recorded calls mentioned. */
module HandleTrace {
  import opened Words
  import opened Fields
  import opened Commands
  import opened Replay
  import opened Arguments
  import opened Trace
  import opened Shapes
  import opened TraceReader
  import R = Renaming

  const OPC_SURFACE_ATTRIB: word := 718
  const OPC_DESTROY_CONTEXT: word := 722
  const OPC_MAKE_CURRENT: word := 723

  // ---------------------------------------------------------------- actions of records and of calls

  function HandleAt(vals: seq<Val>, i: nat): long {
    if i < |vals| && vals[i].VPtr? then vals[i].p else 0
  }

  /** A shared context is looked up only if there is one. */
  function Share(h: long): seq<R.Action> {
    if h == 0 then [] else [R.Use(R.Context, h)]
  }

  /** What a replayer does with the handles of a record, `replayed` being what the replayed call returns. */
  function ItemActions(item: Item, replayed: long): seq<R.Action> {
    var vals := item.vals;
    if item.op == OPC_CREATE_WINDOW_SURFACE && vals != [] then
      [R.Create(R.Surface, HandleAt(vals, |vals| - 1), replayed)]
    else if item.op == OPC_CREATE_CONTEXT && vals != [] then
      Share(HandleAt(vals, 2)) + [R.Create(R.Context, HandleAt(vals, |vals| - 1), replayed)]
    else if item.op == OPC_SURFACE_ATTRIB || item.op == OPC_SWAP_BUFFERS then [R.Use(R.Surface, HandleAt(vals, 1))]
    else if item.op == OPC_DESTROY_CONTEXT then [R.Use(R.Context, HandleAt(vals, 1))]
    else if item.op == OPC_MAKE_CURRENT then
      [R.Use(R.Surface, HandleAt(vals, 1)), R.Use(R.Surface, HandleAt(vals, 2)), R.Use(R.Context, HandleAt(vals, 3))]
    else []
  }

  function ArgAt(args: seq<Field>, i: nat): long {
    if i < |args| && args[i].FPtr? then args[i].p else 0
  }

  /** The same in terms of the recorded call. */
  function CallActions(c: Call, replayed: long): seq<R.Action> {
    match c
    case CreateHandle(op, _, _, other, _, handle) =>
      if op == OPC_CREATE_CONTEXT then Share(other) + [R.Create(R.Context, handle, replayed)]
      else [R.Create(R.Surface, handle, replayed)]
    case Plain(op, args) =>
      if op == OPC_SURFACE_ATTRIB || op == OPC_SWAP_BUFFERS then [R.Use(R.Surface, ArgAt(args, 1))]
      else if op == OPC_DESTROY_CONTEXT then [R.Use(R.Context, ArgAt(args, 1))]
      else if op == OPC_MAKE_CURRENT then
        [R.Use(R.Surface, ArgAt(args, 1)), R.Use(R.Surface, ArgAt(args, 2)), R.Use(R.Context, ArgAt(args, 3))]
      else []
    case _ => []
  }

  /** Handles as the reader widens them. */
  predicate Narrow(a: R.Action, ws: nat) {
    (if a.Create? then a.recorded else a.handle) < Pow256(ws)
  }

  predicate AllNarrow(acts: seq<R.Action>, ws: nat) {
    forall i :: 0 <= i < |acts| ==> Narrow(acts[i], ws)
  }

  function WidenAction(a: R.Action, ws: nat): R.Action
    requires WordSize(ws) && Narrow(a, ws)
  {
    match a
    case Create(kind, recorded, replayed) => R.Create(kind, Widen(recorded, ws), replayed)
    case Use(kind, handle) => R.Use(kind, Widen(handle, ws))
  }

  function WidenAll(acts: seq<R.Action>, ws: nat): (r: seq<R.Action>)
    requires WordSize(ws) && AllNarrow(acts, ws)
    ensures |r| == |acts| && forall i :: 0 <= i < |r| ==> r[i] == WidenAction(acts[i], ws)
  {
    seq(|acts|, i requires 0 <= i < |acts| => WidenAction(acts[i], ws))
  }

  // ---------------------------------------------------------------- one record

  lemma ArgRead(args: seq<Field>, i: nat, ws: nat)
    requires WordSize(ws) && AllWellFormed(args, ws)
    ensures ArgAt(args, i) < Pow256(ws) && HandleAt(ReadBacks(args, ws), i) == Widen(ArgAt(args, i), ws)
  {
    PointersExact(0, 0, ws);
    hide Widen;
    if i < |args| {
      assert WellFormed(args[i], ws);
    }
  }

  lemma PlainActions(c: Call, vals: seq<Val>, item: Item, replayed: long, ws: nat)
    requires WordSize(ws) && c.Plain? && AllWellFormed(c.args, ws) && vals == ReadBacks(c.args, ws)
    requires item.op == c.op && item.vals == vals && Recordable(c, ws)
    ensures AllNarrow(CallActions(c, replayed), ws)
    ensures ItemActions(item, replayed) == WidenAll(CallActions(c, replayed), ws)
  {
    NoPlainCreation(c, ws);
    ArgRead(c.args, 1, ws);
    ArgRead(c.args, 2, ws);
    ArgRead(c.args, 3, ws);
    hide Widen, Recordable, ReadBacks, ArgAt, HandleAt, AllWellFormed;
    var acts := CallActions(c, replayed);
    assert AllNarrow(acts, ws);
  }

  lemma NoPlainCreation(c: Call, ws: nat)
    requires c.Plain? && Recordable(c, ws)
    ensures c.op != OPC_CREATE_WINDOW_SURFACE && c.op != OPC_CREATE_CONTEXT
  {
    hide Ints, TracerShapeA, TracerShapeB;
  }

  lemma CreationActions(st: Tracked, c: Call, item: Item, replayed: long, ws: nat)
    requires WordSize(ws) && st.Valid() && c.CreateHandle? && Recordable(c, ws)
    requires item.op == c.op && item.vals == Values(st, c, ws)
    ensures AllNarrow(CallActions(c, replayed), ws)
    ensures ItemActions(item, replayed) == WidenAll(CallActions(c, replayed), ws)
  {
    HandleArguments(st, c, ws);
    PointersExact(c.other, 0, ws);
    hide Values, Widen, Pow256;
  }

  /** No other call makes or mentions handles. */
  lemma OtherActions(c: Call, item: Item, replayed: long, ws: nat)
    requires WordSize(ws) && !c.Plain? && !c.CreateHandle? && Recordable(c, ws) && item.op == Opcode(c)
    ensures CallActions(c, replayed) == [] && ItemActions(item, replayed) == []
  {
  }

  /** A decoded record causes exactly the actions of the recorded call. */
  lemma RecordActions(e: Entry, replayed: long, ws: nat)
    requires WordSize(ws) && Written(e, ws)
    ensures EntryWellFormed(e, ws) && AllNarrow(CallActions(e.call, replayed), ws)
    ensures ItemActions(ItemOf(e, ws), replayed) == WidenAll(CallActions(e.call, replayed), ws)
  {
    hide Record, Recordable, ItemActions, CallActions, AllNarrow, Made, Widen;
    var w := WrittenIsWellFormed(e, ws);
    var item := ItemOf(e, ws);
    match e.call {
      case Plain(_, args) =>
        PlainRecord(w, e.call, ws);
        PlainActions(e.call, item.vals, item, replayed, ws);
      case CreateHandle(_, _, _, _, _, _) => CreationActions(w, e.call, item, replayed, ws);
      case _ =>
        OtherActions(e.call, item, replayed, ws);
        NoActions(ws);
    }
  }

  lemma NoActions(ws: nat)
    requires WordSize(ws)
    ensures AllNarrow([], ws) && WidenAll([], ws) == []
  {
  }

  lemma PlainRecord(st: Tracked, c: Call, ws: nat)
    requires st.Valid() && c.Plain? && Recordable(c, ws)
    ensures Record(st, c, ws) == c.args
  {
    hide Recordable;
  }

  // ---------------------------------------------------------------- whole traces

  /** The actions of a decoded trace; `results` tells what each replayed call returns. */
  function TraceActions(items: seq<Item>, results: seq<long>): seq<R.Action>
    requires |items| == |results|
    decreases |items|
  {
    if items == [] then [] else ItemActions(items[0], results[0]) + TraceActions(items[1..], results[1..])
  }

  ghost function RunActions(es: seq<Entry>, results: seq<long>): seq<R.Action>
    requires |es| == |results|
    decreases |es|
  {
    if es == [] then [] else CallActions(es[0].call, results[0]) + RunActions(es[1..], results[1..])
  }

  lemma WidenConcat(a: seq<R.Action>, b: seq<R.Action>, ws: nat)
    requires WordSize(ws) && AllNarrow(a, ws) && AllNarrow(b, ws)
    ensures AllNarrow(a + b, ws) && WidenAll(a + b, ws) == WidenAll(a, ws) + WidenAll(b, ws)
  {
    hide Narrow, WidenAction;
  }

  /** A decoded run causes the actions of the run, with every handle widened. */
  lemma {:induction false} DecodedActions(es: seq<Entry>, results: seq<long>, ws: nat)
    requires WordSize(ws) && AllWritten(es, ws) && |es| == |results|
    ensures EntriesWellFormed(es, ws) && AllNarrow(RunActions(es, results), ws)
    ensures TraceActions(Items(es, ws), results) == WidenAll(RunActions(es, results), ws)
    decreases |es|
  {
    hide Written, ItemActions, CallActions, AllNarrow, ItemOf, EntryWellFormed, WidenAll;
    AllWrittenWellFormed(es, ws);
    if es == [] {
      NoActions(ws);
      EmptyItems(es, ws);
    } else {
      RecordActions(es[0], results[0], ws);
      DecodedActions(es[1..], results[1..], ws);
      ItemsCons(es, ws);
      assert Items(es, ws)[1..] == Items(es[1..], ws);
      WidenConcat(CallActions(es[0].call, results[0]), RunActions(es[1..], results[1..]), ws);
    }
  }

  // ---------------------------------------------------------------- widening changes nothing

  lemma {:induction false} LatestWidened(acts: seq<R.Action>, kind: R.Kind, h: long, ws: nat)
    requires WordSize(ws) && AllNarrow(acts, ws) && h < Pow256(ws)
    ensures R.Latest(WidenAll(acts, ws), kind, Widen(h, ws)) == R.Latest(acts, kind, h)
    decreases |acts|
  {
    hide Widen;
    if acts != [] {
      var n := |acts| - 1;
      LatestWidened(acts[..n], kind, h, ws);
      assert WidenAll(acts, ws)[..n] == WidenAll(acts[..n], ws);
      var last := acts[n];
      if last.Create? {
        PointersExact(last.recorded, h, ws);
      }
    }
  }

  lemma SnocWidened(acts: seq<R.Action>, ws: nat)
    requires WordSize(ws) && AllNarrow(acts, ws) && acts != []
    ensures var n := |acts| - 1;
            && acts == acts[..n] + [acts[n]] && AllNarrow(acts[..n], ws) && Narrow(acts[n], ws)
            && WidenAll(acts, ws) == WidenAll(acts[..n], ws) + [WidenAction(acts[n], ws)]
  {
    hide Narrow, WidenAction;
  }

  /** A handle is known exactly if its widened form is. */
  lemma {:induction false} KnownWidened(acts: seq<R.Action>, kind: R.Kind, h: long, ws: nat)
    requires WordSize(ws) && AllNarrow(acts, ws) && h < Pow256(ws)
    ensures h in R.Handles(acts, kind) <==> Widen(h, ws) in R.Handles(WidenAll(acts, ws), kind)
    ensures R.EverCreated(WidenAll(acts, ws), kind) <==> R.EverCreated(acts, kind)
    decreases |acts|
  {
    hide Widen, Pow256, R.Handles, R.EverCreated, WidenAll;
    if acts == [] {
      NoHandles(kind);
      NoActions(ws);
    } else {
      var n := |acts| - 1;
      SnocWidened(acts, ws);
      KnownWidened(acts[..n], kind, h, ws);
      R.HandlesSnoc(acts[..n], acts[n], kind);
      R.HandlesSnoc(WidenAll(acts[..n], ws), WidenAction(acts[n], ws), kind);
      if R.Creates(acts[n], kind) {
        PointersExact(acts[n].recorded, h, ws);
      }
    }
  }

  lemma SameSize(s: set<long>, t: set<long>, x: long, y: long)
    requires |s| == |t| && (x in s <==> y in t)
    ensures |s + {x}| == |t + {y}|
  {
    if x in s {
      assert s + {x} == s && t + {y} == t;
    }
  }

  lemma {:induction false} CountWidened(acts: seq<R.Action>, kind: R.Kind, ws: nat)
    requires WordSize(ws) && AllNarrow(acts, ws)
    ensures |R.Handles(WidenAll(acts, ws), kind)| == |R.Handles(acts, kind)|
    decreases |acts|
  {
    hide Widen, Pow256, R.Handles, R.EverCreated, WidenAll;
    if acts == [] {
      NoHandles(kind);
      NoActions(ws);
    } else {
      var n := |acts| - 1;
      SnocWidened(acts, ws);
      var front, last := acts[..n], acts[n];
      CountWidened(front, kind, ws);
      R.HandlesSnoc(front, last, kind);
      R.HandlesSnoc(WidenAll(front, ws), WidenAction(last, ws), kind);
      if R.Creates(last, kind) {
        PointersExact(last.recorded, 0, ws);
        KnownWidened(front, kind, last.recorded, ws);
        SameSize(R.Handles(front, kind), R.Handles(WidenAll(front, ws), kind), last.recorded, Widen(last.recorded, ws));
      }
    }
  }

  lemma NoHandles(kind: R.Kind)
    ensures R.Handles([], kind) == {} && !R.EverCreated([], kind)
  {
  }

  lemma FatalWidened(acts: seq<R.Action>, a: R.Action, ws: nat)
    requires WordSize(ws) && AllNarrow(acts, ws) && Narrow(a, ws)
    ensures R.Fatal(WidenAll(acts, ws), WidenAction(a, ws)) <==> R.Fatal(acts, a)
  {
    hide Widen, Pow256, R.Handles, R.EverCreated, WidenAll;
    CountWidened(acts, a.kind, ws);
    KnownWidened(acts, a.kind, if a.Create? then a.recorded else 0, ws);
  }

  /** The renaming law for decoded traces: replay the file of any written run. The actions go through up
      to the first one that is fatal for the recorded calls themselves, and every handle a recorded
      call mentions becomes the result of the latest replayed creation recorded under it. */
  method RenameRun(file: seq<byte>, ghost es: seq<Entry>, results: seq<long>, ghost ws: nat)
    returns (renamed: seq<long>)
    requires WordSize(ws) && AllWritten(es, ws) && |es| == |results| && EntriesWellFormed(es, ws)
    requires DecodeFile(file) == Some(Items(es, ws))
    ensures var acts := RunActions(es, results);
            && |renamed| <= |acts|
            && (forall i :: 0 <= i < |renamed| ==> !R.Fatal(acts[..i], acts[i]))
            && (|renamed| < |acts| ==> R.Fatal(acts[..|renamed|], acts[|renamed|]))
            && (forall i :: 0 <= i < |renamed| && acts[i].Use? ==>
                  renamed[i] == if acts[i].handle == 0 then 0
                                else R.Latest(acts[..i], acts[i].kind, acts[i].handle))
  {
    hide DecodeFile, AllWritten, EntriesWellFormed, Items, RunActions, TraceActions, R.Fatal, R.Latest, Widen, AllNarrow;
    var items := ReplayFile(file);
    assert |items.value| == |es| by { ItemCount(es, ws); }
    var actions := TraceActions(items.value, results);
    renamed := R.RenameAll(actions);
    DecodedActions(es, results, ws);
    ghost var acts := RunActions(es, results);
    forall i | 0 <= i < |acts|
      ensures R.Fatal(actions[..i], actions[i]) <==> R.Fatal(acts[..i], acts[i])
      ensures acts[i].Use? ==> actions[i].Use? && (actions[i].handle == 0 <==> acts[i].handle == 0)
      ensures acts[i].Use? ==>
                R.Latest(actions[..i], actions[i].kind, actions[i].handle)
                == R.Latest(acts[..i], acts[i].kind, acts[i].handle)
    {
      OneAction(acts, i, ws);
    }
  }

  lemma ItemCount(es: seq<Entry>, ws: nat)
    requires WordSize(ws) && EntriesWellFormed(es, ws)
    ensures |Items(es, ws)| == |es|
  {
    hide EntriesWellFormed;
  }

  lemma OneAction(acts: seq<R.Action>, i: nat, ws: nat)
    requires WordSize(ws) && AllNarrow(acts, ws) && i < |acts|
    ensures var wide := WidenAll(acts, ws);
            && (R.Fatal(wide[..i], wide[i]) <==> R.Fatal(acts[..i], acts[i]))
            && (acts[i].Use? ==> wide[i].Use? && (wide[i].handle == 0 <==> acts[i].handle == 0))
            && (acts[i].Use? ==>
                  R.Latest(wide[..i], wide[i].kind, wide[i].handle)
                  == R.Latest(acts[..i], acts[i].kind, acts[i].handle))
  {
    hide R.Fatal, R.Latest, Widen;
    var wide := WidenAll(acts, ws);
    assert wide[..i] == WidenAll(acts[..i], ws);
    FatalWidened(acts[..i], acts[i], ws);
    if acts[i].Use? {
      PointersExact(acts[i].handle, 0, ws);
      LatestWidened(acts[..i], acts[i].kind, acts[i].handle, ws);
    }
  }

  // ---------------------------------------------------------------- what calls do

  /** The calls that touch handles, by their arguments: eglCreateWindowSurface and eglCreateContext record a
      handle, the latter looking up a context it shares unless there is none; eglSurfaceAttrib,
      eglSwapBuffers, eglDestroyContext and eglMakeCurrent look up what they mention, in order. */
  lemma ActionsMean(dpy: long, a: long, b: long, c: long, x: word, y: word, r: word, attribs: seq<Pair>, replayed: long)
    ensures CallActions(CreateHandle(708, dpy, a, b, attribs, c), replayed) == [R.Create(R.Surface, c, replayed)]
    ensures CallActions(CreateHandle(721, dpy, a, b, attribs, c), replayed)
         == if b == 0 then [R.Create(R.Context, c, replayed)] else [R.Use(R.Context, b), R.Create(R.Context, c, replayed)]
    ensures CallActions(Plain(718, [FPtr(dpy), FPtr(a), FInt(x), FInt(y), FInt(r)]), replayed) == [R.Use(R.Surface, a)]
    ensures CallActions(Plain(730, [FPtr(dpy), FPtr(a), FInt(r)]), replayed) == [R.Use(R.Surface, a)]
    ensures CallActions(Plain(722, [FPtr(dpy), FPtr(a), FInt(r)]), replayed) == [R.Use(R.Context, a)]
    ensures CallActions(Plain(723, [FPtr(dpy), FPtr(a), FPtr(b), FPtr(c), FInt(r)]), replayed)
         == [R.Use(R.Surface, a), R.Use(R.Surface, b), R.Use(R.Context, c)]
  {
  }
}
