/** When recordings decode, exactly: every run of the recorder, orderly or not, decodes to itself if and
    only if the replayer supports its calls and each draw record has the shape that the records in
    front of it announce, which is the one thing the file does not tell; a racing binding breaks that. */
module Shapes {
  import opened Words
  import opened Fields
  import opened Commands
  import opened Replay
  import opened Bodies
  import opened Refusals
  import opened Trace
  import opened Recorder

  /** The record was made under some tracked state, not necessarily the replayer's. */
  ghost predicate Made(fields: seq<Field>, c: Call, ws: nat) {
    Recordable(c, ws) && exists w: Tracked :: w.Valid() && fields == Record(w, c, ws)
  }

  ghost predicate Written(e: Entry, ws: nat) {
    e.thread < Pow256(ws) && Made(e.fields, e.call, ws)
  }

  ghost predicate AllWritten(es: seq<Entry>, ws: nat) {
    forall i :: 0 <= i < |es| ==> Written(es[i], ws)
  }

  ghost predicate AllReplayable(es: seq<Entry>) {
    forall i :: 0 <= i < |es| ==> Replayable(es[i].call)
  }

  /** A reader who follows the records from `st` meets every draw record in the shape it expects. */
  ghost predicate Shaped(st: Tracked, es: seq<Entry>, ws: nat)
    requires st.Valid() && AllWritten(es, ws)
    decreases |es|
  {
    es == [] ||
    (&& ShapedFirst(st, es[0])
     && Recordable(es[0].call, ws)
     && Shaped(AfterCall(st, es[0].call, ws), es[1..], ws))
  }

  /** The replayer gets through: draw records are shaped, and calls pass its guards; but the last record
      may be a float query whose times happen to hide that its null or marker float was misread. */
  ghost predicate Legible(st: Tracked, es: seq<Entry>, ws: nat)
    requires st.Valid() && AllWritten(es, ws)
    decreases |es|
  {
    es == [] ||
    (&& ShapedFirst(st, es[0]) && Recordable(es[0].call, ws)
     && if Replayable(es[0].call) then Legible(AfterCall(st, es[0].call, ws), es[1..], ws)
        else |es| == 1 && Frozen(es[0]))
  }

  /** Where every call passes the guards, only shapes matter. */
  lemma {:induction false} LegibleIsShaped(st: Tracked, es: seq<Entry>, ws: nat)
    requires st.Valid() && AllWritten(es, ws) && AllReplayable(es)
    ensures Legible(st, es, ws) <==> Shaped(st, es, ws)
    decreases |es|
  {
    hide Written, Replayable, Recordable, AfterCall, ShapedFirst, Frozen;
    if es != [] && Recordable(es[0].call, ws) {
      LegibleIsShaped(AfterCall(st, es[0].call, ws), es[1..], ws);
    }
  }

  predicate ShapedFirst(st: Tracked, e: Entry) {
    e.call.DrawElements? ==> Kinds(e.fields) == DrawKinds(st)
  }

  // ---------------------------------------------------------------- one record

  lemma ReadBackKind(f: Field, k: Kind, ws: nat)
    requires WordSize(ws) && WellFormed(f, ws)
    ensures IsKind(ReadBack(f, ws), k) <==> k == KindOf(f)
  {
    hide Widen, WellFormed;
  }

  /** Values tell the kinds they were written with. */
  lemma ReadBackKinds(fs: seq<Field>, ks: seq<Kind>, ws: nat)
    requires WordSize(ws) && AllWellFormed(fs, ws) && AreKinds(ReadBacks(fs, ws), ks)
    ensures ks == Kinds(fs)
  {
    hide WellFormed, ReadBack, IsKind, KindOf;
    forall i | 0 <= i < |fs|
      ensures ks[i] == Kinds(fs)[i]
    {
      ReadBackKind(fs[i], ks[i], ws);
      assert IsKind(ReadBacks(fs, ws)[i], ks[i]);
    }
  }

  /** A draw record is decoded to its own values if and only if it has the expected shape. */
  lemma DrawExact(s: seq<byte>, pos: nat, r: Tracked, fs: seq<Field>, ws: nat)
    requires WordSize(ws) && AllWellFormed(fs, ws) && NoEscape(fs) && At(s, pos, EncFields(fs, ws))
    ensures var b := ReadBody(s, pos, r, OPC_DRAW_ELEMENTS, ws);
            && b.Parsed?
            && (Kinds(fs) == DrawKinds(r) ==> b == Faithful(fs, pos, ws))
            && (Kinds(fs) != DrawKinds(r) ==> b.vals != ReadBacks(fs, ws))
  {
    CallsDecoded(OPC_DRAW_ELEMENTS);
    hide ReplayShape, EncFields, DrawKinds, Kinds, ReadBacks, At, NoEscape, AllWellFormed, AreKinds;
    if Kinds(fs) == DrawKinds(r) {
      ReadAll(s, pos, fs, DrawKinds(r), ws);
    } else {
      var b := Read(s, pos, DrawKinds(r), ws);
      if b.vals == ReadBacks(fs, ws) {
        ReadBackKinds(fs, DrawKinds(r), ws);
      }
    }
  }

  /** Only draw records depend on the tracked state. */
  lemma OthersIndependent(w: Tracked, r: Tracked, c: Call, ws: nat)
    requires w.Valid() && r.Valid() && Recordable(c, ws) && !c.DrawElements?
    ensures Record(w, c, ws) == Record(r, c, ws)
  {
    hide Recordable;
  }

  lemma WrittenIsWellFormed(e: Entry, ws: nat) returns (w: Tracked)
    requires WordSize(ws) && Written(e, ws)
    ensures EntryWellFormed(e, ws) && Recordable(e.call, ws) && w.Valid()
    ensures e.fields == Record(w, e.call, ws) && (!e.call.Plain? ==> NoEscape(e.fields))
  {
    hide Record, Recordable, AllWellFormed, NoEscape;
    w :| w.Valid() && e.fields == Record(w, e.call, ws);
    RecordWellFormed(w, e.call, ws);
  }

  /** The body of a written record, read under the state `r`. */
  lemma WrittenBody(s: seq<byte>, pos: nat, r: Tracked, e: Entry, ws: nat)
    requires WordSize(ws) && r.Valid() && Written(e, ws) && Replayable(e.call)
    requires EntryWellFormed(e, ws) && At(s, pos, EncFields(e.fields, ws))
    ensures var b := ReadBody(s, pos, r, Opcode(e.call), ws);
            && b.Parsed?
            && (ShapedFirst(r, e) ==> b == Faithful(e.fields, pos, ws))
            && (!ShapedFirst(r, e) ==> b.vals != ReadBacks(e.fields, ws))
  {
    hide Record, Recordable, Replayable, EncFields, ReadBacks, ReadBody, At, AllWellFormed, NoEscape;
    hide Kinds, DrawKinds, Made, EntryWellFormed;
    EntryParts(e, ws);
    var w := WrittenIsWellFormed(e, ws);
    if e.call.DrawElements? {
      DrawExact(s, pos, r, e.fields, ws);
    } else {
      OthersIndependent(w, r, e.call, ws);
      BodyExact(s, pos, r, e.call, ws);
    }
  }

  /** One record: decoded to itself, with the trackers still in step, or to something else. */
  lemma WrittenItem(s: seq<byte>, cur: Cursor, prev: long, e: Entry, ws: nat)
    requires WordSize(ws) && cur.st.Valid() && prev < Pow256(ws) && cur.thread == Widen(prev, ws)
    requires Written(e, ws) && Replayable(e.call) && At(s, cur.pos, EncEntry(prev, e, ws))
    ensures EntryWellFormed(e, ws) && Recordable(e.call, ws)
    ensures ShapedFirst(cur.st, e) ==>
              ReadItem(s, cur, ws)
              == Got(ItemOf(e, ws), Cursor(cur.pos + |EncEntry(prev, e, ws)|, Widen(e.thread, ws),
                                           AfterCall(cur.st, e.call, ws)))
    ensures !ShapedFirst(cur.st, e) ==>
              ReadItem(s, cur, ws).Got? && ReadItem(s, cur, ws).item != ItemOf(e, ws)
  {
    hide *;
    var w := WrittenIsWellFormed(e, ws);
    EntryParts(e, ws);
    OpcodesAreCommands(e.call, ws);
    FrameRoundTrip(s, cur, prev, e, ws);
    WrittenBody(s, BodyStart(cur.pos, prev, e, ws), cur.st, e, ws);
    TrackersAgree(cur.st, w, e.call, ws);
    if !ShapedFirst(cur.st, e) {
      OtherItem(s, cur, e, ws);
    }
  }

  lemma OtherItem(s: seq<byte>, cur: Cursor, e: Entry, ws: nat)
    requires WordSize(ws) && EntryWellFormed(e, ws)
    requires ReadLead(s, cur, ws).op !in {OPC_NONE, OPC_EOF, OPC_THREAD}
    requires var lead := ReadLead(s, cur, ws);
             var b := ReadBody(s, lead.pos, cur.st, lead.op, ws);
             b.Parsed? && b.vals != ReadBacks(e.fields, ws)
    ensures ReadItem(s, cur, ws).Got? && ReadItem(s, cur, ws).item != ItemOf(e, ws)
  {
    hide ReadLead, ReadBody, GetLong, AfterItem, ReadBacks, Widen;
  }

  // ---------------------------------------------------------------- whole traces

  lemma DecodeStepExact(s: seq<byte>, cur: Cursor, es: seq<Entry>, item: Item, next: Cursor, ws: nat)
    requires WordSize(ws) && es != [] && EntriesWellFormed(es, ws)
    requires ReadItem(s, cur, ws) == Got(item, next)
    ensures EntryWellFormed(es[0], ws) && EntriesWellFormed(es[1..], ws)
    ensures Decode(s, cur, ws) == Items(es, ws)
       <==> item == ItemOf(es[0], ws) && Decode(s, next, ws) == Items(es[1..], ws)
  {
    hide ReadItem, ItemOf, EntryWellFormed, Items;
    ItemsCons(es, ws);
    var rest := Items(es[1..], ws);
    assert Items(es, ws)[0] == ItemOf(es[0], ws) && Items(es, ws)[1..] == rest;
    assert Decode(s, cur, ws)[0] == item && Decode(s, cur, ws)[1..] == Decode(s, next, ws);
  }

  lemma AllWrittenWellFormed(es: seq<Entry>, ws: nat)
    requires WordSize(ws) && AllWritten(es, ws)
    ensures EntriesWellFormed(es, ws)
  {
    hide Written, EntryWellFormed;
    forall i | 0 <= i < |es|
      ensures EntryWellFormed(es[i], ws)
    {
      var w := WrittenIsWellFormed(es[i], ws);
    }
  }

  /** A record the replayer does not get through, whatever state it was made under. */
  lemma RefusedWritten(s: seq<byte>, cur: Cursor, prev: long, es: seq<Entry>, ws: nat)
    requires WordSize(ws) && cur.st.Valid() && prev < Pow256(ws) && cur.thread == Widen(prev, ws)
    requires es != [] && AllWritten(es, ws) && EntriesWellFormed(es, ws) && !Replayable(es[0].call)
    requires At(s, cur.pos, EncEntry(prev, es[0], ws))
    ensures Decode(s, cur, ws) == Items(es, ws) <==> |es| == 1 && Frozen(es[0])
    ensures Recordable(es[0].call, ws) && ShapedFirst(cur.st, es[0])
  {
    hide *;
    var e := es[0];
    FirstWritten(es, ws);
    var w := WrittenIsWellFormed(e, ws);
    DrawsPass(e, cur.st);
    OthersIndependent(w, cur.st, e.call, ws);
    RefusedItem(s, cur, prev, e, ws);
    if Escaping(e.call) {
      var got := ReadItem(s, cur, ws);
      DecodeStepExact(s, cur, es, got.item, got.cur, ws);
      EmptyItems(es[1..], ws);
    } else {
      StoppedDecode(s, cur, es, ws);
      NotFrozen(e);
    }
  }

  lemma FirstWritten(es: seq<Entry>, ws: nat)
    requires es != [] && AllWritten(es, ws)
    ensures Written(es[0], ws)
  {
    hide Written;
  }

  lemma DrawsPass(e: Entry, st: Tracked)
    requires !Replayable(e.call)
    ensures !e.call.DrawElements? && ShapedFirst(st, e)
  {
    hide Unreplayed, NoEscape;
  }

  lemma NotFrozen(e: Entry)
    requires !Escaping(e.call)
    ensures !Frozen(e)
  {
    hide Escaping;
  }

  lemma EmptyItems(es: seq<Entry>, ws: nat)
    requires WordSize(ws) && EntriesWellFormed(es, ws)
    ensures Items(es, ws) == [] <==> es == []
  {
    hide EntriesWellFormed, ItemOf;
  }

  lemma StoppedDecode(s: seq<byte>, cur: Cursor, es: seq<Entry>, ws: nat)
    requires WordSize(ws) && es != [] && EntriesWellFormed(es, ws) && ReadItem(s, cur, ws) == End
    ensures Decode(s, cur, ws) != Items(es, ws)
  {
    hide ReadItem, ItemOf, EntriesWellFormed;
    EmptyItems(es, ws);
  }

  /** The exact law for traces: the file decodes to the run if and only if the run is legible. */
  lemma {:induction false} TraceExact(s: seq<byte>, cur: Cursor, prev: long, es: seq<Entry>, ws: nat)
    requires WordSize(ws) && cur.st.Valid() && prev < Pow256(ws) && cur.thread == Widen(prev, ws)
    requires AllWritten(es, ws)
    requires At(s, cur.pos, EncTrace(prev, es, ws))
    requires Finished(s, cur.pos + |EncTrace(prev, es, ws)|)
    ensures EntriesWellFormed(es, ws)
    ensures Decode(s, cur, ws) == Items(es, ws) <==> Legible(cur.st, es, ws)
    decreases |es|
  {
    hide At, Finished, Widen, WordSize, ReadItem, EncEntry, AfterCall, Decode, Items, ItemOf, EntriesWellFormed;
    hide EntryWellFormed, ShapedFirst, Replayable, Recordable, Made, Frozen;
    AllWrittenWellFormed(es, ws);
    if es == [] {
      AtTheEnd(s, cur, prev, ws);
    } else {
      var e := es[0];
      var first := EncEntry(prev, e, ws);
      AtSplit(s, cur.pos, first, EncTrace(e.thread, es[1..], ws));
      if Replayable(e.call) {
        WrittenItem(s, cur, prev, e, ws);
        var got := ReadItem(s, cur, ws);
        DecodeStepExact(s, cur, es, got.item, got.cur, ws);
        if ShapedFirst(cur.st, e) {
          TraceExact(s, got.cur, e.thread, es[1..], ws);
        }
      } else {
        RefusedWritten(s, cur, prev, es, ws);
      }
    }
  }

  lemma FileExact(es: seq<Entry>, tail: nat, ws: nat)
    requires WordSize(ws) && AllWritten(es, ws)
    ensures EntriesWellFormed(es, ws)
    ensures DecodeFile(EncHeader(ws) + EncTrace(0, es, ws) + Zeros(tail)) == Some(Items(es, ws))
       <==> Legible(Initially(), es, ws)
  {
    hide *;
    var body := EncTrace(0, es, ws);
    FileLayout(body, tail, ws);
    PointersExact(0, 0, ws);
    TraceExact(EncHeader(ws) + body + Zeros(tail), Cursor(20, 0, Initially()), 0, es, ws);
  }

  // ---------------------------------------------------------------- runs of the recorder

  ghost predicate FramesMade(fs: seq<Frame>, ws: nat) {
    forall i :: 0 <= i < |fs| ==> Made(fs[i].fields, fs[i].call, ws)
  }

  /** Every record in progress and every closed one was made under the tracer's state at its start. */
  ghost predicate AllMade(s: State, ws: nat) {
    (forall t :: t in s.stacks ==> FramesMade(s.stacks[t], ws)) && AllWritten(s.done, ws)
  }

  lemma EnterKeepsMade(s: State, step: Step, ws: nat)
    requires Inv(s, ws) && AllMade(s, ws) && step.Enter? && Enabled(s, step, ws)
    ensures AllMade(Apply(s, step, ws), ws)
  {
    hide StreamOk, Exclusive, Recordable, Record, EncWord, Prefix, Pow256, FramesOk, Made, AllWritten;
    var frame := Frame(step.call, Record(s.gl, step.call, ws), 0);
    MadeNow(s.gl, step.call, ws);
    assert Apply(s, step, ws).stacks == s.stacks[step.t := Stack(s, step.t) + [frame]];
  }

  lemma MadeNow(st: Tracked, c: Call, ws: nat)
    requires st.Valid() && Recordable(c, ws)
    ensures Made(Record(st, c, ws), c, ws)
  {
    hide Recordable, Record;
  }

  lemma PutKeepsMade(s: State, step: Step, ws: nat)
    requires Inv(s, ws) && AllMade(s, ws) && step.Put? && Enabled(s, step, ws)
    ensures AllMade(Apply(s, step, ws), ws)
  {
    hide StreamOk, Exclusive, Recordable, Made, Enc, Pow256, FramesOk, AllWritten;
    assert FramesMade(Stack(s, step.t), ws);
  }

  lemma LeaveKeepsMade(s: State, step: Step, ws: nat)
    requires Inv(s, ws) && AllMade(s, ws) && step.Leave? && Enabled(s, step, ws)
    ensures AllMade(Apply(s, step, ws), ws)
  {
    hide StreamOk, Recordable, Made, AfterCall, EncLong, Pow256, FramesOk;
    assert FramesMade(Stack(s, step.t), ws);
    assert Made(Top(s, step.t).fields, Top(s, step.t).call, ws);
  }

  lemma StepKeepsMade(s: State, step: Step, ws: nat)
    requires Inv(s, ws) && AllMade(s, ws) && Enabled(s, step, ws)
    ensures AllMade(Apply(s, step, ws), ws)
  {
    match step
    case Enter(_, _) => EnterKeepsMade(s, step, ws);
    case Put(_) => PutKeepsMade(s, step, ws);
    case Leave(_, _, _) => LeaveKeepsMade(s, step, ws);
    case Commit(_) =>
      hide StreamOk, Exclusive, Recordable, Made, AfterCall, Pow256, FramesOk;
  }

  lemma {:induction false} RunKeepsMade(s: State, steps: seq<Step>, ws: nat)
    requires Inv(s, ws) && AllMade(s, ws) && ValidRun(s, steps, ws)
    ensures Inv(Run(s, steps, ws), ws) && AllMade(Run(s, steps, ws), ws)
    decreases |steps|
  {
    hide Apply, Enabled, StreamOk, Exclusive, StateOk, AllMade;
    if steps != [] {
      StepKeepsMade(s, steps[0], ws);
      StepKeepsInv(s, steps[0], ws);
      RunKeepsMade(Apply(s, steps[0], ws), steps[1..], ws);
    }
  }

  lemma InitHolds(ws: nat)
    requires WordSize(ws)
    ensures StateOk(Init(ws), ws) && Inv(Init(ws), ws) && AllMade(Init(ws), ws)
  {
    hide EncHeader, Initially;
    assert EncHeader(ws) + EncTrace(0, [], ws) == EncHeader(ws);
  }

  /** The exact law for runs: any interleaving of any threads and calls, nested calls and racing bindings
      included, decodes to exactly its closed calls if and only if those are legible. */
  lemma RunExact(steps: seq<Step>, tail: nat, ws: nat)
    requires WordSize(ws) && ValidRun(Init(ws), steps, ws) && Run(Init(ws), steps, ws).owner == None
    ensures var s := Run(Init(ws), steps, ws);
            && AllWritten(s.done, ws) && EntriesWellFormed(s.done, ws)
            && (DecodeFile(s.out + Zeros(tail)) == Some(Items(s.done, ws)) <==> Legible(Initially(), s.done, ws))
  {
    hide ValidRun, Run, DecodeFile, Items, EncTrace, EncHeader, EntriesWellFormed, Init, Legible;
    hide AllWritten;
    InitHolds(ws);
    RunKeepsMade(Init(ws), steps, ws);
    FileExact(Run(Init(ws), steps, ws).done, tail, ws);
  }

  // ---------------------------------------------------------------- a run that does not decode

  lemma {:induction false} RunAppend(s: State, a: seq<Step>, b: seq<Step>, ws: nat)
    requires StateOk(s, ws) && ValidRun(s, a, ws) && StateOk(Run(s, a, ws), ws)
    requires ValidRun(Run(s, a, ws), b, ws)
    ensures ValidRun(s, a + b, ws) && Run(s, a + b, ws) == Run(Run(s, a, ws), b, ws)
    decreases |a|
  {
    hide StateOk, Enabled, Apply;
    if a == [] {
      assert a + b == b;
    } else {
      assert (a + b)[1..] == a[1..] + b;
      RunAppend(Apply(s, a[0], ws), a[1..], b, ws);
    }
  }

  /** The rest of an outermost call: its remaining fields, then its times. */
  lemma {:induction false} FinishCall(s: State, t: long, ws: nat) returns (steps: seq<Step>)
    requires Inv(s, ws) && t !in s.late && |Stack(s, t)| == 1
    ensures ValidRun(s, steps, ws) && Inv(Run(s, steps, ws), ws)
    ensures var f, s' := Stack(s, t)[0], Run(s, steps, ws);
            && s'.owner == None && Recordable(f.call, ws)
            && s'.done == s.done + [Entry(t, f.call, f.fields, 0, 0)]
            && s'.gl == (if IsBind(f.call) then s.gl else AfterCall(s.gl, f.call, ws))
            && s'.late == (if IsBind(f.call) then s.late[t := f.call] else s.late)
    decreases |Stack(s, t)[0].fields| - Stack(s, t)[0].put
  {
    hide StreamOk, Recordable, AfterCall, Enc, EncLong, Pow256, IsBind;
    var f := Stack(s, t)[0];
    assert f.put <= |f.fields| by { assert FramesOk(s.stacks[t], ws); }
    var step := if f.put == |f.fields| then Leave(t, 0, 0) else Put(t);
    var next := Apply(s, step, ws);
    StepKeepsInv(s, step, ws);
    if f.put == |f.fields| {
      steps := [step];
      assert steps[1..] == [];
    } else {
      var rest := FinishCall(next, t, ws);
      steps := [step] + rest;
      assert steps[1..] == rest;
    }
  }

  /** A whole outermost call by one thread, uninterrupted. */
  lemma OneCall(s: State, t: long, c: Call, ws: nat) returns (steps: seq<Step>)
    requires Inv(s, ws) && s.owner == None && t !in s.late && t < Pow256(ws) && Recordable(c, ws)
    ensures ValidRun(s, steps, ws) && Inv(Run(s, steps, ws), ws)
    ensures var s' := Run(s, steps, ws);
            && s'.owner == None
            && s'.done == s.done + [Entry(t, c, Record(s.gl, c, ws), 0, 0)]
            && s'.gl == (if IsBind(c) then s.gl else AfterCall(s.gl, c, ws))
            && s'.late == (if IsBind(c) then s.late[t := c] else s.late)
  {
    hide StreamOk, Recordable, AfterCall, EncWord, Prefix, Pow256, IsBind, Record, FramesOk;
    var step := Enter(t, c);
    assert Stack(s, t) == [];
    StepKeepsInv(s, step, ws);
    var rest := FinishCall(Apply(s, step, ws), t, ws);
    steps := [step] + rest;
    assert steps[1..] == rest;
  }

  function BindElements(buffer: word): Call {
    Plain(OPC_BIND_BUFFER, [FInt(GL_ELEMENT_ARRAY_BUFFER), FInt(buffer)])
  }

  function NoArrays(): (a: seq<seq<byte>>)
    ensures |a| == MAX_VERTEX_ATTRIBS && forall i :: 0 <= i < |a| ==> a[i] == []
  {
    seq(MAX_VERTEX_ATTRIBS, i => [])
  }

  /** glDrawElements with nothing to draw. */
  function EmptyDraw(): Call {
    DrawElements(0, 0, 0, 0, 0, None, NoArrays())
  }

  lemma RaceCallsRecordable(ws: nat)
    requires WordSize(ws)
    ensures Recordable(BindElements(7), ws) && Replayable(BindElements(7))
    ensures Recordable(EmptyDraw(), ws) && Replayable(EmptyDraw())
  {
    hide Initially;
    assert Kinds(BindElements(7).args) == Ints(2);
    assert Pow256(ws) > 0;
  }

  lemma SecondMisshapen(st: Tracked, es: seq<Entry>, ws: nat)
    requires st.Valid() && AllWritten(es, ws) && |es| == 2 && Recordable(es[0].call, ws)
    requires !ShapedFirst(AfterCall(st, es[0].call, ws), es[1])
    ensures !Shaped(st, es, ws)
  {
    hide Written, Recordable, AfterCall, ShapedFirst;
    assert es[1..][0] == es[1];
  }

  /** Draw records with and without a bound element buffer have different shapes. */
  lemma ElementBufferShapes(a: Tracked, b: Tracked)
    requires a.elementBuffer == 0 && b.elementBuffer != 0
    ensures DrawKinds(a) != DrawKinds(b)
  {
    hide CountTrue, Copies;
    assert DrawKinds(a)[3] == KBytes && DrawKinds(b)[3] == KPtr;
  }

  lemma BoundAfter(ws: nat)
    requires Recordable(BindElements(7), ws)
    ensures AfterCall(Initially(), BindElements(7), ws).elementBuffer == 7
    ensures Initially().elementBuffer == 0
  {
    hide Recordable;
  }

  /** The draw was recorded with nothing bound, but the file announces a bound element buffer. */
  lemma DrawMisshapen(e: Entry, ws: nat)
    requires WordSize(ws) && Recordable(EmptyDraw(), ws) && Recordable(BindElements(7), ws)
    requires e.call == EmptyDraw() && e.fields == Record(Initially(), EmptyDraw(), ws)
    ensures !ShapedFirst(AfterCall(Initially(), BindElements(7), ws), e)
  {
    hide Recordable, Record, NoArrays, Kinds, AfterCall, Initially, DrawKinds;
    DrawShape(Initially(), EmptyDraw(), ws);
    BoundAfter(ws);
    ElementBufferShapes(Initially(), AfterCall(Initially(), BindElements(7), ws));
  }

  lemma RaceIsMisshapen(es: seq<Entry>, ws: nat)
    requires WordSize(ws) && AllWritten(es, ws) && |es| == 2
    requires Recordable(EmptyDraw(), ws) && Recordable(BindElements(7), ws)
    requires es[0].call == BindElements(7)
    requires es[1].call == EmptyDraw() && es[1].fields == Record(Initially(), EmptyDraw(), ws)
    ensures !Shaped(Initially(), es, ws)
  {
    hide *;
    DrawMisshapen(es[1], ws);
    SecondMisshapen(Initially(), es, ws);
  }

  lemma BothReplayable(es: seq<Entry>)
    requires |es| == 2 && Replayable(es[0].call) && Replayable(es[1].call)
    ensures AllReplayable(es)
  {
    hide Replayable;
  }

  /** The discipline is needed: one thread closes the record of a binding, another draws before the
      binding is stored, and the finished file does not decode to what was recorded. */
  lemma RacingBindingBreaksReplay(ws: nat) returns (steps: seq<Step>)
    requires WordSize(ws)
    ensures ValidRun(Init(ws), steps, ws)
    ensures var s := Run(Init(ws), steps, ws);
            && s.owner == None && s.late == map[] && AllReplayable(s.done) && EntriesWellFormed(s.done, ws)
            && DecodeFile(s.out) != Some(Items(s.done, ws))
  {
    hide *;
    InitHolds(ws);
    var bound, drawn, end := Race(ws);
    steps := bound + drawn + end;
    var s := Run(Init(ws), steps, ws);
    RaceCallsRecordable(ws);
    BothReplayable(s.done);
    RunExact(steps, 0, ws);
    RaceIsMisshapen(s.done, ws);
    LegibleIsShaped(Initially(), s.done, ws);
    assert s.out + Zeros(0) == s.out;
  }

  lemma Race(ws: nat) returns (bound: seq<Step>, drawn: seq<Step>, end: seq<Step>)
    requires WordSize(ws)
    ensures Recordable(EmptyDraw(), ws) && Recordable(BindElements(7), ws)
    ensures ValidRun(Init(ws), bound + drawn + end, ws)
    ensures var s := Run(Init(ws), bound + drawn + end, ws);
            && s.owner == None && s.late == map[] && |s.done| == 2
            && s.done[0].call == BindElements(7)
            && s.done[1].call == EmptyDraw() && s.done[1].fields == Record(Initially(), EmptyDraw(), ws)
  {
    hide *;
    InitHolds(ws);
    InitIs(ws);
    RaceCallsRecordable(ws);
    CallsOfRace(ws);
    var s0 := Init(ws);
    bound := OneCall(s0, 1, BindElements(7), ws);
    var s1 := Run(s0, bound, ws);
    InvIsOk(s1, ws);
    drawn := OneCall(s1, 2, EmptyDraw(), ws);
    var s2 := Run(s1, drawn, ws);
    InvIsOk(s2, ws);
    end := [Commit(1)];
    CommitLast(s2, 1, ws);
    RunAppend(s0, bound, drawn, ws);
    RunAppend(s0, bound + drawn, end, ws);
  }

  lemma InitIs(ws: nat)
    requires WordSize(ws)
    ensures var s := Init(ws); s.owner == None && s.gl == Initially() && s.late == map[] && s.done == []
  {
  }

  lemma InvIsOk(s: State, ws: nat)
    requires Inv(s, ws)
    ensures StateOk(s, ws)
  {
  }

  lemma CallsOfRace(ws: nat)
    requires WordSize(ws)
    ensures IsBind(BindElements(7)) && !IsBind(EmptyDraw()) && 2 < Pow256(ws)
  {
    PowersOf256();
  }

  lemma CommitLast(s: State, t: long, ws: nat)
    requires StateOk(s, ws) && s.late.Keys == {t}
    ensures ValidRun(s, [Commit(t)], ws)
    ensures var s' := Run(s, [Commit(t)], ws); s'.owner == s.owner && s'.done == s.done && s'.late == map[]
  {
    hide AfterCall;
    assert [Commit(t)][1..] == [];
    assert (s.late - {t}).Keys == {};
  }
}
