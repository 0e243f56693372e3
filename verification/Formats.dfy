/** Sizes and types of vertex attributes. The tracer packs arrays by its own table, the replayer draws from
    the blocks by the copies it keeps from glVertexAttribPointer records: why both agree. */
module Formats {
  import opened Words
  import opened Fields
  import opened Commands
  import opened Replay
  import opened Trace
  import opened Arguments
  import opened Gather
  import R = Recorder
  import S = Sync

  /** What the replayer keeps of an attribute. */
  datatype Format = Format(size: word, typ: word, normalized: word)

  // ---------------------------------------------------------------- both tables

  /** Calls that change the tracer's table. */
  predicate Pointing(c: Call) {
    c.Plain? && c.op in {OPC_ENABLE_ATTRIB, OPC_DISABLE_ATTRIB, OPC_ATTRIB_POINTER}
  }

  lemma PointerArgs(c: Call, ws: nat)
    requires c.Plain? && c.op == OPC_ATTRIB_POINTER && Recordable(c, ws)
    ensures |c.args| == 6 && c.args[5].FPtr? && forall i :: 0 <= i < 5 ==> c.args[i].FInt?
    ensures c.args[0].w < MAX_VERTEX_ATTRIBS
  {
    assert TracerShape(c.op) == Some(Ints(5) + [KPtr]);
    hide TracerShape;
    forall i | 0 <= i < |c.args|
      ensures KindOf(c.args[i]) == Kinds(c.args)[i]
    {
      KindAt(c.args, i);
    }
    assert |c.args| == |Kinds(c.args)|;
    assert forall i :: 0 <= i < 5 ==> Kinds(c.args)[i] == Ints(5)[i];
  }

  predicate IsTable(table: seq<Attrib>) {
    |table| == MAX_VERTEX_ATTRIBS
  }

  /** The tracer's table after a call. */
  function AfterPointer(table: seq<Attrib>, c: Call, ws: nat): (r: seq<Attrib>)
    requires IsTable(table) && Recordable(c, ws)
    ensures IsTable(r)
  {
    if !Pointing(c) then table else
    var i := c.args[0].w;
    if c.op == OPC_ATTRIB_POINTER then
      PointerArgs(c, ws);
      table[i := Attrib(table[i].enabled, Signed(c.args[1].w), c.args[2].w, c.args[3].w,
                        Signed(c.args[4].w), c.args[5].p)]
    else table[i := table[i].(enabled := c.op == OPC_ENABLE_ATTRIB)]
  }

  /** The replayer's copies after a decoded record. */
  function AfterFormat(fs: seq<Format>, item: Item): (r: seq<Format>)
    ensures |r| == |fs|
  {
    var v := item.vals;
    if item.op == OPC_ATTRIB_POINTER && |v| == 6 && v[0].VInt? && v[1].VInt? && v[2].VInt? && v[3].VInt?
       && v[0].w < |fs| then fs[v[0].w := Format(v[1].w, v[2].w, v[3].w)]
    else fs
  }

  function FormatsAfter(fs: seq<Format>, items: seq<Item>): (r: seq<Format>)
    ensures |r| == |fs|
    decreases |items|
  {
    if items == [] then fs else FormatsAfter(AfterFormat(fs, items[0]), items[1..])
  }

  /** The tracer's table after recorded calls, one after the other. */
  ghost function TableOf(table: seq<Attrib>, es: seq<Entry>, ws: nat): (r: seq<Attrib>)
    requires IsTable(table) && forall i :: 0 <= i < |es| ==> Recordable(es[i].call, ws)
    ensures IsTable(r)
    decreases |es|
  {
    if es == [] then table else TableOf(AfterPointer(table, es[0].call, ws), es[1..], ws)
  }

  /** Both start with zeros. */
  function NoFormats(): seq<Format> {
    seq(MAX_VERTEX_ATTRIBS, i => Format(0, 0, 0))
  }

  function NoTable(): (table: seq<Attrib>)
    ensures IsTable(table)
  {
    seq(MAX_VERTEX_ATTRIBS, i => Attrib(false, 0, 0, 0, 0, 0))
  }

  /** glVertexAttribPointer(i, size, type, normalized, stride, pointer) sets the entry of `i` and no other, and
      does not enable it; the two calls that switch an attribute do only that. */
  lemma PointerMeans(table: seq<Attrib>, i: word, size: word, typ: word, normalized: word, stride: word, pointer: long,
                     ws: nat)
    requires WordSize(ws) && IsTable(table) && i < 128 && pointer < Pow256(ws)
    ensures var c := Plain(240, [FInt(i), FInt(size), FInt(typ), FInt(normalized), FInt(stride), FPtr(pointer)]);
            && Recordable(c, ws)
            && AfterPointer(table, c, ws)
               == table[i := Attrib(table[i].enabled, Signed(size), typ, normalized, Signed(stride), pointer)]
    ensures Recordable(Plain(143, [FInt(i)]), ws) && Recordable(Plain(139, [FInt(i)]), ws)
    ensures AfterPointer(table, Plain(143, [FInt(i)]), ws) == table[i := table[i].(enabled := true)]
    ensures AfterPointer(table, Plain(139, [FInt(i)]), ws) == table[i := table[i].(enabled := false)]
  {
    var args := [FInt(i), FInt(size), FInt(typ), FInt(normalized), FInt(stride), FPtr(pointer)];
    assert TracerShape(240) == Some(Ints(5) + [KPtr]) && TracerShape(143) == TracerShape(139) == Some(Ints(1));
    hide TracerShape;
    assert forall k :: 0 <= k < 6 ==> WellFormed(args[k], ws);
    assert Kinds(args) == Ints(5) + [KPtr];
    assert Kinds([FInt(i)]) == Ints(1);
  }

  // ---------------------------------------------------------------- agreement

  predicate Same(f: Format, a: Attrib) {
    Signed(f.size) == a.size && f.typ == a.typ && f.normalized == a.normalized
  }

  predicate Agree(fs: seq<Format>, table: seq<Attrib>) {
    IsTable(table) && |fs| == |table| && forall i :: 0 <= i < |fs| ==> Same(fs[i], table[i])
  }

  lemma PointerItem(st: Tracked, e: Entry, ws: nat)
    requires WordSize(ws) && st.Valid() && Recordable(e.call, ws) && EntryWellFormed(e, ws)
    requires e.fields == Record(st, e.call, ws) && e.call.Plain? && e.call.op == OPC_ATTRIB_POINTER
    ensures |e.call.args| == 6 && forall i :: 0 <= i < 5 ==> e.call.args[i].FInt?
    ensures var v := ItemOf(e, ws).vals;
            |v| == 6 && forall i :: 0 <= i < 5 ==> v[i] == VInt(e.call.args[i].w)
  {
    PointerArgs(e.call, ws);
    hide Recordable, Widen;
  }

  lemma OtherOpcodes(c: Call, ws: nat)
    requires Recordable(c, ws) && !c.Plain?
    ensures Opcode(c) != OPC_ATTRIB_POINTER
  {
  }

  /** A record changes the copies as the call changed the table. */
  lemma AgreeStep(st: Tracked, fs: seq<Format>, table: seq<Attrib>, e: Entry, ws: nat)
    requires WordSize(ws) && st.Valid() && Recordable(e.call, ws) && EntryWellFormed(e, ws)
    requires e.fields == Record(st, e.call, ws) && Agree(fs, table)
    ensures Agree(AfterFormat(fs, ItemOf(e, ws)), AfterPointer(table, e.call, ws))
  {
    if e.call.Plain? && e.call.op == OPC_ATTRIB_POINTER {
      PointerItem(st, e, ws);
      PointerArgs(e.call, ws);
    } else if !e.call.Plain? {
      OtherOpcodes(e.call, ws);
    }
    hide Recordable, Record, ReadBacks, EntryWellFormed, Widen;
  }

  lemma EnabledStep(st: Tracked, table: seq<Attrib>, c: Call, ws: nat)
    requires st.Valid() && IsTable(table) && Recordable(c, ws) && st.enabled == Gather.Enabled(table)
    ensures AfterCall(st, c, ws).enabled == Gather.Enabled(AfterPointer(table, c, ws))
  {
    if c.Plain? && c.op == OPC_ATTRIB_POINTER {
      PointerArgs(c, ws);
    }
    hide Recordable;
  }

  /** The replayer's copies follow the tracer's table over whole runs. */
  lemma {:induction false} AgreeRun(st: Tracked, fs: seq<Format>, table: seq<Attrib>, es: seq<Entry>, ws: nat)
    requires WordSize(ws) && st.Valid() && Recorded(st, es, ws) && Agree(fs, table)
    requires st.enabled == Gather.Enabled(table)
    ensures EntriesWellFormed(es, ws) && forall i :: 0 <= i < |es| ==> Recordable(es[i].call, ws)
    ensures Agree(FormatsAfter(fs, Items(es, ws)), TableOf(table, es, ws))
    ensures StateAfter(st, es, ws).enabled == Gather.Enabled(TableOf(table, es, ws))
    decreases |es|
  {
    hide Recordable, Replayable, Record, AfterCall, AfterPointer, AfterFormat, ItemOf, EntryWellFormed, Agree;
    RecordedWellFormed(st, es, ws);
    if es == [] {
      assert Items(es, ws) == [];
    } else {
      ItemsCons(es, ws);
      AgreeStep(st, fs, table, es[0], ws);
      EnabledStep(st, table, es[0].call, ws);
      var st', rest := AfterCall(st, es[0].call, ws), es[1..];
      AgreeRun(st', AfterFormat(fs, ItemOf(es[0], ws)), AfterPointer(table, es[0].call, ws), rest, ws);
      assert forall i :: 1 <= i < |es| ==> es[i] == rest[i - 1];
      assert Items(es, ws)[1..] == Items(rest, ws);
    }
  }

  // ---------------------------------------------------------------- the table in runs of the recorder

  ghost predicate CallsOk(es: seq<Entry>, ws: nat) {
    forall i :: 0 <= i < |es| ==> Recordable(es[i].call, ws)
  }

  /** A call is over: nested or not, it has changed the table. */
  function AfterStep(s: R.State, table: seq<Attrib>, step: R.Step, ws: nat): (r: seq<Attrib>)
    requires R.StateOk(s, ws) && R.Enabled(s, step, ws) && IsTable(table)
    ensures IsTable(r)
  {
    if step.Leave? then AfterPointer(table, R.Top(s, step.t).call, ws) else table
  }

  ghost function TracerTable(s: R.State, table: seq<Attrib>, steps: seq<R.Step>, ws: nat): seq<Attrib>
    requires R.StateOk(s, ws) && R.ValidRun(s, steps, ws) && IsTable(table)
    decreases |steps|
  {
    if steps == [] then table
    else TracerTable(R.Apply(s, steps[0], ws), AfterStep(s, table, steps[0], ws), steps[1..], ws)
  }

  /** Nested calls leave the table alone: they are not recorded, so the replayer could not follow. */
  ghost predicate QuietInside(s: R.State, steps: seq<R.Step>, ws: nat)
    requires R.StateOk(s, ws) && R.ValidRun(s, steps, ws)
    decreases |steps|
  {
    steps == [] ||
    (&& (steps[0].Enter? && R.Stack(s, steps[0].t) != [] ==> !Pointing(steps[0].call))
     && QuietInside(R.Apply(s, steps[0], ws), steps[1..], ws))
  }

  ghost predicate QuietStacks(s: R.State) {
    forall t :: t in s.stacks ==> forall i :: 1 <= i < |s.stacks[t]| ==> !Pointing(s.stacks[t][i].call)
  }

  lemma {:induction false} TableSnoc(table: seq<Attrib>, es: seq<Entry>, e: Entry, ws: nat)
    requires IsTable(table) && CallsOk(es, ws) && Recordable(e.call, ws)
    ensures CallsOk(es + [e], ws)
    ensures TableOf(table, es + [e], ws) == AfterPointer(TableOf(table, es, ws), e.call, ws)
    decreases |es|
  {
    hide Recordable, AfterPointer;
    if es == [] {
      assert es + [e] == [e] && [e][1..] == [];
    } else {
      assert (es + [e])[1..] == es[1..] + [e];
      TableSnoc(AfterPointer(table, es[0].call, ws), es[1..], e, ws);
    }
  }

  lemma StepTable(s: R.State, start: seq<Attrib>, step: R.Step, ws: nat)
    requires R.StateOk(s, ws) && R.Enabled(s, step, ws) && IsTable(start) && CallsOk(s.done, ws)
    requires QuietStacks(s) && (step.Enter? && R.Stack(s, step.t) != [] ==> !Pointing(step.call))
    ensures QuietStacks(R.Apply(s, step, ws)) && CallsOk(R.Apply(s, step, ws).done, ws)
    ensures AfterStep(s, TableOf(start, s.done, ws), step, ws) == TableOf(start, R.Apply(s, step, ws).done, ws)
  {
    hide Record, Pointing, TableOf, AfterCall, Pow256, EncWord, EncLong, Enc, Prefix;
    if step.Leave? {
      var f := R.Top(s, step.t);
      assert Recordable(f.call, ws);
      hide Recordable;
      if |R.Stack(s, step.t)| == 1 {
        TableSnoc(start, s.done, Entry(step.t, f.call, f.fields, step.bgn, step.end), ws);
      } else {
        assert !Pointing(f.call);
        Untouched(TableOf(start, s.done, ws), f.call, ws);
      }
      hide AfterPointer;
    } else {
      hide Recordable;
    }
  }

  lemma Untouched(table: seq<Attrib>, c: Call, ws: nat)
    requires IsTable(table) && Recordable(c, ws) && !Pointing(c)
    ensures AfterPointer(table, c, ws) == table
  {
    hide Recordable;
  }

  /** In every run whose nested calls leave it alone the tracer's table is that of the closed calls. */
  lemma {:induction false} RunTable(s: R.State, start: seq<Attrib>, steps: seq<R.Step>, ws: nat)
    requires R.StateOk(s, ws) && R.ValidRun(s, steps, ws) && QuietInside(s, steps, ws)
    requires IsTable(start) && CallsOk(s.done, ws) && QuietStacks(s)
    ensures var s' := R.Run(s, steps, ws);
            CallsOk(s'.done, ws) && TracerTable(s, TableOf(start, s.done, ws), steps, ws) == TableOf(start, s'.done, ws)
    decreases |steps|
  {
    hide R.Apply, R.Enabled, R.StateOk, AfterStep, TableOf, QuietStacks, CallsOk;
    if steps != [] {
      StepTable(s, start, steps[0], ws);
      RunTable(R.Apply(s, steps[0], ws), start, steps[1..], ws);
    }
  }

  /** Tracer and replayer agree: record any orderly run whose nested calls leave the table alone, stop at a
      record boundary, and the copies a replayer keeps of the decoded records are those of the tracer. */
  lemma RunAgrees(steps: seq<R.Step>, ws: nat)
    requires WordSize(ws) && R.StateOk(R.Init(ws), ws) && R.ValidRun(R.Init(ws), steps, ws)
    requires S.OrderlyRun(R.Init(ws), steps, ws) && QuietInside(R.Init(ws), steps, ws)
    requires R.Run(R.Init(ws), steps, ws).owner == None
    ensures var s := R.Run(R.Init(ws), steps, ws);
            && EntriesWellFormed(s.done, ws) && DecodeFile(s.out) == Some(Items(s.done, ws))
            && Agree(FormatsAfter(NoFormats(), Items(s.done, ws)), TracerTable(R.Init(ws), NoTable(), steps, ws))
  {
    var s := R.Run(R.Init(ws), steps, ws);
    assert QuietStacks(R.Init(ws)) && CallsOk(R.Init(ws).done, ws);
    assert TableOf(NoTable(), R.Init(ws).done, ws) == NoTable();
    hide R.Run, R.ValidRun, S.OrderlyRun, QuietInside, R.Init, Recorded, Items, TableOf, FormatsAfter, TracerTable;
    hide DecodeFile, EntriesWellFormed, Agree, NoTable, NoFormats, R.StateOk;
    S.RecordingDecodes(steps, 0, ws);
    assert s.out + Zeros(0) == s.out;
    RunTable(R.Init(ws), NoTable(), steps, ws);
    StartAgrees();
    AgreeRun(Initially(), NoFormats(), NoTable(), s.done, ws);
  }

  // ---------------------------------------------------------------- drawing

  /** The bytes per vertex a draw with stride 0 takes. */
  function DrawSize(f: Format): nat {
    match SizeOf(f.typ)
    case None => 0
    case Some(n) => if Signed(f.size) < 0 then 0 else n * Signed(f.size)
  }

  /** Drawing from a block gives the original vertex if and only if it was packed and the bytes per vertex
      are those it was packed with. */
  lemma FormatExact(mem: Memory, a: Attrib, n: nat, size: nat, x: nat)
    requires Sound(a)
    ensures FromBlock(Pack(mem, a, n), size, x) == Some(Vertex(mem, a, x)) <==> size == ElemSize(a) && x < n
  {
    hide Pack, Sound, ElemSize;
    PackedVertex(mem, a, n, x);
    hide Vertex;
    assert |Vertex(mem, a, x)| == ElemSize(a);
  }

  lemma SameSize(f: Format, a: Attrib)
    requires Sound(a) && Same(f, a)
    ensures DrawSize(f) == ElemSize(a)
  {
  }

  /** The drawing law through record and replay, each side with its own table: behind any recorded calls a
      draw with client arrays gives, for attribute `i` and index `x`, the original vertex if and only if
      `x` is below the vertex count, and draws it with the original type. */
  lemma ReplayedDraw(mem: Memory, es: seq<Entry>, e: Entry, ws: nat, i: nat, x: nat)
    requires WordSize(ws) && Recorded(Initially(), es, ws) && CallsOk(es, ws) && EntriesWellFormed(es, ws)
    requires var st := StateAfter(Initially(), es, ws);
             && e.call.DrawElements? && Recordable(e.call, ws) && e.call.count < 0x8000_0000
             && EntryWellFormed(e, ws) && e.fields == Record(st, e.call, ws) && st.arrayBuffer == 0
    requires var table := TableOf(NoTable(), es, ws);
             && TableOk(table) && i < MAX_VERTEX_ATTRIBS && table[i].enabled
             && e.call.packed == Blocks(mem, table, VertexCount(e.call.count))
    ensures var table, fs := TableOf(NoTable(), es, ws), FormatsAfter(NoFormats(), Items(es, ws));
            var vals, at := ItemOf(e, ws).vals, 4 + Rank(Gather.Enabled(table), i);
            && i < |fs| && at < |vals| && fs[i].typ == table[i].typ && fs[i].normalized == table[i].normalized
            && (FromBlock(BytesOf(vals[at]), DrawSize(fs[i]), x) == Some(Vertex(mem, table[i], x))
                <==> x < VertexCount(e.call.count))
  {
    hide Recordable, Recorded, Record, Rank, Pack, FromBlock, Vertex, ElemSize, Sound, DrawSize, TableOf, FormatsAfter;
    hide StateAfter, Items, EntryWellFormed, EntriesWellFormed;
    StartAgrees();
    AgreeRun(Initially(), NoFormats(), NoTable(), es, ws);
    var st, table := StateAfter(Initially(), es, ws), TableOf(NoTable(), es, ws);
    var fs := FormatsAfter(NoFormats(), Items(es, ws));
    DrawArguments(st, e.call, ws);
    SameSize(fs[i], table[i]);
    FormatExact(mem, table[i], VertexCount(e.call.count), DrawSize(fs[i]), x);
  }

  lemma StartAgrees()
    ensures Agree(NoFormats(), NoTable()) && Initially().enabled == Gather.Enabled(NoTable())
  {
  }
}
