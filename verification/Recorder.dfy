/** The recorder as a state machine over the steps of many threads: the recursive lock, the
    reentrancy counter, the stream and the tracked GL state. Every interleaving of arbitrarily
    nested intercepted calls is a run of this machine. */
module Recorder {
  import opened Words
  import opened Fields
  import opened Commands
  import opened Trace

  /** A call a thread is in: its fields and how many of them it has put so far. */
  datatype Frame = Frame(call: Call, fields: seq<Field>, put: nat)

  datatype Step =
    | Enter(t: long, call: Call)              // putCmd
    | Put(t: long)                            // the next putInt, putPtr, putBytes, ...
    | Leave(t: long, bgn: long, end: long)    // putTime
    | Commit(t: long)                         // glBindBuffer storing the binding behind putTime

  /** `done` is the history of outermost calls in the order they were closed. */
  datatype State = State(
    owner: Option<long>, locks: int,
    reentrance: int, curThread: long, out: seq<byte>,
    gl: Tracked, stacks: map<long, seq<Frame>>, late: map<long, Call>,
    done: seq<Entry>)

  function Stack(s: State, t: long): seq<Frame> {
    if t in s.stacks then s.stacks[t] else []
  }

  function Init(ws: nat): State
    requires WordSize(ws)
  {
    State(None, 0, 0, 0, EncHeader(ws), Initially(), map[], map[], [])
  }

  predicate IsBind(c: Call) {
    c.Plain? && c.op == OPC_BIND_BUFFER
  }

  /** Calls that change what later draw records look like. */
  predicate Tracking(c: Call) {
    c.Plain? && c.op in {OPC_BIND_BUFFER, OPC_ENABLE_ATTRIB, OPC_DISABLE_ATTRIB}
  }

  function Top(s: State, t: long): Frame
    requires Stack(s, t) != []
  {
    Stack(s, t)[|Stack(s, t)| - 1]
  }

  /** A step a thread can take: it waits for the lock, puts fields only inside a call, and stores a
      late binding before it goes on. */
  predicate Enabled(s: State, step: Step, ws: nat) {
    match step
    case Enter(t, call) =>
      t !in s.late && (s.owner == None || s.owner == Some(t)) && t < Pow256(ws) && Recordable(call, ws)
    case Put(t) => t !in s.late && Stack(s, t) != [] && Top(s, t).put < |Top(s, t).fields|
    case Leave(t, _, _) => t !in s.late && Stack(s, t) != [] && Top(s, t).put == |Top(s, t).fields|
    case Commit(t) => t in s.late
  }

  /** The put functions return early inside a nested call. */
  function Emit(s: State, bytes: seq<byte>): seq<byte> {
    if s.reentrance > 1 then s.out else s.out + bytes
  }

  predicate StateOk(s: State, ws: nat) {
    && WordSize(ws) && s.gl.Valid()
    && (forall t :: t in s.late ==> Recordable(s.late[t], ws))
    && (forall t :: t in s.stacks ==> forall i :: 0 <= i < |s.stacks[t]| ==> Recordable(s.stacks[t][i].call, ws))
  }

  function Apply(s: State, step: Step, ws: nat): (s': State)
    requires StateOk(s, ws) && Enabled(s, step, ws)
    ensures StateOk(s', ws)
  {
    match step
    case Enter(t, call) =>
      var frame := Frame(call, Record(s.gl, call, ws), 0);
      var s1 := s.(owner := Some(t), locks := s.locks + 1, reentrance := s.reentrance + 1,
                   stacks := s.stacks[t := Stack(s, t) + [frame]]);
      if s1.reentrance > 1 then s1
      else s1.(out := s.out + Prefix(s.curThread, t, ws) + EncWord(Opcode(call)), curThread := t)
    case Put(t) =>
      var f := Top(s, t);
      var rest := Stack(s, t)[..|Stack(s, t)| - 1];
      s.(out := Emit(s, Enc(f.fields[f.put], ws)),
         stacks := s.stacks[t := rest + [f.(put := f.put + 1)]])
    case Leave(t, bgn, end) =>
      var f := Top(s, t);
      var rest := Stack(s, t)[..|Stack(s, t)| - 1];
      s.(out := Emit(s, EncLong(bgn) + EncLong(end)),
         owner := if s.locks == 1 then None else s.owner,
         locks := s.locks - 1, reentrance := s.reentrance - 1,
         stacks := s.stacks[t := rest],
         gl := if IsBind(f.call) then s.gl else AfterCall(s.gl, f.call, ws),
         late := if IsBind(f.call) then s.late[t := f.call] else s.late,
         done := if rest == [] then s.done + [Entry(t, f.call, f.fields, bgn, end)] else s.done)
    case Commit(t) =>
      s.(gl := AfterCall(s.gl, s.late[t], ws), late := s.late - {t})
  }

  /** Nested calls add no bytes, whatever they put. */
  lemma NestedCallsAreSilent(s: State, step: Step, ws: nat)
    requires Inv(s, ws) && Enabled(s, step, ws)
    requires match step
             case Enter(t, _) => Stack(s, t) != []
             case Put(t) => |Stack(s, t)| > 1
             case Leave(t, _, _) => |Stack(s, t)| > 1
             case Commit(_) => true
    ensures Apply(s, step, ws).out == s.out
  {
    hide Record, Recordable, EncWord, Enc, AfterCall;
  }

  // ---------------------------------------------------------------- the lock protocol

  /** What the outermost call of the lock owner has written so far. */
  function Partial(prev: long, t: long, f: Frame, ws: nat): seq<byte>
    requires WordSize(ws) && f.put <= |f.fields|
  {
    Prefix(prev, t, ws) + (EncWord(Opcode(f.call)) + EncFields(f.fields[..f.put], ws))
  }

  ghost predicate FramesOk(fs: seq<Frame>, ws: nat) {
    forall i :: 0 <= i < |fs| ==> fs[i].put <= |fs[i].fields| && Recordable(fs[i].call, ws)
  }

  /** Mutual exclusion: only the lock owner is inside calls, and lock count and reentrancy counter
      both equal its nesting depth. */
  ghost predicate Exclusive(s: State) {
    && (forall t :: t in s.stacks && s.stacks[t] != [] ==> s.owner == Some(t))
    && s.reentrance == s.locks
    && s.reentrance == (if s.owner == None then 0 else |Stack(s, s.owner.value)|)
    && (s.owner != None ==> s.reentrance > 0)
  }

  /** The stream holds the header, every closed outermost record whole and in order, and the
      beginning of the one the owner is in. */
  ghost predicate StreamOk(s: State, ws: nat)
    requires WordSize(ws)
  {
    var closed := EncHeader(ws) + EncTrace(0, s.done, ws);
    if s.owner == None then
      s.out == closed && s.curThread == LastThread(0, s.done)
    else
      var t := s.owner.value;
      && Stack(s, t) != [] && FramesOk(Stack(s, t), ws)
      && s.out == closed + Partial(LastThread(0, s.done), t, Stack(s, t)[0], ws)
      && s.curThread == t
  }

  ghost predicate Inv(s: State, ws: nat) {
    && StateOk(s, ws) && Exclusive(s) && StreamOk(s, ws)
    && (forall t :: t in s.stacks ==> FramesOk(s.stacks[t], ws))
    && (forall i :: 0 <= i < |s.done| ==> s.done[i].thread < Pow256(ws))
    && (s.owner != None ==> s.owner.value < Pow256(ws))
  }

  lemma {:induction false} EncFieldsSnoc(fs: seq<Field>, k: nat, ws: nat)
    requires WordSize(ws) && k < |fs|
    ensures EncFields(fs[..k + 1], ws) == EncFields(fs[..k], ws) + Enc(fs[k], ws)
  {
    hide Enc;
    assert fs[..k + 1] == fs[..k] + [fs[k]];
    EncFieldsConcat(fs[..k], [fs[k]], ws);
    assert EncFields([fs[k]], ws) == Enc(fs[k], ws);
  }

  lemma EnterKeepsInv(s: State, step: Step, ws: nat)
    requires Inv(s, ws) && step.Enter? && Enabled(s, step, ws)
    ensures Inv(Apply(s, step, ws), ws)
  {
    EnterStream(s, step, ws);
    hide Record, Recordable, EncWord, Prefix, Pow256, StreamOk;
    assert Stack(Apply(s, step, ws), step.t)
        == Stack(s, step.t) + [Frame(step.call, Record(s.gl, step.call, ws), 0)];
  }

  lemma EnterStream(s: State, step: Step, ws: nat)
    requires Inv(s, ws) && step.Enter? && Enabled(s, step, ws)
    ensures StreamOk(Apply(s, step, ws), ws)
  {
    hide Record, Recordable, EncWord, EncFields, EncTrace, EncHeader, Prefix, Pow256, Partial, LastThread;
    var s' := Apply(s, step, ws);
    var t, call := step.t, step.call;
    var f := Frame(call, Record(s.gl, call, ws), 0);
    assert Stack(s', t) == Stack(s, t) + [f];
    if s.owner == None {
      assert Stack(s, t) == [];
      OpensRecord(LastThread(0, s.done), t, f, ws);
      Append(EncHeader(ws) + EncTrace(0, s.done, ws), Prefix(s.curThread, t, ws), EncWord(Opcode(call)));
    }
  }

  lemma OpensRecord(prev: long, t: long, f: Frame, ws: nat)
    requires WordSize(ws) && f.put == 0
    ensures Partial(prev, t, f, ws) == Prefix(prev, t, ws) + EncWord(Opcode(f.call))
  {
    hide EncWord, Prefix, Opcode;
    assert EncFields(f.fields[..0], ws) == [];
  }

  lemma GrowsRecord(prev: long, t: long, f: Frame, ws: nat)
    requires WordSize(ws) && f.put < |f.fields|
    ensures Partial(prev, t, f.(put := f.put + 1), ws) == Partial(prev, t, f, ws) + Enc(f.fields[f.put], ws)
  {
    hide EncWord, Enc, EncFields, Prefix, Opcode;
    EncFieldsSnoc(f.fields, f.put, ws);
  }

  lemma PutKeepsInv(s: State, step: Step, ws: nat)
    requires Inv(s, ws) && step.Put? && Enabled(s, step, ws)
    ensures Inv(Apply(s, step, ws), ws)
  {
    PutStream(s, step, ws);
    hide Recordable, Enc, Pow256, StreamOk;
  }

  lemma PutStream(s: State, step: Step, ws: nat)
    requires Inv(s, ws) && step.Put? && Enabled(s, step, ws)
    ensures StreamOk(Apply(s, step, ws), ws)
  {
    hide Recordable, Enc, EncWord, EncFields, EncTrace, EncHeader, Prefix, Pow256, Partial, LastThread;
    var s' := Apply(s, step, ws);
    var t, f := step.t, Top(s, step.t);
    assert s.owner == Some(t);
    if |Stack(s, t)| == 1 {
      var prev := LastThread(0, s.done);
      GrowsRecord(prev, t, f, ws);
      Append(EncHeader(ws) + EncTrace(0, s.done, ws), Partial(prev, t, f, ws), Enc(f.fields[f.put], ws));
    } else {
      assert Stack(s', t)[0] == Stack(s, t)[0];
    }
  }

  lemma LeaveKeepsInv(s: State, step: Step, ws: nat)
    requires Inv(s, ws) && step.Leave? && Enabled(s, step, ws)
    ensures Inv(Apply(s, step, ws), ws)
  {
    hide Recordable, AfterCall, EncWord, EncLong, EncFields, EncTrace, EncHeader, Prefix, Pow256;
    var s' := Apply(s, step, ws);
    var t, f := step.t, Top(s, step.t);
    assert s.owner == Some(t);
    assert Recordable(f.call, ws) by {
      assert f == s.stacks[t][|s.stacks[t]| - 1];
    }
    if |Stack(s, t)| == 1 {
      var e := Entry(t, f.call, f.fields, step.bgn, step.end);
      assert f.fields[..f.put] == f.fields;
      EntryLayout(LastThread(0, s.done), e, ws);
      EncTraceAppend(0, s.done, e, ws);
      var closed := EncHeader(ws) + EncTrace(0, s.done, ws);
      assert s'.out == closed + EncEntry(LastThread(0, s.done), e, ws);
      assert s'.done == s.done + [e];
    } else {
      assert Stack(s', t)[0] == Stack(s, t)[0];
    }
  }

  lemma StepKeepsInv(s: State, step: Step, ws: nat)
    requires Inv(s, ws) && Enabled(s, step, ws)
    ensures Inv(Apply(s, step, ws), ws)
  {
    match step
    case Enter(_, _) => EnterKeepsInv(s, step, ws);
    case Put(_) => PutKeepsInv(s, step, ws);
    case Leave(_, _, _) => LeaveKeepsInv(s, step, ws);
    case Commit(_) =>
      hide Recordable, AfterCall, EncWord, EncFields, EncTrace, EncHeader, Prefix, Pow256;
  }

  // ---------------------------------------------------------------- runs

  ghost predicate ValidRun(s: State, steps: seq<Step>, ws: nat)
    requires StateOk(s, ws)
    decreases |steps|
  {
    steps == [] ||
    (Enabled(s, steps[0], ws) && ValidRun(Apply(s, steps[0], ws), steps[1..], ws))
  }

  ghost function Run(s: State, steps: seq<Step>, ws: nat): State
    requires StateOk(s, ws) && ValidRun(s, steps, ws)
    decreases |steps|
  {
    if steps == [] then s else Run(Apply(s, steps[0], ws), steps[1..], ws)
  }

  lemma {:induction false} RunKeepsInv(s: State, steps: seq<Step>, ws: nat)
    requires Inv(s, ws) && ValidRun(s, steps, ws)
    ensures Inv(Run(s, steps, ws), ws)
    decreases |steps|
  {
    hide Apply, Enabled, StreamOk, Exclusive, StateOk;
    if steps != [] {
      StepKeepsInv(s, steps[0], ws);
      RunKeepsInv(Apply(s, steps[0], ws), steps[1..], ws);
    }
  }

  /** The lock protocol: in every interleaving the reentrancy counter is the owner's nesting depth,
      nobody else is inside a call, and the stream is a concatenation of whole outermost records,
      each by one thread and naming it exactly where it changes, plus the record in progress. */
  lemma LockProtocol(steps: seq<Step>, ws: nat)
    requires WordSize(ws) && ValidRun(Init(ws), steps, ws)
    ensures var s := Run(Init(ws), steps, ws); Exclusive(s) && StreamOk(s, ws)
  {
    hide ValidRun, Run, EncHeader;
    assert Inv(Init(ws), ws) by {
      assert EncHeader(ws) + EncTrace(0, [], ws) == EncHeader(ws);
    }
    RunKeepsInv(Init(ws), steps, ws);
  }
}
