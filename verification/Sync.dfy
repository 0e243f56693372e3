/** Why the replayer can parse records whose shape depends on GL state it only infers: in every
    orderly run it tracks what the tracer tracked, so whole concurrent recordings decode. */
module Sync {
  import opened Words
  import opened Fields
  import opened Commands
  import opened Replay
  import opened Trace
  import opened Recorder

  /** The discipline: an outermost call starts only when no binding waits to be stored, nested calls
      do not change the tracked state, and recorded calls pass the replayer's guards. */
  predicate Orderly(s: State, step: Step) {
    step.Enter? ==>
      if Stack(s, step.t) == [] then s.late == map[] && Replayable(step.call) else !Tracking(step.call)
  }

  ghost predicate OrderlyRun(s: State, steps: seq<Step>, ws: nat)
    requires StateOk(s, ws) && ValidRun(s, steps, ws)
    decreases |steps|
  {
    steps == [] ||
    (Orderly(s, steps[0]) && OrderlyRun(Apply(s, steps[0], ws), steps[1..], ws))
  }

  /** The state a replayer tracks once it has read every closed record. */
  ghost function Replayed(s: State, ws: nat): (st: Tracked)
    requires Recorded(Initially(), s.done, ws)
    ensures st.Valid()
  {
    StateAfter(Initially(), s.done, ws)
  }

  ghost predicate Settling(s: State, now: Tracked, ws: nat)
    requires StateOk(s, ws)
  {
    && (s.late == map[] ==> s.gl == now)
    && (s.late != map[] ==> s.owner == None)
    && (forall t :: t in s.late ==> s.late.Keys == {t} && AfterCall(s.gl, s.late[t], ws) == now)
  }

  ghost predicate OwnerInSync(s: State, now: Tracked, ws: nat)
    requires StateOk(s, ws) && now.Valid()
  {
    s.owner != None ==>
      var stack := Stack(s, s.owner.value);
      && stack != [] && Recordable(stack[0].call, ws) && Replayable(stack[0].call)
      && stack[0].fields == Record(now, stack[0].call, ws)
      && forall i :: 1 <= i < |stack| ==> !Tracking(stack[i].call)
  }

  /** At every point of an orderly run: the tracer's state is the replayer's, but for a binding on
      its way, and the open record has the shape the replayer will expect. */
  ghost predicate InSync(s: State, ws: nat) {
    && Inv(s, ws) && Recorded(Initially(), s.done, ws)
    && Settling(s, Replayed(s, ws), ws) && OwnerInSync(s, Replayed(s, ws), ws)
  }

  lemma {:induction false} RecordedAppend(st: Tracked, es: seq<Entry>, e: Entry, ws: nat)
    requires st.Valid() && Recorded(st, es, ws)
    requires e.thread < Pow256(ws) && Recordable(e.call, ws) && Replayable(e.call)
    requires e.fields == Record(StateAfter(st, es, ws), e.call, ws)
    ensures Recorded(st, es + [e], ws)
    ensures StateAfter(st, es + [e], ws) == AfterCall(StateAfter(st, es, ws), e.call, ws)
    decreases |es|
  {
    hide Record, Recordable, Replayable, AfterCall, Pow256;
    if es == [] {
      assert es + [e] == [e];
    } else {
      assert (es + [e])[1..] == es[1..] + [e];
      RecordedAppend(AfterCall(st, es[0].call, ws), es[1..], e, ws);
    }
  }

  lemma UntrackedCalls(st: Tracked, c: Call, ws: nat)
    requires st.Valid() && Recordable(c, ws) && !Tracking(c)
    ensures AfterCall(st, c, ws) == st && !IsBind(c)
  {
    hide Recordable;
  }

  lemma EnterKeepsSync(s: State, step: Step, ws: nat)
    requires InSync(s, ws) && step.Enter? && Enabled(s, step, ws) && Orderly(s, step)
    ensures InSync(Apply(s, step, ws), ws)
  {
    StepKeepsInv(s, step, ws);
    hide Record, Recordable, Replayable, AfterCall, Recorded, StateAfter, Initially, FramesOk, StreamOk, Pow256, EncWord, Prefix;
    var s' := Apply(s, step, ws);
    assert Stack(s', step.t) == Stack(s, step.t) + [Frame(step.call, Record(s.gl, step.call, ws), 0)];
    assert s'.done == s.done && s'.gl == s.gl && s'.late == s.late;
  }

  lemma PutKeepsSync(s: State, step: Step, ws: nat)
    requires InSync(s, ws) && step.Put? && Enabled(s, step, ws)
    ensures InSync(Apply(s, step, ws), ws)
  {
    StepKeepsInv(s, step, ws);
    hide Record, Recordable, Replayable, AfterCall, Recorded, StateAfter, Initially, FramesOk, StreamOk, Pow256, Enc;
    var s' := Apply(s, step, ws);
    var f := Top(s, step.t);
    var rest := Stack(s, step.t)[..|Stack(s, step.t)| - 1];
    assert Stack(s', step.t) == rest + [f.(put := f.put + 1)];
    assert s'.done == s.done && s'.gl == s.gl && s'.late == s.late;
  }

  lemma LeaveNestedKeepsSync(s: State, step: Step, ws: nat)
    requires InSync(s, ws) && step.Leave? && Enabled(s, step, ws) && |Stack(s, step.t)| > 1
    ensures InSync(Apply(s, step, ws), ws)
  {
    StepKeepsInv(s, step, ws);
    var f := Top(s, step.t);
    assert s.owner == Some(step.t);
    UntrackedCalls(s.gl, f.call, ws);
    hide Record, Recordable, Replayable, AfterCall, Recorded, StreamOk, Pow256, EncLong;
    var s' := Apply(s, step, ws);
    assert Stack(s', step.t) == Stack(s, step.t)[..|Stack(s, step.t)| - 1];
    assert s'.done == s.done && s'.gl == s.gl && s'.late == s.late && s'.owner == s.owner;
  }

  /** Closing an outermost record: the lock is free again and only a binding is still on its way. */
  lemma LeaveEffect(s: State, step: Step, ws: nat)
    requires Inv(s, ws) && step.Leave? && Enabled(s, step, ws) && |Stack(s, step.t)| == 1
    ensures s.owner == Some(step.t) && Stack(s, step.t) == [Top(s, step.t)]
    ensures var f, s' := Top(s, step.t), Apply(s, step, ws);
            && Recordable(f.call, ws) && step.t < Pow256(ws)
            && s'.done == s.done + [Entry(step.t, f.call, f.fields, step.bgn, step.end)] && s'.owner == None
            && s'.gl == (if IsBind(f.call) then s.gl else AfterCall(s.gl, f.call, ws))
            && s'.late == (if IsBind(f.call) then s.late[step.t := f.call] else s.late)
  {
    hide Record, Recordable, AfterCall, StreamOk, Pow256, EncLong, Emit, IsBind;
  }

  lemma OpenRecordInSync(s: State, ws: nat)
    requires InSync(s, ws) && s.owner != None && |Stack(s, s.owner.value)| == 1
    ensures var f := Top(s, s.owner.value);
            && s.late == map[] && s.gl == Replayed(s, ws)
            && Recordable(f.call, ws) && Replayable(f.call) && f.fields == Record(s.gl, f.call, ws)
  {
    hide Record, Recordable, Replayable, AfterCall, Recorded, StreamOk, Exclusive;
  }

  lemma ClosedInSync(s: State, before: Tracked, t: long, c: Call, ws: nat)
    requires StateOk(s, ws) && before.Valid() && Recordable(c, ws) && s.owner == None
    requires s.gl == if IsBind(c) then before else AfterCall(before, c, ws)
    requires s.late == if IsBind(c) then map[t := c] else map[]
    ensures Settling(s, AfterCall(before, c, ws), ws) && OwnerInSync(s, AfterCall(before, c, ws), ws)
  {
    hide StateOk, Recordable, AfterCall, IsBind;
    assert IsBind(c) ==> t in s.late;
  }

  lemma LeaveKeepsSync(s: State, step: Step, ws: nat)
    requires InSync(s, ws) && step.Leave? && Enabled(s, step, ws) && |Stack(s, step.t)| == 1
    ensures InSync(Apply(s, step, ws), ws)
  {
    hide Record, Recordable, Replayable, AfterCall, Recorded, StreamOk, Exclusive, Apply, Enabled, Settling;
    hide OwnerInSync, IsBind, Stack, Top, Pow256, Initially, FramesOk;
    StepKeepsInv(s, step, ws);
    LeaveEffect(s, step, ws);
    OpenRecordInSync(s, ws);
    var f := Top(s, step.t);
    RecordedAppend(Initially(), s.done, Entry(step.t, f.call, f.fields, step.bgn, step.end), ws);
    ClosedInSync(Apply(s, step, ws), s.gl, step.t, f.call, ws);
  }

  lemma CommitKeepsSync(s: State, step: Step, ws: nat)
    requires InSync(s, ws) && step.Commit? && Enabled(s, step, ws)
    ensures InSync(Apply(s, step, ws), ws)
  {
    StepKeepsInv(s, step, ws);
    hide Record, Recordable, Replayable, AfterCall, Recorded, StreamOk, Pow256;
    assert s.late.Keys == {step.t};
    assert (s.late - {step.t}).Keys == {};
    assert s.late - {step.t} == map[];
  }

  lemma StepKeepsSync(s: State, step: Step, ws: nat)
    requires InSync(s, ws) && Enabled(s, step, ws) && Orderly(s, step)
    ensures InSync(Apply(s, step, ws), ws)
  {
    hide InSync, Apply;
    match step
    case Enter(_, _) => EnterKeepsSync(s, step, ws);
    case Put(_) => PutKeepsSync(s, step, ws);
    case Leave(t, _, _) =>
      if |Stack(s, t)| == 1 {
        LeaveKeepsSync(s, step, ws);
      } else {
        LeaveNestedKeepsSync(s, step, ws);
      }
    case Commit(_) => CommitKeepsSync(s, step, ws);
  }

  lemma {:induction false} RunKeepsSync(s: State, steps: seq<Step>, ws: nat)
    requires InSync(s, ws) && ValidRun(s, steps, ws) && OrderlyRun(s, steps, ws)
    ensures InSync(Run(s, steps, ws), ws)
    decreases |steps|
  {
    hide Apply, Enabled, StreamOk, Exclusive, StateOk, Orderly, Settling, OwnerInSync, Recorded;
    if steps != [] {
      StepKeepsSync(s, steps[0], ws);
      RunKeepsSync(Apply(s, steps[0], ws), steps[1..], ws);
    }
  }

  lemma InitInSync(ws: nat)
    requires WordSize(ws)
    ensures InSync(Init(ws), ws)
  {
    hide EncHeader, Initially;
    assert EncHeader(ws) + EncTrace(0, [], ws) == EncHeader(ws);
  }

  /** The end-to-end law: record any orderly interleaving of any threads, stop at a record boundary
      with or without truncating the file, and the replayer decodes exactly the closed outermost
      calls: same order, threads, opcodes, arguments and times. It ends up tracking what the tracer
      tracks, once the last binding is stored. */
  lemma RecordingDecodes(steps: seq<Step>, tail: nat, ws: nat)
    requires WordSize(ws) && ValidRun(Init(ws), steps, ws) && OrderlyRun(Init(ws), steps, ws)
    requires Run(Init(ws), steps, ws).owner == None
    ensures var s := Run(Init(ws), steps, ws);
            && EntriesWellFormed(s.done, ws)
            && DecodeFile(s.out + Zeros(tail)) == Some(Items(s.done, ws))
            && Recorded(Initially(), s.done, ws)
            && (s.late == map[] ==> Replayed(s, ws) == s.gl)
  {
    hide ValidRun, OrderlyRun, Run, Recorded, DecodeFile, Items, EncTrace, EncHeader, EntriesWellFormed, Init;
    InitInSync(ws);
    RunKeepsSync(Init(ws), steps, ws);
    var s := Run(Init(ws), steps, ws);
    FileRoundTrip(s.done, tail, ws);
  }
}
