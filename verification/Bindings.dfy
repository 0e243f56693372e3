/** What the tracked state means: every binding and every enabled attribute is what the latest recorded call
    for it said, and that decides the fields of a draw record. */
module Bindings {
  import opened Words
  import opened Fields
  import opened Commands
  import opened Replay
  import opened Trace
  import opened Recorder
  import opened Sync

  // ---------------------------------------------------------------- looking back

  /** glBindBuffer(target, buffer). */
  predicate Binds(c: Call, target: word) {
    c.Plain? && c.op == 103 && |c.args| == 2 && c.args[0] == FInt(target) && c.args[1].FInt?
  }

  /** The buffer bound to a target by the latest call that binds one; none at the beginning. */
  function Latest(cs: seq<Call>, target: word): word
    decreases |cs|
  {
    if cs == [] then 0 else
    var c := cs[|cs| - 1];
    if Binds(c, target) then c.args[1].w else Latest(cs[..|cs| - 1], target)
  }

  /** glEnableVertexAttribArray(i) or glDisableVertexAttribArray(i). */
  predicate Switches(c: Call, i: word) {
    c.Plain? && (c.op == 143 || c.op == 139) && |c.args| == 1 && c.args[0] == FInt(i)
  }

  /** Whether the latest of those calls was the first of them. */
  function On(cs: seq<Call>, i: word): bool
    decreases |cs|
  {
    if cs == [] then false else
    var c := cs[|cs| - 1];
    if Switches(c, i) then c.op == 143 else On(cs[..|cs| - 1], i)
  }

  function CallsOf(es: seq<Entry>): (cs: seq<Call>)
    ensures |cs| == |es| && forall i :: 0 <= i < |cs| ==> cs[i] == es[i].call
  {
    seq(|es|, i requires 0 <= i < |es| => es[i].call)
  }

  // ---------------------------------------------------------------- following the calls

  ghost predicate AllRecordable(cs: seq<Call>, ws: nat) {
    forall i :: 0 <= i < |cs| ==> Recordable(cs[i], ws)
  }

  /** The state after any calls, whatever their records look like. */
  ghost function Followed(cs: seq<Call>, ws: nat): (st: Tracked)
    requires AllRecordable(cs, ws)
    ensures st.Valid()
    decreases |cs|
  {
    if cs == [] then Initially() else AfterCall(Followed(cs[..|cs| - 1], ws), cs[|cs| - 1], ws)
  }

  lemma SwitchArgs(c: Call, ws: nat)
    requires c.Plain? && Recordable(c, ws) && (c.op == OPC_ENABLE_ATTRIB || c.op == OPC_DISABLE_ATTRIB)
    ensures |c.args| == 1 && c.args[0].FInt? && c.args[0].w < MAX_VERTEX_ATTRIBS
  {
    hide AllWellFormed;
    IntArgs(c.args, 1);
  }

  lemma BindArgs(c: Call, ws: nat)
    requires c.Plain? && Recordable(c, ws) && c.op == OPC_BIND_BUFFER
    ensures |c.args| == 2 && c.args[0].FInt? && c.args[1].FInt?
  {
    hide AllWellFormed;
    IntArgs(c.args, 2);
  }

  lemma StepMeans(st: Tracked, c: Call, ws: nat)
    requires st.Valid() && Recordable(c, ws)
    ensures var st' := AfterCall(st, c, ws);
            && st'.arrayBuffer == (if Binds(c, 0x8892) then c.args[1].w else st.arrayBuffer)
            && st'.elementBuffer == (if Binds(c, 0x8893) then c.args[1].w else st.elementBuffer)
            && forall i :: 0 <= i < 128 ==> st'.enabled[i] == (if Switches(c, i) then c.op == 143 else st.enabled[i])
  {
    if c.Plain? && c.op == OPC_BIND_BUFFER {
      BindArgs(c, ws);
    } else if c.Plain? && (c.op == OPC_ENABLE_ATTRIB || c.op == OPC_DISABLE_ATTRIB) {
      SwitchArgs(c, ws);
    }
    hide Recordable;
  }

  /** The meaning of the tracked state: what the latest call for each target and each attribute said. */
  lemma {:induction false} StateIsLatest(cs: seq<Call>, ws: nat)
    requires AllRecordable(cs, ws)
    ensures Followed(cs, ws).arrayBuffer == Latest(cs, 0x8892)
    ensures Followed(cs, ws).elementBuffer == Latest(cs, 0x8893)
    ensures forall i :: 0 <= i < 128 ==> Followed(cs, ws).enabled[i] == On(cs, i)
    decreases |cs|
  {
    hide Recordable, AfterCall, Binds, Switches;
    if cs != [] {
      var front := cs[..|cs| - 1];
      StateIsLatest(front, ws);
      StepMeans(Followed(front, ws), cs[|cs| - 1], ws);
    }
  }

  lemma {:induction false} FollowedIsTracked(es: seq<Entry>, ws: nat)
    requires WordSize(ws) && Recorded(Initially(), es, ws)
    ensures AllRecordable(CallsOf(es), ws) && StateAfter(Initially(), es, ws) == Followed(CallsOf(es), ws)
    decreases |es|
  {
    hide Recordable, AfterCall, Record, Replayable, Initially;
    if es != [] {
      var front, e := es[..|es| - 1], es[|es| - 1];
      assert es == front + [e];
      RecordedFront(Initially(), front, e, ws);
      FollowedIsTracked(front, ws);
      hide Recorded, StateAfter, Followed;
      RecordedAppend(Initially(), front, e, ws);
      FollowedSnoc(CallsOf(front), e.call, ws);
      assert CallsOf(es) == CallsOf(front) + [e.call];
    }
  }

  lemma FollowedSnoc(cs: seq<Call>, c: Call, ws: nat)
    requires AllRecordable(cs, ws) && Recordable(c, ws)
    ensures AllRecordable(cs + [c], ws) && Followed(cs + [c], ws) == AfterCall(Followed(cs, ws), c, ws)
  {
    hide Recordable, AfterCall;
    assert (cs + [c])[..|cs|] == cs;
  }

  lemma {:induction false} RecordedFront(st: Tracked, es: seq<Entry>, e: Entry, ws: nat)
    requires st.Valid() && Recorded(st, es + [e], ws)
    ensures Recorded(st, es, ws) && e.thread < Pow256(ws) && Recordable(e.call, ws) && Replayable(e.call)
    ensures e.fields == Record(StateAfter(st, es, ws), e.call, ws)
    decreases |es|
  {
    hide Recordable, AfterCall, Record, Replayable;
    if es == [] {
      assert es + [e] == [e];
    } else {
      assert (es + [e])[1..] == es[1..] + [e];
      RecordedFront(AfterCall(st, es[0].call, ws), es[1..], e, ws);
    }
  }

  /** The same for what tracer and replayer track in a recording. */
  lemma TrackedIsLatest(es: seq<Entry>, ws: nat)
    requires WordSize(ws) && Recorded(Initially(), es, ws)
    ensures var st := StateAfter(Initially(), es, ws);
            && st.arrayBuffer == Latest(CallsOf(es), 0x8892) && st.elementBuffer == Latest(CallsOf(es), 0x8893)
            && forall i :: 0 <= i < 128 ==> st.enabled[i] == On(CallsOf(es), i)
  {
    FollowedIsTracked(es, ws);
    StateIsLatest(CallsOf(es), ws);
  }

  // ---------------------------------------------------------------- the tracer's own state

  /** What a step of the recorder puts into effect: a call that ends, nested or not, but a binding only when
      it is stored. */
  function Effect(s: State, step: Step, ws: nat): (cs: seq<Call>)
    requires StateOk(s, ws) && Enabled(s, step, ws)
    ensures AllRecordable(cs, ws)
  {
    match step
    case Leave(t, _, _) =>
      var c := Top(s, t).call;
      if c.Plain? && c.op == 103 then [] else [c]
    case Commit(t) => [s.late[t]]
    case Enter(_, _) => []
    case Put(_) => []
  }

  ghost function Effects(s: State, steps: seq<Step>, ws: nat): (cs: seq<Call>)
    requires StateOk(s, ws) && ValidRun(s, steps, ws)
    ensures AllRecordable(cs, ws)
    decreases |steps|
  {
    if steps == [] then [] else Effect(s, steps[0], ws) + Effects(Apply(s, steps[0], ws), steps[1..], ws)
  }

  lemma StepFollows(s: State, past: seq<Call>, step: Step, ws: nat)
    requires StateOk(s, ws) && Enabled(s, step, ws) && AllRecordable(past, ws) && s.gl == Followed(past, ws)
    ensures AllRecordable(past + Effect(s, step, ws), ws)
    ensures Apply(s, step, ws).gl == Followed(past + Effect(s, step, ws), ws)
  {
    hide Followed, AfterCall, Recordable, Record, EncWord, EncLong, Enc, Prefix;
    var cs := Effect(s, step, ws);
    if cs == [] {
      assert past + cs == past;
    } else {
      FollowedSnoc(past, cs[0], ws);
      assert cs == [cs[0]];
    }
  }

  lemma {:induction false} TracerFollows(s: State, past: seq<Call>, steps: seq<Step>, ws: nat)
    requires StateOk(s, ws) && ValidRun(s, steps, ws) && AllRecordable(past, ws) && s.gl == Followed(past, ws)
    ensures AllRecordable(past + Effects(s, steps, ws), ws)
    ensures Run(s, steps, ws).gl == Followed(past + Effects(s, steps, ws), ws)
    decreases |steps|
  {
    hide Followed, Apply, Enabled, Effect, StateOk, Recordable;
    if steps == [] {
      assert past + [] == past;
    } else {
      var first, s1 := Effect(s, steps[0], ws), Apply(s, steps[0], ws);
      StepFollows(s, past, steps[0], ws);
      TracerFollows(s1, past + first, steps[1..], ws);
      assert past + (first + Effects(s1, steps[1..], ws)) == past + first + Effects(s1, steps[1..], ws);
    }
  }

  /** In every run of the recorder, disciplined or not, the tracer's state is what took effect last. */
  lemma TracerIsLatest(steps: seq<Step>, ws: nat)
    requires WordSize(ws) && StateOk(Init(ws), ws) && ValidRun(Init(ws), steps, ws)
    ensures var st, cs := Run(Init(ws), steps, ws).gl, Effects(Init(ws), steps, ws);
            && st.Valid() && st.arrayBuffer == Latest(cs, 0x8892) && st.elementBuffer == Latest(cs, 0x8893)
            && forall i :: 0 <= i < 128 ==> st.enabled[i] == On(cs, i)
  {
    assert Init(ws).gl == Followed([], ws);
    hide Init, ValidRun, Run, Effects, Followed, StateOk;
    TracerFollows(Init(ws), [], steps, ws);
    assert [] + Effects(Init(ws), steps, ws) == Effects(Init(ws), steps, ws);
    StateIsLatest(Effects(Init(ws), steps, ws), ws);
  }

  // ---------------------------------------------------------------- draw records

  /** The attributes that are on. */
  function Arrays(cs: seq<Call>): set<int> {
    set i | 0 <= i < 128 && On(cs, i)
  }

  predicate OnAt(enabled: seq<bool>, k: int, i: int) {
    0 <= i - k < |enabled| && enabled[i - k]
  }

  /** The set bits of a part that begins at index `k`. */
  function OnesOf(enabled: seq<bool>, k: int): set<int> {
    set i | k <= i < k + |enabled| && OnAt(enabled, k, i)
  }

  lemma {:induction false} ArrayCount(enabled: seq<bool>, packed: seq<seq<byte>>, k: int)
    requires |enabled| == |packed| && forall i :: 0 <= i < |packed| ==> |packed[i]| < 0x8000_0000
    ensures |ArrayFields(enabled, packed)| == |OnesOf(enabled, k)|
    decreases |enabled|
  {
    if enabled == [] {
      assert OnesOf(enabled, k) == {};
    } else {
      var tail := enabled[1..];
      ArrayCount(tail, packed[1..], k + 1);
      forall i
        ensures i in OnesOf(enabled, k) <==> (i == k && enabled[0]) || i in OnesOf(tail, k + 1)
      {
        if k < i < k + |enabled| {
          assert tail[i - (k + 1)] == enabled[i - k];
        }
      }
      assert OnesOf(enabled, k) == if enabled[0] then {k} + OnesOf(tail, k + 1) else OnesOf(tail, k + 1);
      assert k !in OnesOf(tail, k + 1);
    }
  }

  /** The draw law: in any recording the record of a draw holds mode, count and type; the indices as an
      address if an element buffer is bound and as a block if not; and one block for each attribute
      that is on, unless an array buffer is bound. */
  lemma DrawFields(es: seq<Entry>, e: Entry, ws: nat)
    requires WordSize(ws) && Recorded(Initially(), es + [e], ws) && e.call.DrawElements?
    ensures var cs := CallsOf(es);
            var n := if Latest(cs, 0x8892) == 0 then |Arrays(cs)| else 0;
            && |e.fields| == 4 + n && e.fields[..3] == [FInt(e.call.mode), FInt(e.call.count), FInt(e.call.typ)]
            && e.fields[3] == (if Latest(cs, 0x8893) != 0 then FPtr(e.call.indices)
                               else FBytes(e.call.indexSize, e.call.indexData))
            && forall i :: 4 <= i < 4 + n ==> e.fields[i].FBytes?
  {
    RecordedFront(Initially(), es, e, ws);
    TrackedIsLatest(es, ws);
    hide Recorded, StateAfter, Latest, On;
    var st, packed := StateAfter(Initially(), es, ws), e.call.packed;
    ArrayCount(st.enabled, packed, 0);
    ArraysAreBlocks(st.enabled, packed);
    assert Arrays(CallsOf(es)) == OnesOf(st.enabled, 0);
    hide ArrayFields;
  }

  lemma {:induction false} ArraysAreBlocks(enabled: seq<bool>, packed: seq<seq<byte>>)
    requires |enabled| == |packed| && forall i :: 0 <= i < |packed| ==> |packed[i]| < 0x8000_0000
    ensures forall i :: 0 <= i < |ArrayFields(enabled, packed)| ==> ArrayFields(enabled, packed)[i].FBytes?
  {
    if enabled != [] {
      ArraysAreBlocks(enabled[1..], packed[1..]);
    }
  }
}
