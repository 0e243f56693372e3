/** Frame rates during replay: rings of 30 time stamps stand in for the whole history of frames, as it was
    recorded and, when the trace is executed, as it is replayed. */
module Fps {
  import opened Words

  const FRAMES: nat := 30
  const REPORT_INTERVAL: nat := 2_000_000_000

  /** The end of a frame: its recorded time, and the time it was replayed at. */
  datatype Stamp = Stamp(recorded: long, actual: long)

  /** A printed rate: `frames` frames in `span` nanoseconds (unsigned 64-bit differences); the actual span
      is printed only when the trace is executed. */
  datatype Rate = Rate(frames: nat, span: long, actual: Option<long>)

  function Minus(a: long, b: long): long {
    (a - b) % 0x1_0000_0000_0000_0000
  }

  function Plus(a: long, b: nat): long {
    (a + b) % 0x1_0000_0000_0000_0000
  }

  /** The rate over `frames` frames from one stamp to another. */
  function Between(frames: nat, from: Stamp, to: Stamp, exec: bool): Rate {
    Rate(frames, Minus(to.recorded, from.recorded), if exec then Some(Minus(to.actual, from.actual)) else None)
  }

  /** The rate over the last `FRAMES` frames, or over all of them, ending with frame `f` of a history. */
  function RateAt(history: seq<Stamp>, f: nat, exec: bool): Rate
    requires f < |history|
  {
    var frames := if f < FRAMES then f else FRAMES;
    Between(frames, history[f - frames], history[f], exec)
  }

  /** The time stamp frame `f` must exceed to be reported: one interval after the first frame, and one
      more for each report since. */
  function Due(history: seq<Stamp>, f: nat): long
    requires 0 < |history| && f <= |history|
  {
    if f == 0 then Plus(history[0].recorded, REPORT_INTERVAL)
    else
      var due := Due(history, f - 1);
      if history[f - 1].recorded > due then Plus(due, REPORT_INTERVAL) else due
  }

  /** What is printed at the end of frame `f` of a history. */
  function ReportAt(history: seq<Stamp>, f: nat, exec: bool): Option<Rate>
    requires f < |history|
  {
    if history[f].recorded > Due(history, f) then Some(RateAt(history, f, exec)) else None
  }

  /** Nothing that happens later changes it. */
  lemma ReportOfPrefix(history: seq<Stamp>, f: nat, exec: bool)
    requires f < |history|
    ensures ReportAt(history[..f + 1], f, exec) == ReportAt(history, f, exec)
  {
    hide Due, Between;
    assert history == history[..f + 1] + history[f + 1..];
    DueOfPrefix(history[..f + 1], history[f + 1..], f);
  }

  lemma {:induction false} DueOfPrefix(history: seq<Stamp>, more: seq<Stamp>, f: nat)
    requires 0 < |history| && f <= |history|
    ensures Due(history + more, f) == Due(history, f)
  {
    if f > 0 {
      DueOfPrefix(history, more, f - 1);
    }
  }

  class Meter {
    const exec: bool
    const recorded: array<long>
    const actual: array<long>
    var first: Stamp
    var nextReport: long
    var curFrame: nat
    ghost var history: seq<Stamp>

    /** A ring holds the last 30 stamps. */
    ghost predicate Ring()
      reads `curFrame, `history, recorded, actual
    {
      && recorded.Length == FRAMES && actual.Length == FRAMES && recorded != actual
      && curFrame == |history|
      && (forall i :: 0 <= i < curFrame && curFrame - FRAMES <= i ==> recorded[i % FRAMES] == history[i].recorded)
      && (exec ==> forall i :: 0 <= i < curFrame && curFrame - FRAMES <= i ==> actual[i % FRAMES] == history[i].actual)
    }

    ghost predicate Valid()
      reads this, recorded, actual
    {
      && Ring()
      && (curFrame > 0 ==> first.recorded == history[0].recorded && (exec ==> first.actual == history[0].actual))
      && (curFrame > 0 ==> nextReport == Due(history, curFrame))
    }

    constructor (execFlag: bool)
      ensures Valid() && fresh(recorded) && fresh(actual) && history == [] && exec == execFlag
    {
      exec := execFlag;
      recorded := new long[FRAMES](i => 0);
      actual := new long[FRAMES](i => 0);
      first, nextReport, curFrame, history := Stamp(0, 0), 0, 0, [];
    }

    /** The stamp of frame `f`, still in the rings. */
    method Lookup(f: nat) returns (stamp: Stamp)
      requires Ring() && f < curFrame && curFrame - FRAMES <= f
      ensures stamp.recorded == history[f].recorded && (exec ==> stamp.actual == history[f].actual)
    {
      var idx := f % FRAMES;
      stamp := Stamp(recorded[idx], actual[idx]);
    }

    /** The last statements of fps_newFrame: the stamp goes into its slot. */
    method Store(stamp: Stamp)
      requires Ring()
      modifies recorded, actual, `curFrame, `history
      ensures Ring() && history == old(history) + [stamp]
    {
      var idx := curFrame % FRAMES;
      recorded[idx] := stamp.recorded;
      if exec {
        actual[idx] := stamp.actual;
      }
      SlotsDiffer(curFrame);
      history := history + [stamp];
      curFrame := curFrame + 1;
    }

    /** A swapped frame: a rate is reported when the deadline has passed, and it is the rate over the
        last 30 frames of the whole history. */
    method NewFrame(stamp: Stamp) returns (report: Option<Rate>)
      requires Valid()
      modifies this, recorded, actual
      ensures Valid() && history == old(history) + [stamp]
      ensures report == ReportAt(history, |old(history)|, exec)
    {
      hide Plus, Minus, Ring;
      var frame := curFrame;
      assert frame == |history| by { FrameCount(); }
      if frame == 0 {
        first, nextReport := stamp, Plus(stamp.recorded, REPORT_INTERVAL);
      } else {
        DueOfPrefix(history, [stamp], frame);
      }
      report := None;
      if stamp.recorded > nextReport {
        var prev := first;
        var num := frame;
        if frame >= FRAMES {
          prev := Lookup(frame - FRAMES);
          num := FRAMES;
        }
        report := Some(Between(num, prev, stamp, exec));
        nextReport := Plus(nextReport, REPORT_INTERVAL);
      }
      Store(stamp);
      FrameCount();
      assert nextReport == Due(history, frame + 1);
      assert first.recorded == history[0].recorded;
    }

    lemma FrameCount()
      requires Ring()
      ensures curFrame == |history|
    {
    }

    /** The closing line: all frames, from the true first to the true last time stamp. */
    method Total() returns (total: Option<Rate>)
      requires Valid()
      ensures total == if |history| <= 1 then None
                       else Some(Between(|history| - 1, history[0], history[|history| - 1], exec))
    {
      var last := curFrame - 1;
      if last <= 0 {
        return None;
      }
      var stamp := Lookup(last);
      total := Some(Between(last, first, stamp, exec));
    }
  }

  /** Fewer than 30 frames apart, slots differ. */
  lemma SlotsDiffer(n: nat)
    ensures forall i :: n - FRAMES < i < n && 0 <= i ==> i % FRAMES != n % FRAMES
  {
  }

  /** The law for whole runs: the rates reported while the frames `stamps` pass through the rings are
      those of the full history, and so is the total. */
  method MeterRun(exec: bool, stamps: seq<Stamp>) returns (reports: seq<Option<Rate>>, total: Option<Rate>)
    ensures |reports| == |stamps|
    ensures forall f :: 0 <= f < |stamps| ==> reports[f] == ReportAt(stamps, f, exec)
    ensures total == if |stamps| <= 1 then None
                     else Some(Between(|stamps| - 1, stamps[0], stamps[|stamps| - 1], exec))
  {
    hide ReportAt, Meter.Valid, Between;
    var meter := new Meter(exec);
    reports := [];
    while |reports| < |stamps|
      invariant |reports| <= |stamps| && fresh(meter) && fresh(meter.recorded) && fresh(meter.actual)
      invariant meter.Valid() && meter.exec == exec && meter.history == stamps[..|reports|]
      invariant forall f :: 0 <= f < |reports| ==> reports[f] == ReportAt(stamps, f, exec)
      decreases |stamps| - |reports|
    {
      var f := |reports|;
      assert stamps[..f] + [stamps[f]] == stamps[..f + 1];
      ReportOfPrefix(stamps, f, exec);
      var report := meter.NewFrame(stamps[f]);
      reports := reports + [report];
    }
    assert stamps[..|stamps|] == stamps;
    total := meter.Total();
  }

  /** Differences of 64-bit stamps: ordinary ones as long as time goes on, and always undone by adding. */
  lemma SpanMeans(a: long, b: long)
    ensures b <= a ==> Minus(a, b) == a - b
    ensures Plus(b, Minus(a, b)) == a
  {
  }

  /** A rate is frames over time: the last thirty frames, or all there are, from the stamp in front of them
      to their last one. */
  lemma RateMeans(history: seq<Stamp>, f: nat, exec: bool)
    requires f < |history| && forall i, j :: 0 <= i <= j < |history| ==>
               history[i].recorded <= history[j].recorded && history[i].actual <= history[j].actual
    ensures var r, n := RateAt(history, f, exec), if f < 30 then f else 30;
            && r.frames == n && r.span == history[f].recorded - history[f - n].recorded
            && (r.actual == if exec then Some(history[f].actual - history[f - n].actual) else None)
  {
    hide Minus;
    var n := if f < 30 then f else 30;
    SpanMeans(history[f].recorded, history[f - n].recorded);
    SpanMeans(history[f].actual, history[f - n].actual);
  }

  /** The reports among the first `f` frames. */
  function Reports(history: seq<Stamp>, f: nat): nat
    requires f <= |history|
  {
    if f == 0 then 0
    else Reports(history, f - 1) + if ReportAt(history, f - 1, false) != None then 1 else 0
  }

  /** The n-th report comes n times two seconds after the first frame, at the earliest. */
  lemma {:induction false} DueMeans(history: seq<Stamp>, f: nat)
    requires 0 < |history| && f <= |history|
    requires history[0].recorded + 2_000_000_000 * (|history| + 1) < 0x1_0000_0000_0000_0000
    ensures Due(history, f) == history[0].recorded + 2_000_000_000 * (1 + Reports(history, f))
    ensures Reports(history, f) <= f
    ensures f < |history| ==>
              (ReportAt(history, f, false) != None
               <==> history[f].recorded - history[0].recorded > 2_000_000_000 * (1 + Reports(history, f)))
  {
    hide RateAt;
    if f > 0 {
      DueMeans(history, f - 1);
    }
  }
}
