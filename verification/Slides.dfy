/** What a slide show does, step by step: the index over the files, the window of three loaders around it,
    and the picture on display. Loaders run and report whenever they like; the laws say what is seen. */
module Slides {
  import opened Arithmetic
  import opened Words

  // ---------------------------------------------------------------- the index

  /** One file forward or back; none at the end of a list that does not loop. */
  function Ahead(n: nat, loop: bool, i: nat): (r: Option<nat>)
    requires i < n
    ensures r.Some? ==> r.value < n
  {
    if i + 1 < n then Some(i + 1) else if loop then Some(0) else None
  }

  function Behind(n: nat, loop: bool, i: nat): (r: Option<nat>)
    requires i < n
    ensures r.Some? ==> r.value < n
  {
    if i > 0 then Some(i - 1) else if loop then Some(n - 1) else None
  }

  /** Forward and back undo each other. */
  lemma AheadBehind(n: nat, loop: bool, i: nat, j: nat)
    requires i < n && j < n
    ensures Ahead(n, loop, i) == Some(j) <==> Behind(n, loop, j) == Some(i)
  {
  }

  // ---------------------------------------------------------------- the machine

  datatype Setting = Setting(count: nat, loop: bool, save: bool)

  function To(c: Setting, i: nat, forward: bool): (r: Option<nat>)
    requires i < c.count
    ensures r.Some? ==> r.value < c.count
  {
    if forward then Ahead(c.count, c.loop, i) else Behind(c.count, c.loop, i)
  }

  /** A loading task; `done` also holds of a cancelled one. */
  datatype Loader = Loader(file: nat, running: bool, done: bool, cancelled: bool, succeeded: bool)

  /** The loaders ever made, which of them are in the window, the file whose picture the view was given
      last, and whether the busy indicator is up. */
  datatype State = State(index: nat, loaders: seq<Loader>, window: seq<Option<nat>>, shown: Option<nat>, busy: bool)

  const CURRENT := 0
  const NEXT := 1
  const PREV := 2

  function Fresh(file: nat): Loader {
    Loader(file, false, false, false, false)
  }

  /** A loader that is done is not cancelled any more. */
  function Cancelled(l: Loader): Loader {
    if l.done then l else l.(running := false, done := true, cancelled := true)
  }

  predicate InRange(slot: Option<nat>, n: nat) {
    slot.Some? ==> slot.value < n
  }

  /** Every slot names a loader. */
  predicate WindowOk(s: State) {
    |s.window| == 3 && forall i :: 0 <= i < 3 ==> InRange(s.window[i], |s.loaders|)
  }

  /** The side a move leads to and the side it comes from. */
  predicate Sides(far: nat, near: nat) {
    {far, near} == {NEXT, PREV}
  }

  function Drop(loaders: seq<Loader>, slot: Option<nat>): (r: seq<Loader>)
    requires InRange(slot, |loaders|)
    ensures |r| == |loaders|
  {
    if slot.Some? && loaders[slot.value].running then loaders[slot.value := Cancelled(loaders[slot.value])]
    else loaders
  }

  /** Drop the loader on the near side, keep or drop the current one, and take the one on the far side. */
  function Shift(c: Setting, s: State, far: nat, near: nat): (s': State)
    requires WindowOk(s) && Sides(far, near)
    ensures WindowOk(s') && s'.index == s.index
  {
    var loaders := Drop(s.loaders, s.window[near]);
    var window := s.window[near := if c.save then s.window[CURRENT] else None];
    s.(loaders := if c.save then loaders else Drop(loaders, s.window[CURRENT]),
       window := window[CURRENT := s.window[far]][far := None])
  }

  /** A new loader for an empty current slot; a picture that is there is shown. */
  function FillCurrent(s: State): (s': State)
    requires WindowOk(s)
    ensures WindowOk(s') && s'.window[CURRENT].Some? && s'.index == s.index
  {
    match s.window[CURRENT]
    case None =>
      s.(loaders := s.loaders + [Fresh(s.index)], window := s.window[CURRENT := Some(|s.loaders|)], busy := true)
    case Some(k) =>
      if s.loaders[k].done then s.(shown := Some(s.loaders[k].file), busy := false) else s.(busy := true)
  }

  function Prefetch(s: State, far: nat, file: Option<nat>): (s': State)
    requires WindowOk(s) && 0 < far < 3
    ensures WindowOk(s') && s'.index == s.index
  {
    if file == None then s
    else s.(loaders := s.loaders + [Fresh(file.value)], window := s.window[far := Some(|s.loaders|)])
  }

  function AfterMove(c: Setting, s: State, forward: bool): State
    requires Inv(c, s)
  {
    var to := To(c, s.index, forward);
    if to == None then s else
    var far, near := if forward then NEXT else PREV, if forward then PREV else NEXT;
    var s1 := FillCurrent(Shift(c, s.(index := to.value), far, near));
    Prefetch(s1, far, To(c, to.value, forward))
  }

  function AfterProgress(s: State, k: nat, finished: bool): State
    requires k < |s.loaders|
  {
    var l := s.loaders[k];
    if l.done then s else s.(loaders := s.loaders[k := l.(running := true, done := finished)])
  }

  /** Only a loader that is done reports; the success of the current one is shown. */
  function AfterReport(s: State, k: nat, ok: bool): State
    requires WindowOk(s) && k < |s.loaders|
  {
    var l := s.loaders[k];
    if !l.done || l.cancelled then s else
    var s1 := s.(loaders := s.loaders[k := l.(running := false, succeeded := l.succeeded || ok)]);
    if ok && s.window[CURRENT] == Some(k) then s1.(shown := Some(l.file), busy := false) else s1
  }

  /** A move, or something that happens to the k-th loader made. */
  datatype Event =
    | Move(forward: bool)
    | Progressed(k: nat, finished: bool)
    | Reported(k: nat, ok: bool)

  function Happen(c: Setting, s: State, e: Event): (s': State)
    requires Inv(c, s)
    ensures Inv(c, s')
  {
    StepKeepsInv(c, s, e);
    Result(c, s, e)
  }

  function Result(c: Setting, s: State, e: Event): State
    requires Inv(c, s)
  {
    match e
    case Move(forward) => AfterMove(c, s, forward)
    case Progressed(k, finished) => if k < |s.loaders| then AfterProgress(s, k, finished) else s
    case Reported(k, ok) => if k < |s.loaders| then AfterReport(s, k, ok) else s
  }

  /** The beginning: a loader for the first file and, if there is one, for the next. */
  function Start(c: Setting): (s: State)
    requires c.count > 0
    ensures Inv(c, s)
  {
    Prefetch(State(0, [Fresh(0)], [Some(0), None, None], None, true), NEXT, To(c, 0, true))
  }

  function Run(c: Setting, s: State, events: seq<Event>): (s': State)
    requires Inv(c, s)
    ensures Inv(c, s')
    decreases |events|
  {
    if events == [] then s else Run(c, Happen(c, s, events[0]), events[1..])
  }

  // ---------------------------------------------------------------- what every step keeps

  /** Slots hold different loaders, none of them cancelled. */
  predicate Clean(s: State) {
    && WindowOk(s)
    && (forall i, j :: 0 <= i < j < 3 && s.window[i].Some? ==> s.window[i] != s.window[j])
    && (forall i :: 0 <= i < 3 && s.window[i].Some? ==> !s.loaders[s.window[i].value].cancelled)
    && (forall k :: 0 <= k < |s.loaders| && s.loaders[k].succeeded ==> s.loaders[k].done)
  }

  /** A slot is empty or its loader is for this file. */
  predicate Loads(s: State, slot: nat, file: Option<nat>)
    requires WindowOk(s) && slot < 3
  {
    s.window[slot].Some? ==> file == Some(s.loaders[s.window[slot].value].file)
  }

  function Current(s: State): Loader
    requires WindowOk(s) && s.window[CURRENT].Some?
  {
    s.loaders[s.window[CURRENT].value]
  }

  /** Unless the busy indicator is up, the view shows the current file; and it is not up once the current
      loader has succeeded. */
  predicate Display(s: State)
    requires WindowOk(s) && s.window[CURRENT].Some?
  {
    (!s.busy ==> s.shown == Some(s.index)) && (s.busy ==> !Current(s).succeeded)
  }

  /** The current loader loads the current file, and prefetched ones its neighbours. */
  predicate Inv(c: Setting, s: State) {
    && s.index < c.count && Clean(s) && s.window[CURRENT].Some? && Display(s)
    && Loads(s, CURRENT, Some(s.index)) && Loads(s, NEXT, To(c, s.index, true))
    && Loads(s, PREV, To(c, s.index, false))
  }

  lemma ShiftKeeps(c: Setting, s: State, far: nat, near: nat, from: Option<nat>, to: Option<nat>)
    requires Clean(s) && s.window[CURRENT].Some? && Sides(far, near)
    requires Loads(s, CURRENT, from) && Loads(s, far, to)
    ensures var s' := Shift(c, s, far, near);
            && Clean(s') && s'.window[far] == None && Loads(s', CURRENT, to) && Loads(s', near, from)
  {
  }

  lemma FillKeeps(s: State, far: nat, near: nat, from: Option<nat>)
    requires Clean(s) && Loads(s, CURRENT, Some(s.index)) && Sides(far, near)
    requires s.window[far] == None && Loads(s, near, from)
    ensures var s' := FillCurrent(s);
            && Clean(s') && Display(s') && Loads(s', CURRENT, Some(s.index)) && s'.busy == !Current(s').done
            && s'.window[far] == None && Loads(s', near, from)
  {
  }

  lemma FetchKeeps(s: State, far: nat, near: nat, from: Option<nat>, to: Option<nat>)
    requires Clean(s) && s.window[CURRENT].Some? && Display(s) && Sides(far, near) && s.window[far] == None
    requires Loads(s, CURRENT, Some(s.index)) && Loads(s, near, from)
    ensures var s' := Prefetch(s, far, to);
            && Clean(s') && s'.window[CURRENT].Some? && Current(s') == Current(s) && Display(s')
            && Loads(s', CURRENT, Some(s.index)) && Loads(s', far, to) && Loads(s', near, from)
  {
  }

  /** A move keeps all of this; and the busy indicator goes up exactly if the picture is not there. */
  lemma MoveKeeps(c: Setting, s: State, forward: bool)
    requires Inv(c, s)
    ensures Inv(c, AfterMove(c, s, forward))
    ensures To(c, s.index, forward).Some? ==>
              AfterMove(c, s, forward).busy == !Current(AfterMove(c, s, forward)).done
  {
    var to := To(c, s.index, forward);
    if to.Some? {
      AheadBehind(c.count, c.loop, if forward then s.index else to.value, if forward then to.value else s.index);
      var far, near := if forward then NEXT else PREV, if forward then PREV else NEXT;
      assert To(c, to.value, !forward) == Some(s.index);
      hide Ahead, Behind, Shift, FillCurrent, Prefetch, Clean, Loads, Display, Current, To;
      var s0 := s.(index := to.value);
      SameWindow(s, s0, far, to);
      ShiftKeeps(c, s0, far, near, Some(s.index), to);
      var s1 := Shift(c, s0, far, near);
      FillKeeps(s1, far, near, Some(s.index));
      var s2 := FillCurrent(s1);
      FetchKeeps(s2, far, near, Some(s.index), To(c, to.value, forward));
      var s3 := Prefetch(s2, far, To(c, to.value, forward));
      assert AfterMove(c, s, forward) == s3;
      hide AfterMove, WindowOk;
    }
  }

  lemma SameWindow(s: State, s0: State, far: nat, to: Option<nat>)
    requires Clean(s) && s0.loaders == s.loaders && s0.window == s.window && far < 3
    requires Loads(s, CURRENT, Some(s.index)) && Loads(s, far, to)
    ensures Clean(s0) && Loads(s0, CURRENT, Some(s.index)) && Loads(s0, far, to)
  {
  }

  lemma ProgressKeeps(c: Setting, s: State, k: nat, finished: bool)
    requires Inv(c, s) && k < |s.loaders|
    ensures Inv(c, AfterProgress(s, k, finished))
  {
    hide To;
  }

  lemma ReportKeeps(c: Setting, s: State, k: nat, ok: bool)
    requires Inv(c, s) && k < |s.loaders|
    ensures Inv(c, AfterReport(s, k, ok))
  {
    hide To;
  }

  /** In every step, whatever happens. */
  lemma StepKeepsInv(c: Setting, s: State, e: Event)
    requires Inv(c, s)
    ensures Inv(c, Result(c, s, e))
  {
    hide Inv, AfterMove, AfterProgress, AfterReport;
    match e
    case Move(forward) => MoveKeeps(c, s, forward);
    case Progressed(k, finished) =>
      if k < |s.loaders| {
        ProgressKeeps(c, s, k, finished);
      }
    case Reported(k, ok) =>
      if k < |s.loaders| {
        ReportKeeps(c, s, k, ok);
      }
  }

  lemma StartIsOk(c: Setting)
    requires c.count > 0
    ensures Start(c).window[CURRENT] == Some(0) && Start(c).busy && Start(c).index == 0 && Start(c).shown == None
    ensures !Current(Start(c)).done
  {
    hide To;
  }

  lemma {:induction false} RunConcat(c: Setting, s: State, a: seq<Event>, b: seq<Event>)
    requires Inv(c, s)
    ensures Run(c, s, a + b) == Run(c, Run(c, s, a), b)
    decreases |a|
  {
    hide Inv, Happen;
    if a == [] {
      assert a + b == b;
    } else {
      assert (a + b)[1..] == a[1..] + b;
      RunConcat(c, Happen(c, s, a[0]), a[1..], b);
    }
  }

  // ---------------------------------------------------------------- where a show is

  /** The index after some events: moves past the end of a list that does not loop do nothing. */
  function Walk(c: Setting, i: nat, events: seq<Event>): (r: nat)
    requires i < c.count
    ensures r < c.count
    decreases |events|
  {
    if events == [] then i else
    var to := if events[0].Move? then To(c, i, events[0].forward) else None;
    Walk(c, if to.Some? then to.value else i, events[1..])
  }

  /** Forward moves minus backward moves. */
  function Net(events: seq<Event>): int {
    if events == [] then 0
    else (if !events[0].Move? then 0 else if events[0].forward then 1 else -1) + Net(events[1..])
  }

  /** A looping show is where the net number of moves takes it, around the list. */
  lemma {:induction false} LoopingIndex(c: Setting, i: nat, events: seq<Event>)
    requires i < c.count && c.loop
    ensures Walk(c, i, events) == (i + Net(events)) % c.count
    decreases |events|
  {
    var n := c.count;
    if events == [] {
      Divided(i, n);
      Unique(n, 0, i, i / n, i % n);
    } else {
      var to := if events[0].Move? then To(c, i, events[0].forward) else None;
      LoopingIndex(c, if to.Some? then to.value else i, events[1..]);
      ModShift(i + Net(events), n);
    }
  }

  lemma {:induction false} RunIndex(c: Setting, s: State, events: seq<Event>)
    requires Inv(c, s)
    ensures Run(c, s, events).index == Walk(c, s.index, events)
    decreases |events|
  {
    hide Inv, To;
    if events != [] {
      StepIndex(c, s, events[0]);
      hide Happen;
      RunIndex(c, Happen(c, s, events[0]), events[1..]);
    }
  }

  lemma StepIndex(c: Setting, s: State, e: Event)
    requires Inv(c, s)
    ensures var to := if e.Move? then To(c, s.index, e.forward) else None;
            Happen(c, s, e).index == if to.Some? then to.value else s.index
  {
    hide To, Shift, FillCurrent, Prefetch;
  }

  // ---------------------------------------------------------------- what is seen

  /** Nobody moves, or only against the end of the list. */
  predicate Quiet(c: Setting, i: nat, events: seq<Event>)
    requires i < c.count
  {
    forall j :: 0 <= j < |events| && events[j].Move? ==> To(c, i, events[j].forward) == None
  }

  /** The k-th loader reports success, being done: it was before, or has finished in front of that. */
  predicate Delivers(events: seq<Event>, k: nat, done: bool) {
    exists j :: 0 <= j < |events| && events[j] == Reported(k, true) && (done || Progressed(k, true) in events[..j])
  }

  lemma DeliversCons(events: seq<Event>, k: nat, done: bool)
    requires events != []
    ensures Delivers(events, k, done)
       <==> || (events[0] == Reported(k, true) && done)
            || Delivers(events[1..], k, done || events[0] == Progressed(k, true))
  {
    var rest, e := events[1..], events[0];
    forall j | 0 <= j < |rest|
      ensures Progressed(k, true) in events[..j + 1] <==> e == Progressed(k, true) || Progressed(k, true) in rest[..j]
    {
      assert events[..j + 1] == [e] + rest[..j];
    }
    if Delivers(rest, k, done || e == Progressed(k, true)) {
      var j :| 0 <= j < |rest| && rest[j] == Reported(k, true)
        && (done || e == Progressed(k, true) || Progressed(k, true) in rest[..j]);
      assert events[j + 1] == Reported(k, true);
    }
    if Delivers(events, k, done) {
      var j :| 0 <= j < |events| && events[j] == Reported(k, true) && (done || Progressed(k, true) in events[..j]);
      if j > 0 {
        assert rest[j - 1] == Reported(k, true);
      }
    }
  }

  lemma QuietStep(c: Setting, s: State, e: Event)
    requires Inv(c, s) && (e.Move? ==> To(c, s.index, e.forward) == None)
    ensures var s', k := Happen(c, s, e), s.window[CURRENT].value;
            var show := e == Reported(k, true) && Current(s).done;
            && s'.index == s.index && s'.window == s.window
            && Current(s').done == (Current(s).done || e == Progressed(k, true))
            && s'.busy == (s.busy && !show) && s'.shown == (if show then Some(s.index) else s.shown)
  {
    hide To;
  }

  /** As long as nobody moves, what is seen depends on the current loader alone: its picture comes up
      exactly when it reports success, being done, and no other loader changes anything. */
  lemma {:induction false} QuietExact(c: Setting, s: State, events: seq<Event>)
    requires Inv(c, s) && Quiet(c, s.index, events)
    ensures var s', k := Run(c, s, events), s.window[CURRENT].value;
            var show := Delivers(events, k, Current(s).done);
            && s'.index == s.index && s'.window == s.window
            && s'.busy == (s.busy && !show) && s'.shown == (if show then Some(s.index) else s.shown)
    decreases |events|
  {
    hide Happen, To, Delivers;
    if events == [] {
      assert !Delivers(events, s.window[CURRENT].value, Current(s).done) by { NothingDelivered(s.window[CURRENT].value); }
    } else {
      QuietStep(c, s, events[0]);
      DeliversCons(events, s.window[CURRENT].value, Current(s).done);
      QuietExact(c, Happen(c, s, events[0]), events[1..]);
    }
  }

  lemma NothingDelivered(k: nat)
    ensures forall done :: !Delivers([], k, done)
  {
  }

  /** The settling law: after any events the view comes to show the file the index names, and the busy
      indicator goes down, as soon as the current loader finishes and reports success. */
  lemma Settles(c: Setting, before: seq<Event>, quiet: seq<Event>)
    requires c.count > 0 && Quiet(c, Run(c, Start(c), before).index, quiet)
    requires Delivers(quiet, Run(c, Start(c), before).window[CURRENT].value, false)
    ensures var s := Run(c, Start(c), before + quiet);
            !s.busy && s.shown == Some(s.index) && s.index == Walk(c, 0, before)
  {
    hide Inv, Run, Quiet, Current, Walk, To;
    var s := Run(c, Start(c), before);
    StartIsOk(c);
    RunConcat(c, Start(c), before, quiet);
    RunIndex(c, Start(c), before);
    QuietExact(c, s, quiet);
  }

  /** Before the first move the busy indicator is up until the first loader delivers. */
  lemma StartExact(c: Setting, quiet: seq<Event>)
    requires c.count > 0 && Quiet(c, 0, quiet)
    ensures var s := Run(c, Start(c), quiet);
            s.busy == !Delivers(quiet, 0, false) && s.shown == if s.busy then None else Some(0)
  {
    hide Inv, Quiet, Run, To, Delivers, Current;
    StartIsOk(c);
    QuietExact(c, Start(c), quiet);
  }

  /** The display, exactly: when a move has been made and no other since, the busy indicator is up
      if and only if the loader that became current was not done then and has not delivered since; and
      the picture is that of the file the index names if it is not. */
  lemma MoveExact(c: Setting, before: seq<Event>, forward: bool, quiet: seq<Event>)
    requires c.count > 0 && To(c, Run(c, Start(c), before).index, forward).Some?
    requires Quiet(c, Run(c, Start(c), before + [Move(forward)]).index, quiet)
    ensures var moved := Run(c, Start(c), before + [Move(forward)]);
            var s := Run(c, Start(c), before + [Move(forward)] + quiet);
            && s.busy == (!Current(moved).done && !Delivers(quiet, moved.window[CURRENT].value, false))
            && (!s.busy ==> s.shown == Some(s.index)) && s.index == moved.index
  {
    hide Inv, Quiet, Current, To, Delivers;
    var s := Run(c, Start(c), before);
    RunConcat(c, Start(c), before, [Move(forward)]);
    RunConcat(c, Start(c), before + [Move(forward)], quiet);
    OneEvent(c, s, Move(forward));
    MoveKeeps(c, s, forward);
    hide Run;
    QuietExact(c, AfterMove(c, s, forward), quiet);
    CurrentShown(c, Run(c, Start(c), before + [Move(forward)] + quiet));
  }

  lemma CurrentShown(c: Setting, s: State)
    requires Inv(c, s)
    ensures !s.busy ==> s.shown == Some(s.index)
  {
  }

  // ---------------------------------------------------------------- prefetching

  function Far(forward: bool): nat {
    if forward then 1 else 2
  }

  function Near(forward: bool): nat {
    if forward then 2 else 1
  }

  /** The window after a move, slot by slot: the prefetched loader becomes current, or a new one is made; the
      one that was current is kept behind it or not; and a new one is made for the next file, if there is one. */
  lemma WindowExact(c: Setting, s: State, forward: bool)
    requires Inv(c, s) && To(c, s.index, forward).Some?
    ensures var s', to := AfterMove(c, s, forward), To(c, s.index, forward).value;
            var far, near, n := Far(forward), Near(forward), |s.loaders|;
            && WindowOk(s')
            && s'.window[0] == (if s.window[far].Some? then s.window[far] else Some(n))
            && s'.window[near] == (if c.save then s.window[0] else None)
            && (s'.window[far].Some? <==> To(c, to, forward).Some?)
            && (s'.window[far].Some? ==>
                  s'.window[far].value >= n && s'.loaders[s'.window[far].value] == Fresh(To(c, to, forward).value))
            && (s.window[far] == None ==> s'.loaders[n] == Fresh(to))
  {
    hide To, Loads, Display, Drop;
  }

  /** At the start a loader for the second file is made, if there is one. */
  lemma StartWindow(c: Setting)
    requires c.count > 0
    ensures var s := Start(c);
            && s.window[0] == Some(0) && s.window[2] == None && s.loaders[0] == Fresh(0)
            && (s.window[1].Some? <==> c.count > 1 || c.loop)
            && (s.window[1].Some? ==>
                  s.window[1].value == 1 && s.loaders[1] == Fresh(if c.count > 1 then 1 else 0))
  {
  }

  /** The loaders a move leaves behind are cancelled if they run: the one on the near side, and the current
      one unless it is kept. Nothing else happens to any loader. */
  lemma DropExact(c: Setting, s: State, forward: bool, k: nat)
    requires Inv(c, s) && To(c, s.index, forward).Some? && k < |s.loaders|
    ensures var l, s' := s.loaders[k], AfterMove(c, s, forward);
            var left := s.window[Near(forward)] == Some(k) || (!c.save && s.window[0] == Some(k));
            && k < |s'.loaders|
            && s'.loaders[k] == if left && l.running && !l.done then Loader(l.file, false, true, true, l.succeeded) else l
  {
    var to := To(c, s.index, forward).value;
    var s1 := Shift(c, s.(index := to), Far(forward), Near(forward));
    ShiftDrops(c, s, to, forward, k);
    Adds(s1, Far(forward), To(c, to, forward));
    hide To, Inv, Shift, FillCurrent, Prefetch;
  }

  lemma ShiftDrops(c: Setting, s: State, to: nat, forward: bool, k: nat)
    requires Clean(s) && s.window[0].Some? && k < |s.loaders|
    ensures var l, s1 := s.loaders[k], Shift(c, s.(index := to), Far(forward), Near(forward));
            var left := s.window[Near(forward)] == Some(k) || (!c.save && s.window[0] == Some(k));
            && |s1.loaders| == |s.loaders|
            && s1.loaders[k] == if left && l.running && !l.done then Loader(l.file, false, true, true, l.succeeded) else l
  {
  }

  /** The other two steps only make new loaders. */
  lemma Adds(s: State, far: nat, file: Option<nat>)
    requires WindowOk(s) && 0 < far < 3
    ensures s.loaders <= Prefetch(FillCurrent(s), far, file).loaders
  {
  }

  lemma {:induction false} QuietLoader(c: Setting, s: State, quiet: seq<Event>, k: nat)
    requires Inv(c, s) && Quiet(c, s.index, quiet) && k < |s.loaders| && !s.loaders[k].cancelled
    ensures var s' := Run(c, s, quiet);
            && k < |s'.loaders| && s'.loaders[k].file == s.loaders[k].file && !s'.loaders[k].cancelled
            && s'.loaders[k].done == (s.loaders[k].done || Progressed(k, true) in quiet)
            && (!s'.loaders[k].done ==> s'.loaders[k].running == (s.loaders[k].running || Progressed(k, false) in quiet))
    decreases |quiet|
  {
    hide To;
    if quiet != [] {
      QuietStep(c, s, quiet[0]);
      LoaderStep(c, s, quiet[0], k);
      hide Happen, Inv;
      assert quiet == [quiet[0]] + quiet[1..];
      QuietLoader(c, Happen(c, s, quiet[0]), quiet[1..], k);
    }
  }

  lemma LoaderStep(c: Setting, s: State, e: Event, k: nat)
    requires Inv(c, s) && (e.Move? ==> To(c, s.index, e.forward) == None)
    requires k < |s.loaders| && !s.loaders[k].cancelled
    ensures var s', l := Happen(c, s, e), s.loaders[k];
            && k < |s'.loaders| && s'.loaders[k].file == l.file && !s'.loaders[k].cancelled
            && s'.loaders[k].done == (l.done || e == Progressed(k, true))
            && (!s'.loaders[k].done ==> s'.loaders[k].running == (l.running || e == Progressed(k, false)))
  {
    hide To, Clean, Loads, Display;
  }

  /** What prefetching is for: once the loader made for the next file has finished, a move to it shows the
      picture at once, and the busy indicator is down. */
  lemma ShownAtOnce(c: Setting, before: seq<Event>, quiet: seq<Event>, forward: bool)
    requires c.count > 0 && Quiet(c, Run(c, Start(c), before).index, quiet)
    requires var s := Run(c, Start(c), before);
             && To(c, s.index, forward).Some? && s.window[Far(forward)].Some?
             && (s.loaders[s.window[Far(forward)].value].done || Progressed(s.window[Far(forward)].value, true) in quiet)
    ensures var s := Run(c, Start(c), before);
            var s' := Run(c, Start(c), before + quiet + [Move(forward)]);
            !s'.busy && s'.shown == To(c, s.index, forward) && s'.shown == Some(s'.index)
  {
    var s, far := Run(c, Start(c), before), Far(forward);
    var k := s.window[far].value;
    assert !s.loaders[k].cancelled;
    var q := Run(c, s, quiet);
    QuietExact(c, s, quiet);
    QuietLoader(c, s, quiet, k);
    RunConcat(c, Start(c), before, quiet);
    RunConcat(c, Start(c), before + quiet, [Move(forward)]);
    OneEvent(c, q, Move(forward));
    StepIndex(c, q, Move(forward));
    WindowExact(c, q, forward);
    MoveKeeps(c, q, forward);
    DropExact(c, q, forward, k);
    hide Inv, Run, To, AfterMove, Quiet;
    CurrentShown(c, AfterMove(c, q, forward));
  }

  /** A loader that was started, has not finished and is left behind by a move is cancelled. */
  lemma LeftBehind(c: Setting, before: seq<Event>, quiet: seq<Event>, forward: bool)
    requires c.count > 0 && Quiet(c, Run(c, Start(c), before).index, quiet)
    requires var s := Run(c, Start(c), before);
             && To(c, s.index, forward).Some? && s.window[Near(forward)].Some?
             && var k := s.window[Near(forward)].value;
                !s.loaders[k].done && Progressed(k, false) in quiet && Progressed(k, true) !in quiet
    ensures var k := Run(c, Start(c), before).window[Near(forward)].value;
            var s' := Run(c, Start(c), before + quiet + [Move(forward)]);
            k < |s'.loaders| && s'.loaders[k].cancelled
  {
    var s := Run(c, Start(c), before);
    var k := s.window[Near(forward)].value;
    assert !s.loaders[k].cancelled;
    var q := Run(c, s, quiet);
    QuietExact(c, s, quiet);
    QuietLoader(c, s, quiet, k);
    RunConcat(c, Start(c), before, quiet);
    RunConcat(c, Start(c), before + quiet, [Move(forward)]);
    OneEvent(c, q, Move(forward));
    DropExact(c, q, forward, k);
    hide Inv, Run, To, AfterMove, Quiet;
  }

  lemma OneEvent(c: Setting, s: State, e: Event)
    requires Inv(c, s)
    ensures Run(c, s, [e]) == Happen(c, s, e) == Result(c, s, e)
  {
    hide Inv, Result;
    assert [e][1..] == [];
  }

  // ---------------------------------------------------------------- lists that do not loop

  function Moves(forward: bool, k: nat): seq<Event> {
    if k == 0 then [] else [Move(forward)] + Moves(forward, k - 1)
  }

  /** A list that does not loop is walked file by file, up to its ends. */
  lemma {:induction false} LinearWalk(c: Setting, i: nat, k: nat)
    requires i < c.count && !c.loop
    ensures Walk(c, i, Moves(true, k)) == if i + k < c.count then i + k else c.count - 1
    ensures Walk(c, i, Moves(false, k)) == if k <= i then i - k else 0
    decreases k
  {
    if k > 0 {
      assert Moves(true, k)[1..] == Moves(true, k - 1) && Moves(false, k)[1..] == Moves(false, k - 1);
      LinearWalk(c, if i + 1 < c.count then i + 1 else i, k - 1);
      LinearWalk(c, if i > 0 then i - 1 else i, k - 1);
    }
  }
}
