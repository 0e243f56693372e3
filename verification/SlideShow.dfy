/** FXSlideShow as it runs: the list of files, the loading tasks and the window of three around the current
    one are objects that are changed on every move. They do what Slides says. */
module SlideShow {
  import opened Slides
  import opened Words

  // ---------------------------------------------------------------- the files

  /** The list of files, of which only the indices matter here; -1 stands for no file. */
  class Files {
    const count: nat
    var prev: int
    var current: nat
    var next: int
    var loop: bool

    ghost predicate Valid()
      reads this
    {
      && current < count
      && next == (match Ahead(count, loop, current) case Some(i) => i case None => -1)
      && prev == (match Behind(count, loop, current) case Some(i) => i case None => -1)
    }

    /** The list as it is before setLoop. */
    constructor (n: nat)
      requires n > 0
      ensures count == n && current == 0
    {
      count, prev, current, next, loop := n, -1, 0, 1, false;
    }

    method SetLoop(on: bool)
      requires current < count
      modifies this
      ensures Valid() && loop == on && current == old(current)
    {
      loop := on;
      prev := GetPrev();
      next := GetNext();
    }

    method GetPrev() returns (p: int)
      requires current < count
      ensures p == match Behind(count, loop, current) case Some(i) => i case None => -1
    {
      p := current - 1;
      if p < 0 {
        p := if loop then count - 1 else -1;
      }
    }

    method GetNext() returns (n: int)
      requires current < count
      ensures n == match Ahead(count, loop, current) case Some(i) => i case None => -1
    {
      n := current + 1;
      if n >= count {
        n := if loop then 0 else -1;
      }
    }

    method Next() returns (moved: bool)
      requires Valid()
      modifies this
      ensures Valid() && loop == old(loop) && moved == Ahead(count, loop, old(current)).Some?
      ensures current == if moved then Ahead(count, loop, old(current)).value else old(current)
    {
      if current + 1 < count {
        current := current + 1;
      } else if loop {
        current := 0;
      } else {
        return false;
      }
      next := GetNext();
      prev := GetPrev();
      moved := true;
    }

    method Previous() returns (moved: bool)
      requires Valid()
      modifies this
      ensures Valid() && loop == old(loop) && moved == Behind(count, loop, old(current)).Some?
      ensures current == if moved then Behind(count, loop, old(current)).value else old(current)
    {
      if current > 0 {
        current := current - 1;
      } else if loop {
        current := count - 1;
      } else {
        return false;
      }
      next := GetNext();
      prev := GetPrev();
      moved := true;
    }
  }

  // ---------------------------------------------------------------- the window

  /** A loading task: started and finished by the executor, and reported to the event thread after that. */
  class Task {
    const file: nat
    var running: bool
    var done: bool
    var cancelled: bool
    var succeeded: bool

    ghost function Value(): Loader
      reads this
    {
      Loader(file, running, done, cancelled, succeeded)
    }

    constructor (f: nat)
      ensures Value() == Fresh(f)
    {
      file, running, done, cancelled, succeeded := f, false, false, false, false;
    }

    method Cancel()
      modifies this
      ensures Value() == Cancelled(old(Value()))
    {
      if !done {
        running, done, cancelled := false, true, true;
      }
    }
  }

  ghost function Values(tasks: seq<Task>): (ls: seq<Loader>)
    reads set t | t in tasks
    ensures |ls| == |tasks|
  {
    seq(|tasks|, i requires 0 <= i < |tasks| reads set t | t in tasks => tasks[i].Value())
  }

  class Show {
    const files: Files
    const image: array<Task?>
    const savePrevious: bool
    /** Everything handed to the executor. */
    var executor: seq<Task>
    /** The file whose picture the view was given last, whether the busy indicator is up, and whether
        the time of the last picture is known, on which the automatic forwarding waits. */
    var shown: Option<nat>
    var busy: bool
    var timed: bool
    /** Which tasks are in the window. */
    ghost var window: seq<Option<nat>>

    ghost function Tasks(): set<Task>
      reads `executor
    {
      set t | t in executor
    }

    ghost function Loaders(): (ls: seq<Loader>)
      reads `executor, Tasks()
    {
      Values(executor)
    }

    ghost predicate Distinct()
      reads `executor
    {
      forall i, j :: 0 <= i < j < |executor| ==> executor[i] != executor[j]
    }

    /** The window is what the array holds. */
    ghost predicate Repr()
      reads `executor, `window, image
    {
      && Distinct() && image.Length == 3 && |window| == 3
      && (forall i :: 0 <= i < 3 ==> InRange(window[i], |executor|))
      && (forall i :: 0 <= i < 3 ==> image[i] == if window[i] == None then null else executor[window[i].value])
    }

    ghost function Abs(): State
      reads this, files, Tasks()
    {
      State(files.current, Loaders(), window, shown, busy)
    }

    function Mode(): Setting
      reads files
    {
      Setting(files.count, files.loop, savePrevious)
    }

    /** The show is forwarded only when the busy indicator is down. */
    ghost predicate Valid()
      reads this, files, image, Tasks()
    {
      Repr() && files.Valid() && Inv(Mode(), Abs()) && timed == !busy
    }

    /** The end of start(): the first image and, if there is one, the second. */
    constructor (n: nat, loop: bool, save: bool)
      requires n > 0
      ensures Valid() && Mode() == Setting(n, loop, save) && Abs() == Start(Mode())
      ensures fresh(files) && fresh(image) && fresh(Tasks())
    {
      hide Inv, Slides.Prefetch, Valid, Values, Ahead, Behind, Loaders, Abs, Start;
      var fs := new Files(n);
      fs.SetLoop(loop);
      var first := new Task(fs.current);
      var slots: array<Task?> := new Task?[3](i => null);
      slots[CURRENT] := first;
      executor, window := [first], [Some(0), None, None];
      files, image, savePrevious := fs, slots, save;
      shown, busy, timed := None, true, false;
      new;
      PrefetchSecond();
    }

    method PrefetchSecond()
      requires files.Valid() && files.current == 0 && |executor| == 1 && executor[0].Value() == Fresh(0)
      requires image.Length == 3 && image[CURRENT] == executor[0] && image[NEXT] == null && image[PREV] == null
      requires window == [Some(0), None, None] && shown == None && busy && !timed
      modifies image, `executor, `window
      ensures Valid() && Abs() == Start(Mode()) && fresh(Tasks() - old(Tasks()))
    {
      hide Inv, Slides.Prefetch;
      assert Loaders() == [Fresh(0)];
      assert To(Mode(), 0, true) == if files.next >= 0 then Some(files.next) else None;
      hide Ahead, Behind;
      Prefetch(NEXT, files.next);
      assert Abs() == Start(Mode());
    }

    // -------------------------------------------------------------- loaders

    /** The executor starts a task, or finishes it. */
    method Progress(k: nat, finished: bool)
      requires Valid() && k < |executor|
      modifies Tasks()
      ensures Valid() && Abs() == AfterProgress(old(Abs()), k, finished)
    {
      StepKeepsInv(Mode(), Abs(), Progressed(k, finished));
      hide Inv, Files.Valid;
      var t := executor[k];
      assert t.Value() == Loaders()[k];
      if !t.done {
        Advance(t, k, finished);
        hide Values;
      }
    }

    method Advance(t: Task, ghost k: nat, finished: bool)
      requires Distinct() && k < |executor| && t == executor[k]
      modifies t
      ensures Loaders() == old(Loaders())[k := old(Loaders())[k].(running := true, done := finished)]
    {
      t.running, t.done := true, finished;
      assert Loaders() == old(Loaders())[k := old(t.Value()).(running := true, done := finished)];
    }

    /** A finished task reports to the event thread. */
    method Report(k: nat, ok: bool)
      requires Valid() && k < |executor|
      modifies Tasks(), `shown, `busy, `timed
      ensures Valid() && Abs() == AfterReport(old(Abs()), k, ok)
    {
      StepKeepsInv(Mode(), Abs(), Reported(k, ok));
      hide Inv, Files.Valid;
      var t := executor[k];
      assert t.Value() == Loaders()[k];
      hide Values;
      if t.done && !t.cancelled {
        Settle(t, k, ok);
        if ok && image[CURRENT] == t {
          busy := false;
          SetCurrentImage();
        }
      }
    }

    /** A loader changes its own state before anything is shown. */
    method Settle(t: Task, ghost k: nat, ok: bool)
      requires Distinct() && k < |executor| && t == executor[k]
      modifies t
      ensures var l := old(Loaders())[k];
              Loaders() == old(Loaders())[k := l.(running := false, succeeded := l.succeeded || ok)]
    {
      t.running := false;
      if ok {
        t.succeeded := true;
      }
      var l := old(t.Value());
      assert Loaders() == old(Loaders())[k := l.(running := false, succeeded := l.succeeded || ok)];
    }

    method SetCurrentImage()
      requires image.Length == 3 && image[CURRENT] != null
      modifies `shown, `busy, `timed
      ensures shown == Some(image[CURRENT].file) && !busy && timed
    {
      shown, timed := Some(image[CURRENT].file), true;
      if busy {
        busy := false;
      }
    }

    // -------------------------------------------------------------- moves

    /** nextImage: shift the window in the direction of the move, show the picture if it is there, and
        prefetch on the far side. */
    method NextImage(forward: bool) returns (moved: bool)
      requires Valid()
      modifies this, files, image, Tasks()
      ensures Valid() && fresh(Tasks() - old(Tasks())) && old(executor) <= executor && Mode() == old(Mode())
      ensures moved == To(Mode(), old(files.current), forward).Some?
      ensures Abs() == AfterMove(Mode(), old(Abs()), forward)
    {
      hide Inv, Current, Slides.Shift, Slides.FillCurrent, Slides.Prefetch, Repr, To, Loaders, Values, Files.Valid;
      ghost var s := Abs();
      MoveKeeps(Mode(), s, forward);
      CurrentTask();
      var path;
      moved, path := Step(forward);
      assert Abs() == s.(index := files.current);
      if !moved {
        return;
      }
      Turn(forward, path);
    }

    lemma CurrentTask()
      requires Valid()
      ensures image.Length == 3 && image[CURRENT] != null
    {
    }

    method Turn(forward: bool, path: int)
      requires Repr() && image[CURRENT] != null && path >= -1
      modifies this, image, Tasks()
      ensures Repr() && timed == !busy && fresh(Tasks() - old(Tasks())) && old(executor) <= executor
      ensures var far, near := if forward then NEXT else PREV, if forward then PREV else NEXT;
              var s := Slides.FillCurrent(Slides.Shift(Mode(), old(Abs()), far, near));
              Abs() == Slides.Prefetch(s, far, if path >= 0 then Some(path) else None)
    {
      hide Slides.Shift, Slides.FillCurrent, Slides.Prefetch;
      var far, near := if forward then NEXT else PREV, if forward then PREV else NEXT;
      Shift(far, near);
      FillCurrent();
      Prefetch(far, path);
    }

    /** Move the index. */
    method Step(forward: bool) returns (moved: bool, path: int)
      requires files.Valid()
      modifies files
      ensures files.Valid() && Mode() == old(Mode())
      ensures var to := To(Mode(), old(files.current), forward);
              moved == to.Some? && files.current == if moved then to.value else old(files.current)
      ensures path == match To(Mode(), files.current, forward) case Some(i) => i case None => -1
    {
      if forward {
        moved := files.Next();
        path := files.next;
      } else {
        moved := files.Previous();
        path := files.prev;
      }
    }

    /** Drop the loader on the near side, keep or drop the current one, and take the one on the far side. */
    method Shift(far: nat, near: nat)
      requires Repr() && image[CURRENT] != null && Sides(far, near)
      modifies image, `window, Tasks()
      ensures Repr() && Abs() == Slides.Shift(Mode(), old(Abs()), far, near)
      ensures image[far] == null && image[near] == if savePrevious then old(image[CURRENT]) else null
      ensures image[CURRENT] == old(image[far])
    {
      hide Distinct, Loaders, Values, Task.Value, Drop;
      DropSlot(near);
      image[near] := null;
      if savePrevious {
        image[near] := image[CURRENT];
      } else {
        CancelIfRunning(image[CURRENT], window[CURRENT].value);
      }
      image[CURRENT] := image[far];
      image[far] := null;
      window := window[near := if savePrevious then window[CURRENT] else None][CURRENT := window[far]][far := None];
    }

    method DropSlot(slot: nat)
      requires Repr() && slot < 3
      modifies Tasks()
      ensures Loaders() == Drop(old(Loaders()), window[slot])
    {
      if image[slot] != null {
        CancelIfRunning(image[slot], window[slot].value);
      }
    }

    method CancelIfRunning(t: Task, ghost k: nat)
      requires Distinct() && k < |executor| && t == executor[k]
      modifies t
      ensures Loaders() == Drop(old(Loaders()), Some(k))
    {
      if t.running {
        t.Cancel();
      }
      assert Loaders() == Drop(old(Loaders()), Some(k));
    }

    /** A new task for an empty current slot; a picture that is loaded is shown. */
    method FillCurrent()
      requires Repr()
      modifies image, `executor, `window, `shown, `busy, `timed
      ensures Repr() && timed == !busy && fresh(Tasks() - old(Tasks())) && old(executor) <= executor
      ensures Abs() == Slides.FillCurrent(old(Abs()))
    {
      if image[CURRENT] == null {
        Hand(CURRENT, files.current);
        busy, timed := true, false;
      } else if image[CURRENT].done {
        assert image[CURRENT].Value() == Loaders()[window[CURRENT].value];
        SetCurrentImage();
      } else {
        busy, timed := true, false;
      }
    }

    method Prefetch(far: nat, path: int)
      requires Repr() && 0 < far < 3
      modifies image, `executor, `window
      ensures Repr() && fresh(Tasks() - old(Tasks())) && old(executor) <= executor
      ensures Abs() == Slides.Prefetch(old(Abs()), far, if path >= 0 then Some(path) else None)
    {
      if path >= 0 {
        Hand(far, path);
      }
    }

    /** A new task, handed to the executor. */
    method Hand(slot: nat, file: nat)
      requires Repr() && slot < 3
      modifies image, `executor, `window
      ensures Repr() && fresh(Tasks() - old(Tasks())) && old(executor) <= executor
      ensures Loaders() == old(Loaders()) + [Fresh(file)] && window == old(window)[slot := Some(|old(executor)|)]
    {
      var task := new Task(file);
      image[slot], window := task, window[slot := Some(|executor|)];
      executor := executor + [task];
      assert Loaders() == old(Loaders()) + [Fresh(file)];
    }
  }

  // ---------------------------------------------------------------- whole shows

  /** What there is to see: the file of the picture on display and the busy indicator. */
  datatype View = View(shown: Option<nat>, busy: bool)

  /** The objects follow the machine: whatever moves are made, and whenever loaders, dropped ones included,
      run and report, after every event the screen shows what Slides.Run says, which is the picture of
      the file the index names unless the busy indicator is up. */
  method Play(c: Setting, events: seq<Event>) returns (views: seq<View>)
    requires c.count > 0
    ensures |views| == |events|
    ensures forall i :: 0 <= i < |events| ==>
              var s := Run(c, Start(c), events[..i + 1]);
              views[i] == View(s.shown, s.busy)
    ensures forall i :: 0 <= i < |events| ==>
              views[i].busy || views[i].shown == Some(Walk(c, 0, events[..i + 1]))
  {
    hide Walk, Inv, Run, Show.Valid, Start, Show.Loaders, Result, Slides.Happen;
    var show := new Show(c.count, c.loop, c.save);
    views := [];
    assert events[..0] == [];
    assert Run(c, Start(c), []) == Start(c) by { NoEvents(c, Start(c)); }
    for i := 0 to |events|
      invariant show.Valid() && fresh(show) && fresh(show.files) && fresh(show.image) && fresh(show.Tasks())
      invariant show.Mode() == c && show.Abs() == Run(c, Start(c), events[..i]) && |views| == i
      invariant forall j :: 0 <= j < i ==>
                  var s := Run(c, Start(c), events[..j + 1]);
                  views[j] == View(s.shown, s.busy)
    {
      assert events[..i + 1] == events[..i] + [events[i]];
      RunConcat(c, Start(c), events[..i], [events[i]]);
      OneEvent(c, Run(c, Start(c), events[..i]), events[i]);
      Happens(show, events[i]);
      views := views + [View(show.shown, show.busy)];
    }
    forall i | 0 <= i < |events|
      ensures views[i].busy || views[i].shown == Some(Walk(c, 0, events[..i + 1]))
    {
      StartIsOk(c);
      RunIndex(c, Start(c), events[..i + 1]);
      CurrentShown(c, Run(c, Start(c), events[..i + 1]));
    }
  }

  method Happens(show: Show, e: Event)
    requires show.Valid()
    modifies show, show.files, show.image, show.Tasks()
    ensures show.Valid() && fresh(show.Tasks() - old(show.Tasks())) && show.Mode() == old(show.Mode())
    ensures show.Abs() == Result(show.Mode(), old(show.Abs()), e)
  {
    hide AfterMove, AfterProgress, AfterReport, Inv;
    match e {
      case Move(forward) => var moved := show.NextImage(forward);
      case Progressed(k, finished) =>
        if k < |show.executor| {
          show.Progress(k, finished);
        }
      case Reported(k, ok) =>
        if k < |show.executor| {
          show.Report(k, ok);
        }
    }
  }

  lemma NoEvents(c: Setting, s: State)
    requires Inv(c, s)
    ensures Run(c, s, []) == s
  {
  }
}
