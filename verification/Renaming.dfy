/** Handle renaming over whole replays: what retrace.c passes to the replayed EGL calls, against the
    history of the replay itself. */
module Renaming {
  import opened Words
  import opened HandleMap

  datatype Kind = Surface | Context

  /** What a replay does with handles: a creation recorded under one handle yields another, and later
      commands mention recorded handles. */
  datatype Action = Create(kind: Kind, recorded: long, replayed: long) | Use(kind: Kind, handle: long)

  // ---------------------------------------------------------------- the history

  predicate Creates(a: Action, kind: Kind) {
    a.Create? && a.kind == kind
  }

  /** The result of the latest replayed creation recorded under `handle`, null if there is none. */
  function Latest(history: seq<Action>, kind: Kind, handle: long): long
    decreases |history|
  {
    if history == [] then 0 else
    var last := history[|history| - 1];
    if Creates(last, kind) && last.recorded == handle then last.replayed
    else Latest(history[..|history| - 1], kind, handle)
  }

  /** The non-null handles recorded by creations. */
  function Handles(history: seq<Action>, kind: Kind): set<long> {
    set i | 0 <= i < |history| && Creates(history[i], kind) && history[i].recorded != 0 :: history[i].recorded
  }

  predicate EverCreated(history: seq<Action>, kind: Kind) {
    exists i :: 0 <= i < |history| && Creates(history[i], kind)
  }

  /** Where the replayer dies: a 17th handle, a failed creation with the map full, or any use before
      the first creation of its kind, when the map pointer is still null. */
  predicate Fatal(history: seq<Action>, a: Action) {
    match a
    case Create(kind, recorded, _) =>
      recorded !in Handles(history, kind) && |Handles(history, kind)| >= MAX_KEYS
    case Use(kind, _) => !EverCreated(history, kind)
  }

  /** Even the null handle is fatal before the first creation. */
  lemma EarlyLookup(kind: Kind)
    ensures Fatal([], Use(kind, 0))
  {
  }

  /** The map a history should have produced. */
  function TableOf(history: seq<Action>, kind: Kind): map<long, long>
    decreases |history|
  {
    if history == [] then map[] else
    var rest, last := TableOf(history[..|history| - 1], kind), history[|history| - 1];
    if Creates(last, kind) && last.recorded != 0 then With(rest, last.recorded, last.replayed) else rest
  }

  lemma {:induction false} TableKeys(history: seq<Action>, kind: Kind)
    ensures TableOf(history, kind).Keys == Handles(history, kind)
    decreases |history|
  {
    if history == [] {
      assert Handles(history, kind) == {};
    } else {
      var front, last := history[..|history| - 1], history[|history| - 1];
      TableKeys(front, kind);
      HandlesSnoc(front, last, kind);
      assert history == front + [last];
    }
  }

  lemma {:induction false} TableValue(history: seq<Action>, kind: Kind, h: long)
    requires h != 0
    ensures Latest(history, kind, h) == if h in TableOf(history, kind) then TableOf(history, kind)[h] else 0
    decreases |history|
  {
    if history != [] {
      TableValue(history[..|history| - 1], kind, h);
    }
  }

  /** The table a history produces maps exactly the recorded handles, each to its latest result. */
  lemma TableIsLatest(history: seq<Action>, kind: Kind)
    ensures TableOf(history, kind).Keys == Handles(history, kind)
    ensures |TableOf(history, kind)| == |Handles(history, kind)|
    ensures forall h :: h in TableOf(history, kind) ==> TableOf(history, kind)[h] == Latest(history, kind, h)
    ensures forall h :: h != 0 && h !in TableOf(history, kind) ==> Latest(history, kind, h) == 0
  {
    hide TableOf, Latest, Handles;
    TableKeys(history, kind);
    assert 0 !in Handles(history, kind) by { NullIsNoHandle(history, kind); }
    forall h: long | h != 0
      ensures Latest(history, kind, h) == if h in TableOf(history, kind) then TableOf(history, kind)[h] else 0
    {
      TableValue(history, kind, h);
    }
  }

  lemma NullIsNoHandle(history: seq<Action>, kind: Kind)
    ensures 0 !in Handles(history, kind)
  {
  }

  lemma HandlesSnoc(history: seq<Action>, a: Action, kind: Kind)
    ensures Handles(history + [a], kind)
         == Handles(history, kind) + if Creates(a, kind) && a.recorded != 0 then {a.recorded} else {}
    ensures EverCreated(history + [a], kind) <==> EverCreated(history, kind) || Creates(a, kind)
  {
    var longer := history + [a];
    assert forall i :: 0 <= i < |history| ==> longer[i] == history[i];
    assert longer[|history|] == a;
    forall h | h in Handles(history, kind)
      ensures h in Handles(longer, kind)
    {
      var i :| 0 <= i < |history| && Creates(history[i], kind) && history[i].recorded != 0 && history[i].recorded == h;
      assert longer[i].recorded == h;
    }
    if EverCreated(history, kind) {
      var i :| 0 <= i < |history| && Creates(history[i], kind);
      assert Creates(longer[i], kind);
    }
  }

  lemma TableSnoc(history: seq<Action>, a: Action, kind: Kind)
    ensures TableOf(history + [a], kind)
         == if Creates(a, kind) && a.recorded != 0 then With(TableOf(history, kind), a.recorded, a.replayed)
            else TableOf(history, kind)
  {
    assert (history + [a])[..|history|] == history;
  }

  lemma HistorySnoc(history: seq<Action>, a: Action)
    ensures forall k: Kind :: EverCreated(history + [a], k) <==> EverCreated(history, k) || Creates(a, k)
    ensures forall k: Kind ::
              TableOf(history + [a], k)
              == if Creates(a, k) && a.recorded != 0 then With(TableOf(history, k), a.recorded, a.replayed)
                 else TableOf(history, k)
  {
    hide With, EverCreated, Handles, TableOf;
    forall k: Kind
      ensures EverCreated(history + [a], k) <==> EverCreated(history, k) || Creates(a, k)
      ensures TableOf(history + [a], k)
              == if Creates(a, k) && a.recorded != 0 then With(TableOf(history, k), a.recorded, a.replayed)
                 else TableOf(history, k)
    {
      HandlesSnoc(history, a, k);
      TableSnoc(history, a, k);
    }
  }

  // ---------------------------------------------------------------- the replayer

  class Renamer {
    const maps: Maps
    var surfaceMap: Option<nat>
    var contextMap: Option<nat>
    ghost var history: seq<Action>

    function MapOf(kind: Kind): Option<nat>
      reads this
    {
      if kind == Surface then surfaceMap else contextMap
    }

    ghost predicate Holding(kind: Kind)
      reads this, maps
    {
      match MapOf(kind)
      case None => !EverCreated(history, kind)
      case Some(m) => EverCreated(history, kind) && m < |maps.tables| && maps.tables[m] == TableOf(history, kind)
    }

    ghost predicate Valid()
      reads this, maps, maps.space
    {
      && maps.Valid()
      && |maps.tables| == (if surfaceMap == None then 0 else 1) + (if contextMap == None then 0 else 1)
      && Holding(Surface) && Holding(Context)
      && (surfaceMap == None || surfaceMap != contextMap)
    }

    constructor ()
      ensures Valid() && history == [] && fresh(maps) && fresh(maps.space)
    {
      maps := new Maps();
      surfaceMap, contextMap, history := None, None, [];
    }

    /** The map of a kind, created when it is first needed. */
    method MapFor(kind: Kind) returns (m: nat)
      requires maps.Valid() && Valid()
      modifies this`surfaceMap, this`contextMap, maps
      ensures maps.Valid() && m < |maps.tables|
      ensures MapOf(kind) == Some(m) && maps.tables[m] == TableOf(history, kind)
      ensures var other := if kind == Surface then Context else Surface;
              && MapOf(other) == old(MapOf(other)) && Holding(other) && MapOf(other) != Some(m)
              && |maps.tables| == 1 + (if MapOf(other) == None then 0 else 1)
    {
      hide EverCreated, TableOf, Maps.Valid;
      var known := MapOf(kind);
      if known == None {
        NeverCreated(history, kind);
        known := maps.CreateMap();
        if kind == Surface {
          surfaceMap := known;
        } else {
          contextMap := known;
        }
      }
      m := known.value;
    }

    /** A replayed creation. */
    method Created(kind: Kind, recorded: long, replayed: long) returns (ok: bool)
      requires Valid()
      modifies this, maps, maps.space
      ensures ok <==> !Fatal(old(history), Create(kind, recorded, replayed))
      ensures ok ==> Valid() && history == old(history) + [Create(kind, recorded, replayed)]
    {
      hide With, EverCreated, Handles, TableOf, Maps.Valid;
      var a := Create(kind, recorded, replayed);
      HistorySnoc(history, a);
      TableIsLatest(history, kind);
      var m := MapFor(kind);
      ok := maps.PutMap(m, recorded, replayed);
      history := history + [a];
    }

    /** A recorded handle on its way into a replayed call; none if the replayer crashes on its null map. */
    method Renamed(kind: Kind, handle: long) returns (h: Option<long>)
      requires Valid()
      ensures h == None <==> Fatal(history, Use(kind, handle))
      ensures h != None ==> h == Some(if handle == 0 then 0 else Latest(history, kind, handle))
    {
      var m := MapOf(kind);
      if m == None {
        return None;
      }
      TableIsLatest(history, kind);
      var val := maps.GetMap(m.value, handle);
      h := Some(val);
    }

    /** A use leaves the maps alone. */
    ghost method Used(kind: Kind, handle: long)
      requires Valid()
      modifies this`history
      ensures Valid() && history == old(history) + [Use(kind, handle)]
    {
      hide With, EverCreated, Handles, TableOf, Maps.Valid;
      var a := Use(kind, handle);
      HistorySnoc(history, a);
      history := history + [a];
    }
  }

  lemma {:induction false} NeverCreated(history: seq<Action>, kind: Kind)
    requires !EverCreated(history, kind)
    ensures TableOf(history, kind) == map[]
  {
    if history != [] {
      var front, last := history[..|history| - 1], history[|history| - 1];
      HandlesSnoc(front, last, kind);
      assert history == front + [last];
      NeverCreated(front, kind);
    }
  }

  /** The renaming law for whole replays: every action up to the first fatal one goes through, and
      every handle mentioned becomes the result of the latest replayed creation recorded under it;
      null stays null. `renamed` has one entry per action, null for creations. */
  method RenameAll(actions: seq<Action>) returns (renamed: seq<long>)
    ensures |renamed| <= |actions|
    ensures forall i :: 0 <= i < |renamed| ==> !Fatal(actions[..i], actions[i])
    ensures |renamed| < |actions| ==> Fatal(actions[..|renamed|], actions[|renamed|])
    ensures forall i :: 0 <= i < |renamed| && actions[i].Use? ==>
              renamed[i] == if actions[i].handle == 0 then 0
                            else Latest(actions[..i], actions[i].kind, actions[i].handle)
  {
    hide Fatal, Latest, Renamer.Valid, Maps.Valid;
    var r := new Renamer();
    renamed := [];
    while |renamed| < |actions|
      invariant |renamed| <= |actions| && fresh(r) && fresh(r.maps) && fresh(r.maps.space)
      invariant r.Valid() && r.history == actions[..|renamed|]
      invariant forall i :: 0 <= i < |renamed| ==> !Fatal(actions[..i], actions[i])
      invariant forall i :: 0 <= i < |renamed| && actions[i].Use? ==>
                  renamed[i] == if actions[i].handle == 0 then 0
                                else Latest(actions[..i], actions[i].kind, actions[i].handle)
      decreases |actions| - |renamed|
    {
      var i := |renamed|;
      assert actions[..i] + [actions[i]] == actions[..i + 1];
      match actions[i]
      case Create(kind, recorded, replayed) =>
        var ok := r.Created(kind, recorded, replayed);
        if !ok {
          return;
        }
        renamed := renamed + [0];
      case Use(kind, handle) =>
        var h := r.Renamed(kind, handle);
        if h == None {
          return;
        }
        r.Used(kind, handle);
        renamed := renamed + [h.value];
    }
  }

  /** Sixteen handles of a kind fit, and no more. */
  lemma SixteenFit(history: seq<Action>, kind: Kind, handle: long, replayed: long)
    ensures |Handles(history, kind)| < 16 || handle in Handles(history, kind) ==> !Fatal(history, Create(kind, handle, replayed))
    ensures |Handles(history, kind)| >= 16 && handle !in Handles(history, kind) ==> Fatal(history, Create(kind, handle, replayed))
  {
  }
}
