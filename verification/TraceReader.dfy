/** The decoder of retrace.c as it runs: a position in the mapped file, the current thread and the
    mirrored GL state, updated command by command. Its loops deliver what the functions of Replay and
    Trace say, and playing a trace frame by frame delivers the same commands as playing it at once. */
module TraceReader {
  import opened Words
  import opened Fields
  import opened Commands
  import opened Replay
  import opened Trace

  // ---------------------------------------------------------------- frames

  /** The commands up to and including the `frames`-th buffer swap, and where the decoder then stands;
      a negative number asks for all of them. */
  function DecodeFrames(s: seq<byte>, cur: Cursor, frames: int, ws: nat): (r: (seq<Item>, Cursor))
    requires WordSize(ws)
    decreases if cur.pos <= |s| then |s| - cur.pos else 0
  {
    if frames == 0 then ([], cur) else
    match ReadItem(s, cur, ws)
    case End => ([], cur)
    case Got(item, next) =>
      var (items, last) := DecodeFrames(s, next, FramesLeft(frames, item), ws);
      ([item] + items, last)
  }

  lemma FramesStep(s: seq<byte>, cur: Cursor, frames: int, before: seq<Item>, ws: nat)
    requires WordSize(ws) && frames != 0
    ensures ReadItem(s, cur, ws) == End ==> DecodeFrames(s, cur, frames, ws) == ([], cur)
    ensures var got := ReadItem(s, cur, ws);
            got.Got? ==>
              var rest := DecodeFrames(s, got.cur, FramesLeft(frames, got.item), ws);
              && before + DecodeFrames(s, cur, frames, ws).0 == (before + [got.item]) + rest.0
              && DecodeFrames(s, cur, frames, ws).1 == rest.1
  {
    hide ReadItem, FramesLeft;
    var got := ReadItem(s, cur, ws);
    if got.Got? {
      var rest := DecodeFrames(s, got.cur, FramesLeft(frames, got.item), ws);
      assert before + ([got.item] + rest.0) == (before + [got.item]) + rest.0;
    }
  }

  function FramesLeft(frames: int, item: Item): int {
    if item.op == OPC_SWAP_BUFFERS then frames - 1 else frames
  }

  function Swaps(items: seq<Item>): nat {
    if items == [] then 0 else (if items[0].op == OPC_SWAP_BUFFERS then 1 else 0) + Swaps(items[1..])
  }

  /** Asking for all frames is the decoder loop to the end. */
  lemma {:induction false} AllFrames(s: seq<byte>, cur: Cursor, frames: int, ws: nat)
    requires WordSize(ws) && frames < 0
    ensures DecodeFrames(s, cur, frames, ws).0 == Decode(s, cur, ws)
    decreases if cur.pos <= |s| then |s| - cur.pos else 0
  {
    hide ReadItem;
    match ReadItem(s, cur, ws)
    case End =>
    case Got(item, next) => AllFrames(s, next, FramesLeft(frames, item), ws);
  }

  /** A bounded request delivers at most that many swaps, and fewer only at the end of the trace. */
  lemma {:induction false} FramesCounted(s: seq<byte>, cur: Cursor, frames: nat, ws: nat)
    requires WordSize(ws)
    ensures var (items, last) := DecodeFrames(s, cur, frames, ws);
            Swaps(items) <= frames && (Swaps(items) < frames ==> ReadItem(s, last, ws) == End)
    decreases if cur.pos <= |s| then |s| - cur.pos else 0
  {
    hide ReadItem;
    if frames != 0 {
      match ReadItem(s, cur, ws)
      case End =>
      case Got(item, next) =>
        FramesCounted(s, next, FramesLeft(frames, item), ws);
        var items := DecodeFrames(s, next, FramesLeft(frames, item), ws).0;
        assert ([item] + items)[1..] == items;
    }
  }

  /** Single stepping: playing `a` frames and then `b` more is playing `a + b` frames. */
  lemma {:induction false} FramesCompose(s: seq<byte>, cur: Cursor, a: nat, b: nat, ws: nat)
    requires WordSize(ws)
    ensures var (first, mid) := DecodeFrames(s, cur, a, ws);
            var (second, last) := DecodeFrames(s, mid, b, ws);
            DecodeFrames(s, cur, a + b, ws) == (first + second, last)
    decreases if cur.pos <= |s| then |s| - cur.pos else 0
  {
    hide ReadItem;
    if a == 0 {
      assert [] + DecodeFrames(s, cur, b, ws).0 == DecodeFrames(s, cur, b, ws).0;
    } else {
      match ReadItem(s, cur, ws)
      case End =>
        var none: seq<Item> := [];
        assert DecodeFrames(s, cur, a, ws) == DecodeFrames(s, cur, b, ws) == (none, cur);
        assert none + none == none;
      case Got(item, next) =>
        FramesCompose(s, next, FramesLeft(a, item), b, ws);
        var (first, mid) := DecodeFrames(s, next, FramesLeft(a, item), ws);
        var second := DecodeFrames(s, mid, b, ws).0;
        assert FramesLeft(a, item) + b == FramesLeft(a + b, item);
        assert [item] + (first + second) == ([item] + first) + second;
    }
  }

  // ---------------------------------------------------------------- loops over fields

  lemma CopiesCons(k: Kind, n: nat)
    requires n > 0
    ensures Copies(k, n) == [k] + Copies(k, n - 1)
  {
  }

  class Reader {
    const file: seq<byte>
    const ws: nat
    var pos: nat
    var thread: long
    var arrayBuffer: word
    var elementBuffer: word
    const enabled: array<bool>

    ghost predicate Valid() {
      WordSize(ws) && enabled.Length == MAX_VERTEX_ATTRIBS
    }

    ghost function Mirror(): Tracked
      reads `arrayBuffer, `elementBuffer, enabled
    {
      Tracked(arrayBuffer, elementBuffer, enabled[..])
    }

    ghost function Standing(): Cursor
      reads this, enabled
    {
      Cursor(pos, thread, Mirror())
    }

    /** Ready to decode behind the header. */
    constructor (data: seq<byte>, wordSize: nat)
      requires WordSize(wordSize)
      ensures Valid() && fresh(enabled) && file == data && ws == wordSize
      ensures Standing() == Cursor(20, 0, Initially())
    {
      file, ws, pos, thread := data, wordSize, 20, 0;
      arrayBuffer, elementBuffer := 0, 0;
      enabled := new bool[MAX_VERTEX_ATTRIBS](i => false);
      new;
      assert enabled[..] == Initially().enabled;
    }

    method GetOne(k: Kind) returns (v: Val)
      requires Valid()
      modifies `pos
      ensures (v, pos) == Get(file, old(pos), k, ws)
    {
      var (val, next) := Get(file, pos, k, ws);
      v, pos := val, next;
    }

    /** The arguments of a straight-line command. */
    method GetAll(ks: seq<Kind>) returns (vals: seq<Val>)
      requires Valid()
      modifies `pos
      ensures Parsed(vals, pos) == Read(file, old(pos), ks, ws)
    {
      hide Get, Read, After;
      vals := [];
      var i := 0;
      AfterNothing(Read(file, pos, ks, ws));
      assert ks[0..] == ks;
      while i < |ks|
        invariant i <= |ks|
        invariant Read(file, old(pos), ks, ws) == After(vals, Read(file, pos, ks[i..], ws))
      {
        assert ks[i..] == [ks[i]] + ks[i + 1..];
        ReadCons(file, pos, ks[i], ks[i + 1..], ws);
        var v := GetOne(ks[i]);
        AfterTwice(vals, [v], Read(file, pos, ks[i + 1..], ws));
        vals := vals + [v];
        i := i + 1;
      }
      assert ks[i..] == [];
      ReadNothing(file, pos, vals, ws);
    }

    /** A counted run of arguments: names, configurations. */
    method GetRun(k: Kind, n: nat) returns (vals: seq<Val>)
      requires Valid()
      modifies `pos
      ensures Parsed(vals, pos) == Read(file, old(pos), Copies(k, n), ws)
    {
      hide Get, Read, After, Copies;
      vals := [];
      var i := 0;
      AfterNothing(Read(file, pos, Copies(k, n), ws));
      while i < n
        invariant i <= n
        invariant Read(file, old(pos), Copies(k, n), ws) == After(vals, Read(file, pos, Copies(k, n - i), ws))
      {
        CopiesCons(k, n - i);
        ReadCons(file, pos, k, Copies(k, n - i - 1), ws);
        var v := GetOne(k);
        AfterTwice(vals, [v], Read(file, pos, Copies(k, n - i - 1), ws));
        vals := vals + [v];
        i := i + 1;
      }
      ReadNothing(file, pos, vals, ws);
      assert Copies(k, 0) == [];
    }

    /** The vertex arrays of a draw command: one block for every enabled attribute. */
    method GetArrays() returns (vals: seq<Val>)
      requires Valid()
      modifies `pos
      ensures Parsed(vals, pos) == Read(file, old(pos), Copies(KBytes, CountTrue(enabled[..])), ws)
    {
      hide Get, Read, After, Copies;
      vals := [];
      var i := 0;
      AfterNothing(Read(file, pos, Copies(KBytes, CountTrue(enabled[..])), ws));
      assert enabled[0..] == enabled[..];
      while i < MAX_VERTEX_ATTRIBS
        invariant i <= MAX_VERTEX_ATTRIBS
        invariant Read(file, old(pos), Copies(KBytes, CountTrue(enabled[..])), ws)
               == After(vals, Read(file, pos, Copies(KBytes, CountTrue(enabled[i..])), ws))
      {
        assert enabled[i..][1..] == enabled[i + 1..];
        if enabled[i] {
          var more := CountTrue(enabled[i + 1..]);
          CopiesCons(KBytes, more + 1);
          ReadCons(file, pos, KBytes, Copies(KBytes, more), ws);
          var v := GetOne(KBytes);
          AfterTwice(vals, [v], Read(file, pos, Copies(KBytes, more), ws));
          vals := vals + [v];
        }
        i := i + 1;
      }
      ReadNothing(file, pos, vals, ws);
      assert enabled[i..] == [] && Copies(KBytes, 0) == [];
    }

    /** Shader strings: a length, then a block or a string. */
    method GetSources(n: nat) returns (b: Body)
      requires Valid()
      modifies `pos
      ensures b == ReadSources(file, old(pos), n, ws) && b.Parsed? && b.end == pos
    {
      hide Get, GetWord;
      var vals: seq<Val> := [];
      var i := 0;
      while i < n
        invariant i <= n
        invariant ReadSources(file, old(pos), n, ws) == After(vals, ReadSources(file, pos, n - i, ws))
      {
        var (len, next) := GetWord(file, pos);
        pos := next;
        var text := GetOne(if Signed(len) > 0 then KBytes else KStr);
        AfterTwice(vals, [VInt(len), text], ReadSources(file, pos, n - i - 1, ws));
        vals := vals + [VInt(len), text];
        i := i + 1;
      }
      b := Parsed(vals, pos);
      assert vals + [] == vals;
    }

    /** An attribute list: stored in a list of 64 slots, given up when those do not suffice. */
    method GetAttribs() returns (b: Body)
      requires Valid()
      modifies `pos
      ensures b == ReadAttribs(file, old(pos), 0) && (b.Parsed? ==> b.end == pos)
    {
      hide GetWord;
      var slots := new word[ATTRIB_SLOTS];
      var vals: seq<Val> := [];
      var i := 0;
      while true
        invariant i <= ATTRIB_SLOTS && i % 2 == 0
        invariant |vals| == i && forall j :: 0 <= j < i ==> vals[j] == VInt(slots[j])
        invariant ReadAttribs(file, old(pos), 0) == After(vals, ReadAttribs(file, pos, i))
        decreases ATTRIB_SLOTS - i
      {
        if i >= ATTRIB_SLOTS {
          return Stopped;
        }
        var (key, p) := GetWord(file, pos);
        slots[i], pos := key, p;
        if key == EGL_NONE {
          return Parsed(vals + [VInt(key)], pos);
        }
        var (value, q) := GetWord(file, pos);
        slots[i + 1], pos := value, q;
        AfterTwice(vals, [VInt(key), VInt(value)], ReadAttribs(file, pos, i + 2));
        vals := vals + [VInt(key), VInt(value)];
        i := i + 2;
      }
    }

    // -------------------------------------------------------------- commands

    method GetNameList() returns (b: Body)
      requires Valid()
      modifies `pos
      ensures b == ReadNameList(file, old(pos), ws) && b.Parsed? && b.end == pos
    {
      hide ReadKinds;
      var n := GetAll([KInt]);
      var names := GetRun(KInt, Count(n[0].w));
      b := Parsed(n + names, pos);
    }

    method GetDraw() returns (b: Body)
      requires Valid()
      modifies `pos
      ensures b == Read(file, old(pos), DrawKinds(Mirror()), ws) && b.Parsed? && b.end == pos
    {
      hide ReadKinds, CountTrue, Read;
      var head := GetAll([KInt, KInt, KInt, if elementBuffer != 0 then KPtr else KBytes]);
      ghost var mid := pos;
      var arrays := [];
      if arrayBuffer == 0 {
        arrays := GetArrays();
      } else {
        ReadNothing(file, pos, [], ws);
        AfterNothing(Read(file, pos, [], ws));
      }
      b := Parsed(head + arrays, pos);
      ReadConcat(file, old(pos), [KInt, KInt, KInt, if elementBuffer != 0 then KPtr else KBytes],
                 if arrayBuffer == 0 then Copies(KBytes, CountTrue(enabled[..])) else [], ws);
    }

    method GetActiveUniformBody() returns (b: Body)
      requires Valid()
      modifies `pos
      ensures b == ReadActiveUniform(file, old(pos), ws) && b.Parsed? && b.end == pos
    {
      hide ReadKinds;
      var head := GetAll([KInt, KInt, KInt, KPtr, KPtr, KPtr, KPtr]);
      PointersRead(head);
      var rest := GetAll(BehindKind(head[3], KInt) + (BehindKind(head[4], KInt)
                         + (BehindKind(head[5], KInt) + BehindKind(head[6], KStr))));
      b := Parsed(head + rest, pos);
    }

    method GetShaderSource() returns (b: Body)
      requires Valid()
      modifies `pos
      ensures b == ReadShaderSource(file, old(pos), ws) && b.Parsed? && b.end == pos
    {
      hide ReadKinds, ReadSources;
      var head := GetAll([KInt, KInt]);
      assert IsKind(head[1], [KInt, KInt][1]);
      var rest := GetSources(Count(head[1].w));
      b := Parsed(head + rest.vals, pos);
    }

    method GetConfigs() returns (b: Body)
      requires Valid()
      modifies `pos
      ensures b == ReadConfigs(file, old(pos), ws) && b.Parsed? && b.end == pos
    {
      hide ReadKinds;
      var head := GetAll([KInt, KInt]);
      assert IsKind(head[0], [KInt, KInt][0]) && IsKind(head[1], [KInt, KInt][1]);
      var size, num := Count(head[0].w), Count(head[1].w);
      var configs := GetRun(KPtr, if num < size then num else size);
      var chosen := GetAll([KInt]);
      b := Parsed(head + (configs + chosen), pos);
    }

    method GetChooseConfig() returns (b: Body)
      requires Valid()
      modifies `pos
      ensures b == ReadChooseConfig(file, old(pos), ws) && (b.Parsed? ==> b.end == pos)
    {
      hide ReadKinds, ReadAttribs, ReadConfigs;
      var dpy := GetAll([KPtr]);
      var attribs := GetAttribs();
      if attribs.Stopped? {
        return Stopped;
      }
      var rest := GetConfigs();
      b := Parsed(dpy + (attribs.vals + rest.vals), pos);
    }

    method GetCreateHandle() returns (b: Body)
      requires Valid()
      modifies `pos
      ensures b == ReadCreateHandle(file, old(pos), ws) && (b.Parsed? ==> b.end == pos)
    {
      hide ReadKinds, ReadAttribs;
      var head := GetAll([KPtr, KPtr, KPtr]);
      var attribs := GetAttribs();
      if attribs.Stopped? {
        return Stopped;
      }
      var handle := GetAll([KPtr]);
      b := Parsed(head + (attribs.vals + handle), pos);
    }

    /** The switch over commands. */
    method GetBody(op: word) returns (b: Body)
      requires Valid()
      modifies `pos
      ensures b == ReadBody(file, old(pos), Mirror(), op, ws) && (b.Parsed? ==> b.end == pos)
    {
      hide ReadKinds, ReadNameList, ReadActiveUniform, ReadShaderSource, ReadChooseConfig, ReadCreateHandle;
      hide ReplayShape, DrawKinds, Read;
      var shape := ReplayShape(op);
      if shape.Some? {
        var vals := GetAll(shape.value);
        b := Parsed(vals, pos);
      } else if NameListOp(op) {
        b := GetNameList();
      } else if op == OPC_DRAW_ELEMENTS {
        b := GetDraw();
      } else if op == OPC_GET_ACTIVE_UNIFORM {
        b := GetActiveUniformBody();
      } else if op == OPC_SHADER_SOURCE {
        b := GetShaderSource();
      } else if op == OPC_CHOOSE_CONFIG {
        b := GetChooseConfig();
      } else if op == OPC_CREATE_WINDOW_SURFACE || op == OPC_CREATE_CONTEXT {
        b := GetCreateHandle();
      } else {
        b := Stopped;
      }
    }

    /** The thread prefix, if any, and the command word. */
    method GetLead() returns (cmd: word)
      requires Valid()
      modifies `pos, `thread
      ensures ReadLead(file, old(Standing()), ws) == Lead(thread, cmd, pos)
    {
      var (first, p) := GetCmd(file, pos);
      cmd, pos := first, p;
      if cmd == OPC_THREAD {
        var (t, q) := GetPtr(file, pos, ws);
        thread, pos := t, q;
        var (second, r) := GetCmd(file, pos);
        cmd, pos := second, r;
      }
    }

    /** Mirror the effect of a command on bindings and enabled attributes. */
    method Follow(op: word, vals: seq<Val>)
      requires Valid()
      modifies `arrayBuffer, `elementBuffer, enabled
      ensures Mirror() == AfterItem(old(Mirror()), op, vals)
    {
      if op == OPC_BIND_BUFFER && |vals| == 2 && vals[0].VInt? && vals[1].VInt? {
        if vals[0].w == GL_ARRAY_BUFFER {
          arrayBuffer := vals[1].w;
        } else if vals[0].w == GL_ELEMENT_ARRAY_BUFFER {
          elementBuffer := vals[1].w;
        }
      } else if op in {OPC_ENABLE_ATTRIB, OPC_DISABLE_ATTRIB}
             && |vals| == 1 && vals[0].VInt? && vals[0].w < enabled.Length {
        enabled[vals[0].w] := op == OPC_ENABLE_ATTRIB;
      }
    }

    /** One turn of the decoder loop. */
    method GetItem() returns (item: Option<Item>)
      requires Valid()
      modifies this, enabled
      ensures match ReadItem(file, old(Standing()), ws)
              case End => item == None
              case Got(i, next) => item == Some(i) && Standing() == next
    {
      hide ReadLead, ReadBody, AfterItem, GetLong;
      var op := GetLead();
      if op == OPC_NONE || op == OPC_EOF {
        return None;
      }
      var body := GetBody(op);
      if body.Stopped? {
        return None;
      }
      Follow(op, body.vals);
      var (bgn, p) := GetLong(file, pos);
      var (end, q) := GetLong(file, p);
      pos := q;
      item := Some(Item(thread, op, body.vals, bgn, end));
    }

    /** The decoder loop: `complete` tells whether all the frames asked for were there. */
    method Process(frames: int) returns (items: seq<Item>, complete: bool)
      requires Valid()
      modifies this, enabled
      ensures items == DecodeFrames(file, old(Standing()), frames, ws).0
      ensures complete ==> Standing() == DecodeFrames(file, old(Standing()), frames, ws).1
      ensures frames < 0 ==> items == Decode(file, old(Standing()), ws)
    {
      hide ReadItem, FramesLeft, Decode, DecodeFrames;
      if frames < 0 {
        AllFrames(file, Standing(), frames, ws);
      }
      ghost var all := DecodeFrames(file, Standing(), frames, ws);
      var left := frames;
      items := [];
      while left != 0
        invariant Valid()
        invariant all.0 == items + DecodeFrames(file, Standing(), left, ws).0
        invariant all.1 == DecodeFrames(file, Standing(), left, ws).1
        decreases if Standing().pos <= |file| then |file| - Standing().pos else 0
      {
        FramesStep(file, Standing(), left, items, ws);
        var item := GetItem();
        if item == None {
          return items, false;
        }
        left := FramesLeft(left, item.value);
        items := items + [item.value];
      }
      complete := true;
      FramesDone(file, Standing(), ws);
    }
  }

  lemma FramesDone(s: seq<byte>, cur: Cursor, ws: nat)
    requires WordSize(ws)
    ensures DecodeFrames(s, cur, 0, ws) == ([], cur)
  {
  }

  /** Opening a trace and playing all of it. */
  method ReplayFile(file: seq<byte>) returns (items: Option<seq<Item>>)
    ensures items == DecodeFile(file)
  {
    hide Decode;
    var version, ws := GetWord(file, 0).0, GetWord(file, 16).0;
    if |file| < 20 || version != OPC_VERSION || !WordSize(ws) {
      return None;
    }
    var reader := new Reader(file, ws);
    var all, complete := reader.Process(-1);
    items := Some(all);
  }

  lemma {:induction false} ReadConcat(s: seq<byte>, pos: nat, a: seq<Kind>, b: seq<Kind>, ws: nat)
    requires WordSize(ws)
    ensures var head := Read(s, pos, a, ws);
            Read(s, pos, a + b, ws) == After(head.vals, Read(s, head.end, b, ws))
    decreases |a|
  {
    hide Get;
    if a == [] {
      AfterNothing(Read(s, pos, b, ws));
      assert a + b == b;
    } else {
      var (v, q) := Get(s, pos, a[0], ws);
      assert a == [a[0]] + a[1..] && a + b == [a[0]] + (a[1..] + b);
      ReadCons(s, pos, a[0], a[1..], ws);
      ReadCons(s, pos, a[0], a[1..] + b, ws);
      ReadConcat(s, q, a[1..], b, ws);
      var mid := Read(s, q, a[1..], ws);
      AfterTwice([v], mid.vals, Read(s, mid.end, b, ws));
    }
  }

  lemma ReadNothing(s: seq<byte>, pos: nat, vals: seq<Val>, ws: nat)
    requires WordSize(ws)
    ensures After(vals, Read(s, pos, [], ws)) == Parsed(vals, pos)
  {
    assert vals + [] == vals;
  }

  lemma ReadCons(s: seq<byte>, pos: nat, k: Kind, ks: seq<Kind>, ws: nat)
    requires WordSize(ws)
    ensures var (v, q) := Get(s, pos, k, ws); Read(s, pos, [k] + ks, ws) == After([v], Read(s, q, ks, ws))
  {
    hide Get, ReadKinds;
    ReadKindsCons(s, pos, k, ks, ws);
  }

  lemma AfterNothing(rest: Body)
    ensures After([], rest) == rest
  {
    if rest.Parsed? {
      assert [] + rest.vals == rest.vals;
    }
  }

  lemma AfterTwice(a: seq<Val>, b: seq<Val>, rest: Body)
    ensures After(a, After(b, rest)) == After(a + b, rest)
  {
    if rest.Parsed? {
      assert a + (b + rest.vals) == (a + b) + rest.vals;
    }
  }
}
