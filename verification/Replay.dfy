/** The replayer side of the trace grammar: what the switch of retrace.c reads for each opcode, as a
    function of the file, and which recorded calls it has a decoder for. */
module Replay {
  import opened Words
  import opened Fields
  import opened Commands

  const OPC_VERSION: word := 0xdeafca1f
  const OPC_NONE: word := 0
  const OPC_EOF: word := 0xffff_ffff
  const VERSION_MAJOR: word := 1
  const VERSION_MINOR: word := 0
  const VERSION_REV: word := 0

  /** Slots of the decoder's static attribute list. */
  const ATTRIB_SLOTS := 64

  /** The straight-line decoders of retrace.c: the kinds they get, in order. A missing entry is one
      the decoder refuses (NOT_IMPLEMENTED or no case) or decodes with its own code. */
  function ReplayShape(op: word): Option<seq<Kind>> {
    if op < 150 then ReplayShapeA(op) else if op < 700 then ReplayShapeB(op) else ReplayShapeEgl(op)
  }

  function ReplayShapeA(op: word): Option<seq<Kind>> {
    match op
    case 1 => Some([KStr])
    case 100 => Some(Ints(1))
    case 101 => Some(Ints(2))
    case 102 => Some(Ints(2) + [KStr])
    case 103 | 104 | 105 | 106 => Some(Ints(2))
    case 108 => Some(Ints(1))
    case 109 | 110 => Some(Ints(2))
    case 111 => Some(Ints(4))
    case 112 => Some(Ints(2) + [KBytes, KInt])
    case 113 => Some(Ints(3) + [KBytes])
    case 114 => Some(Ints(2))
    case 115 => Some(Ints(1))
    case 116 => Some(Ints(4))
    case 117 | 118 => Some(Ints(1))
    case 119 => Some(Ints(4))
    case 120 => Some(Ints(1))
    case 121 => Some(Ints(7) + [KBytes])
    case 122 => Some(Ints(8) + [KBytes])
    case 123 | 124 => Some(Ints(8))
    case 125 => Some(Ints(1))
    case 126 => Some(Ints(2))
    case 127 | 130 | 132 | 134 | 135 => Some(Ints(1))
    case 136 | 137 => Some(Ints(2))
    case 138 | 139 => Some(Ints(1))
    case 140 => Some(Ints(3))
    case 142 | 143 => Some(Ints(1))
    case 144 | 145 => Some([])
    case 146 => Some(Ints(4))
    case 147 => Some(Ints(5))
    case 148 => Some(Ints(1))
    case _ => None
  }

  function ReplayShapeB(op: word): Option<seq<Kind>> {
    match op
    case 150 => Some(Ints(1))
    case 157 => Some([KInt, KStr, KInt])
    case 158 => Some(Ints(2))
    case 160 => Some(Ints(1))
    case 161 => Some([KInt, KFloatPtr])
    case 162 => Some(Ints(4))
    case 163 => Some([KInt, KIntPtr])
    case 164 | 166 | 167 => Some(Ints(3))
    case 171 => Some([KInt, KStr])
    case 176 => Some([KInt, KStr, KInt])
    case 189 => Some(Ints(1))
    case 190 | 191 => Some(Ints(2))
    case 194 | 196 => Some(Ints(4))
    case 205 => Some(Ints(8) + [KBytes])
    case 208 => Some(Ints(3))
    case 210 => Some(Ints(8) + [KBytes])
    case 211 => Some(Ints(2))
    case 212 => Some(Ints(2) + [KBytes])
    case 213 => Some(Ints(2))
    case 215 => Some(Ints(3))
    case 219 => Some(Ints(4))
    case 223 => Some(Ints(5))
    case 224 => Some(Ints(2) + [KBytes])
    case 227 | 228 | 229 => Some(Ints(3) + [KBytes])
    case 230 | 231 => Some(Ints(1))
    case 240 => Some(Ints(5) + [KPtr])
    case 241 => Some(Ints(4))
    case _ => None
  }

  function ReplayShapeEgl(op: word): Option<seq<Kind>> {
    match op
    case 701 => Some([KPtr, KPtr])
    case 702 => Some([KPtr, KIntPtr, KIntPtr, KInt])
    case 704 => Some([KPtr, KInt, KStr])
    case 713 => Some(Ints(2))
    case 718 => Some([KPtr, KPtr] + Ints(3))
    case 722 => Some([KPtr, KPtr, KInt])
    case 723 => Some([KPtr, KPtr, KPtr, KPtr, KInt])
    case 730 => Some([KPtr, KPtr, KInt])
    case _ => None
  }

  /** A record body: its values and where it ends, or the decoder giving up. */
  datatype Body = Parsed(vals: seq<Val>, end: nat) | Stopped

  function Read(s: seq<byte>, pos: nat, ks: seq<Kind>, ws: nat): (b: Body)
    requires WordSize(ws)
    ensures b.Parsed? && AreKinds(b.vals, ks) && pos <= b.end
  {
    var (vs, e) := ReadKinds(s, pos, ks, ws);
    Parsed(vs, e)
  }

  /** Put values already read in front of what follows. */
  function After(vs: seq<Val>, rest: Body): (b: Body)
    ensures b.Parsed? <==> rest.Parsed?
    ensures b.Parsed? ==> b.end == rest.end
  {
    match rest
    case Stopped => Stopped
    case Parsed(ws, e) => Parsed(vs + ws, e)
  }

  function ReadNameList(s: seq<byte>, pos: nat, ws: nat): (b: Body)
    requires WordSize(ws)
    ensures b.Parsed? ==> pos <= b.end
  {
    var n := Read(s, pos, [KInt], ws);
    After(n.vals, Read(s, n.end, Ints(Count(n.vals[0].w)), ws))
  }

  function CountTrue(bs: seq<bool>): nat {
    if bs == [] then 0 else (if bs[0] then 1 else 0) + CountTrue(bs[1..])
  }

  /** The kinds the glDrawElements decoder expects under the state it tracks. */
  function DrawKinds(st: Tracked): seq<Kind> {
    [KInt, KInt, KInt, if st.elementBuffer != 0 then KPtr else KBytes]
    + (if st.arrayBuffer == 0 then Copies(KBytes, CountTrue(st.enabled)) else [])
  }

  function BehindKind(v: Val, k: Kind): seq<Kind>
    requires v.VPtr?
  {
    if v.p != 0 then [k] else []
  }

  lemma PointersRead(vs: seq<Val>)
    requires AreKinds(vs, [KInt, KInt, KInt, KPtr, KPtr, KPtr, KPtr])
    ensures |vs| == 7 && vs[3].VPtr? && vs[4].VPtr? && vs[5].VPtr? && vs[6].VPtr?
  {
    var ks := [KInt, KInt, KInt, KPtr, KPtr, KPtr, KPtr];
    assert IsKind(vs[3], ks[3]) && IsKind(vs[4], ks[4]) && IsKind(vs[5], ks[5]) && IsKind(vs[6], ks[6]);
  }

  function ReadActiveUniform(s: seq<byte>, pos: nat, ws: nat): (b: Body)
    requires WordSize(ws)
    ensures b.Parsed? ==> pos <= b.end
  {
    var head := Read(s, pos, [KInt, KInt, KInt, KPtr, KPtr, KPtr, KPtr], ws);
    PointersRead(head.vals);
    After(head.vals, Read(s, head.end,
      BehindKind(head.vals[3], KInt) + (BehindKind(head.vals[4], KInt)
      + (BehindKind(head.vals[5], KInt) + BehindKind(head.vals[6], KStr))), ws))
  }

  function ReadSources(s: seq<byte>, pos: nat, n: nat, ws: nat): (b: Body)
    requires WordSize(ws)
    ensures b.Parsed? ==> pos <= b.end
    decreases n
  {
    if n == 0 then Parsed([], pos) else
    var (len, p) := GetWord(s, pos);
    var (text, q) := Get(s, p, if Signed(len) > 0 then KBytes else KStr, ws);
    After([VInt(len), text], ReadSources(s, q, n - 1, ws))
  }

  function ReadShaderSource(s: seq<byte>, pos: nat, ws: nat): (b: Body)
    requires WordSize(ws)
    ensures b.Parsed? ==> pos <= b.end
  {
    var head := Read(s, pos, [KInt, KInt], ws);
    assert IsKind(head.vals[1], [KInt, KInt][1]);
    After(head.vals, ReadSources(s, head.end, Count(head.vals[1].w), ws))
  }

  /** The attribute list loop with `i` slots used: stops at the terminator, gives up when full. */
  function ReadAttribs(s: seq<byte>, pos: nat, i: nat): (b: Body)
    ensures b.Parsed? ==> pos <= b.end
    decreases ATTRIB_SLOTS - i
  {
    if i >= ATTRIB_SLOTS then Stopped else
    var (key, p) := GetWord(s, pos);
    if key == EGL_NONE then Parsed([VInt(key)], p) else
    var (value, q) := GetWord(s, p);
    After([VInt(key), VInt(value)], ReadAttribs(s, q, i + 2))
  }

  function ReadConfigs(s: seq<byte>, pos: nat, ws: nat): (b: Body)
    requires WordSize(ws)
    ensures b.Parsed? ==> pos <= b.end
  {
    var head := Read(s, pos, [KInt, KInt], ws);
    assert IsKind(head.vals[0], KInt) && IsKind(head.vals[1], [KInt, KInt][1]);
    var size, num := Count(head.vals[0].w), Count(head.vals[1].w);
    var configs := Read(s, head.end, Copies(KPtr, if num < size then num else size), ws);
    After(head.vals, After(configs.vals, Read(s, configs.end, [KInt], ws)))
  }

  /** Pointers, an attribute list, and what comes behind it. */
  function ReadChooseConfig(s: seq<byte>, pos: nat, ws: nat): (b: Body)
    requires WordSize(ws)
    ensures b.Parsed? ==> pos <= b.end
  {
    var dpy := Read(s, pos, [KPtr], ws);
    match ReadAttribs(s, dpy.end, 0)
    case Stopped => Stopped
    case Parsed(vs, e) => After(dpy.vals, After(vs, ReadConfigs(s, e, ws)))
  }

  function ReadCreateHandle(s: seq<byte>, pos: nat, ws: nat): (b: Body)
    requires WordSize(ws)
    ensures b.Parsed? ==> pos <= b.end
  {
    var head := Read(s, pos, [KPtr, KPtr, KPtr], ws);
    match ReadAttribs(s, head.end, 0)
    case Stopped => Stopped
    case Parsed(vs, e) => After(head.vals, After(vs, Read(s, e, [KPtr], ws)))
  }

  /** The decoder's switch. */
  function ReadBody(s: seq<byte>, pos: nat, st: Tracked, op: word, ws: nat): (b: Body)
    requires WordSize(ws)
    ensures b.Parsed? ==> pos <= b.end
  {
    match ReplayShape(op)
    case Some(ks) => Read(s, pos, ks, ws)
    case None =>
      if NameListOp(op) then ReadNameList(s, pos, ws)
      else if op == OPC_DRAW_ELEMENTS then Read(s, pos, DrawKinds(st), ws)
      else if op == OPC_GET_ACTIVE_UNIFORM then ReadActiveUniform(s, pos, ws)
      else if op == OPC_SHADER_SOURCE then ReadShaderSource(s, pos, ws)
      else if op == OPC_CHOOSE_CONFIG then ReadChooseConfig(s, pos, ws)
      else if op == OPC_CREATE_WINDOW_SURFACE || op == OPC_CREATE_CONTEXT then ReadCreateHandle(s, pos, ws)
      else Stopped
  }

  // ---------------------------------------------------------------- record round trip

  /** Calls the tracer records but the replayer has no decoder for. */
  predicate Unreplayed(op: word) {
    op in {107, 217, 221, 225, 226, 703}  // BlendColor, Uniform2i/3i/4i/4iv, eglTerminate
  }

  /** The guard of the decoder: an implemented opcode, no escaped float, room in the attribute list. */
  predicate Replayable(c: Call) {
    match c
    case Plain(op, args) => !Unreplayed(op) && NoEscape(args)
    case ChooseConfig(_, attribs, _, _, _, _) => 2 * |attribs| < ATTRIB_SLOTS
    case CreateHandle(_, _, _, _, attribs, _) => 2 * |attribs| < ATTRIB_SLOTS
    case _ => true
  }

  lemma TablesAgreeA(op: word)
    requires op < 150 && TracerShapeA(op).Some?
    ensures ReplayShapeA(op) == (if Unreplayed(op) then None else TracerShapeA(op))
  {
    hide Ints;
  }

  lemma TablesAgreeB(op: word)
    requires 150 <= op < 700 && TracerShapeB(op).Some?
    ensures ReplayShapeB(op) == (if Unreplayed(op) then None else TracerShapeB(op))
  {
    hide Ints;
  }

  lemma TablesAgreeEgl(op: word)
    requires 700 <= op && TracerShapeEgl(op).Some?
    ensures ReplayShapeEgl(op) == (if Unreplayed(op) then None else TracerShapeEgl(op))
  {
    hide Ints;
  }

  /** Tracer and replayer tables agree on every opcode except those the replayer lacks. */
  lemma TablesAgree(op: word)
    requires TracerShape(op).Some?
    ensures ReplayShape(op) == (if Unreplayed(op) then None else TracerShape(op))
  {
    hide TracerShapeA, TracerShapeB, TracerShapeEgl, ReplayShapeA, ReplayShapeB, ReplayShapeEgl;
    hide Ints, Unreplayed;
    if op < 150 {
      TablesAgreeA(op);
    } else if op < 700 {
      TablesAgreeB(op);
    } else {
      TablesAgreeEgl(op);
    }
  }

  lemma NameListsDecoded(op: word)
    requires NameListOp(op)
    ensures ReplayShape(op) == None
  {
    hide Ints, ReplayShapeEgl;
  }

  /** The calls with decoders of their own. */
  lemma CallsDecoded(op: word)
    requires op in {OPC_DRAW_ELEMENTS, OPC_GET_ACTIVE_UNIFORM, OPC_SHADER_SOURCE,
                    OPC_CHOOSE_CONFIG, OPC_CREATE_WINDOW_SURFACE, OPC_CREATE_CONTEXT}
    ensures ReplayShape(op) == None
  {
    hide Ints;
  }

  /** No recorded opcode reads as a thread prefix or as the end of the trace. */
  lemma OpcodesAreCommands(c: Call, ws: nat)
    requires Recordable(c, ws)
    ensures Opcode(c) !in {OPC_NONE, OPC_EOF, OPC_THREAD}
  {
    hide Ints, TracerShapeB;
  }

  // ---------------------------------------------------------------- families of calls

  /** Every opcode from 100 to 149 has its record: straight-line, a list of names, or the draw; and only the
      lists of names are two of these. */
  lemma OpcodesCovered(op: word)
    requires 100 <= op < 150
    ensures TracerShape(op).Some? <==> op !in {128, 129, 131, 133, 141, 149}
    ensures NameListOp(op) <==> op in {128, 129, 131, 133, 149}
  {
    hide Ints;
  }

  /** The lists of names behind them. */
  lemma NameListsCovered(op: word)
    requires op >= 150
    ensures NameListOp(op) <==> 151 <= op <= 153
  {
  }

  /** glUniform{1,2,3,4}{f,i} put the location and their 1 to 4 values; glUniformMatrix{2,3,4}fv location, count,
      the transposition flag and a block. */
  lemma UniformFamily(n: nat)
    requires 1 <= n <= 4
    ensures TracerShape(207 + 4 * n) == Some(Ints(n + 1)) && TracerShape(209 + 4 * n) == Some(Ints(n + 1))
    ensures n > 1 ==> TracerShape(225 + n) == Some(Ints(3) + [KBytes])
  {
    hide Ints;
  }
}
