/** The tracer side of the trace grammar: which fields each intercepted GL or EGL call appends,
    and the GL state the tracer has to follow because the shape of a record depends on it. */
module Commands {
  import opened Words
  import opened Fields

  const OPC_THREAD: word := 2
  const OPC_BIND_BUFFER: word := 103
  const OPC_DISABLE_ATTRIB: word := 139
  const OPC_DRAW_ELEMENTS: word := 141
  const OPC_ENABLE_ATTRIB: word := 143
  const OPC_GET_ACTIVE_UNIFORM: word := 155
  const OPC_GET_FLOATV: word := 161
  const OPC_SHADER_SOURCE: word := 198
  const OPC_ATTRIB_POINTER: word := 240
  const OPC_CHOOSE_CONFIG: word := 706
  const OPC_CREATE_WINDOW_SURFACE: word := 708
  const OPC_CREATE_CONTEXT: word := 721
  const OPC_SWAP_BUFFERS: word := 730

  const GL_ARRAY_BUFFER: word := 0x8892
  const GL_ELEMENT_ARRAY_BUFFER: word := 0x8893
  const EGL_NONE: word := 0x3038

  const MAX_VERTEX_ATTRIBS := 128

  /** glDelete* and glGen* for buffers, framebuffers, renderbuffers and textures. */
  predicate NameListOp(op: word) {
    op in {128, 129, 131, 133, 149, 151, 152, 153}
  }

  /** Buffer bindings and enabled vertex attributes, as the tracer and the replayer each track them. */
  datatype Tracked = Tracked(arrayBuffer: word, elementBuffer: word, enabled: seq<bool>) {
    predicate Valid() {
      |enabled| == MAX_VERTEX_ATTRIBS
    }
  }

  /** Nothing bound, nothing enabled. */
  function Initially(): (st: Tracked)
    ensures st.Valid()
  {
    Tracked(0, 0, seq(MAX_VERTEX_ATTRIBS, i => false))
  }

  datatype Source = Source(length: word, text: Option<seq<byte>>)

  datatype Pair = Pair(key: word, value: word)

  /** One intercepted call with the data that reaches the trace: arguments, results, and the client
      memory behind pointers. */
  datatype Call =
    | Plain(op: word, args: seq<Field>)
    | NameList(op: word, n: word, names: seq<word>)
    | DrawElements(mode: word, count: word, typ: word, indices: long,
                   indexSize: word, indexData: Option<seq<byte>>, packed: seq<seq<byte>>)
    | GetActiveUniform(program: word, index: word, bufsize: word,
                       lengthPtr: long, sizePtr: long, typePtr: long, namePtr: long,
                       length: word, size: word, typ: word, name: seq<byte>)
    | ShaderSource(shader: word, count: word, sources: seq<Source>)
    | ChooseConfig(dpy: long, attribs: seq<Pair>, configSize: word, numConfig: word,
                   configs: seq<long>, chosen: word)
    | CreateHandle(op: word, dpy: long, config: long, other: long, attribs: seq<Pair>, handle: long)

  function Opcode(c: Call): word {
    match c
    case Plain(op, _) => op
    case NameList(op, _, _) => op
    case DrawElements(_, _, _, _, _, _, _) => OPC_DRAW_ELEMENTS
    case GetActiveUniform(_, _, _, _, _, _, _, _, _, _, _) => OPC_GET_ACTIVE_UNIFORM
    case ShaderSource(_, _, _) => OPC_SHADER_SOURCE
    case ChooseConfig(_, _, _, _, _, _) => OPC_CHOOSE_CONFIG
    case CreateHandle(op, _, _, _, _, _) => op
  }

  function Copies(k: Kind, n: nat): (ks: seq<Kind>)
    ensures |ks| == n && forall i :: 0 <= i < n ==> ks[i] == k
  {
    seq(n, i => k)
  }

  function Ints(n: nat): seq<Kind> {
    Copies(KInt, n)
  }

  /** The straight-line encoders of gles.c, egl.c and agent.c (Linux build): the kinds of the
      fields they put, in order. */
  function TracerShape(op: word): Option<seq<Kind>> {
    if op < 150 then TracerShapeA(op) else if op < 700 then TracerShapeB(op) else TracerShapeEgl(op)
  }

  function TracerShapeA(op: word): Option<seq<Kind>> {
    match op
    case 1 => Some([KStr])                                        // mark
    case 144 | 145 => Some([])                                    // Finish, Flush
    case 100 | 108 | 115 | 117 | 118 | 120 | 125 | 127 | 130 | 132 | 134 | 135 | 138 | 139 | 142
       | 143 | 148 => Some(Ints(1))
    case 101 | 103 | 104 | 105 | 106 | 109 | 110 | 114 | 126 | 136 | 137 => Some(Ints(2))
    case 140 => Some(Ints(3))
    case 107 | 111 | 116 | 119 | 146 => Some(Ints(4))
    case 147 => Some(Ints(5))
    case 123 | 124 => Some(Ints(8))
    case 102 => Some(Ints(2) + [KStr])                            // BindAttribLocation
    case 112 => Some(Ints(2) + [KBytes, KInt])                    // BufferData
    case 113 => Some(Ints(3) + [KBytes])                          // BufferSubData
    case 121 => Some(Ints(7) + [KBytes])                          // CompressedTexImage2D
    case 122 => Some(Ints(8) + [KBytes])                          // CompressedTexSubImage2D
    case _ => None
  }

  function TracerShapeB(op: word): Option<seq<Kind>> {
    match op
    case 150 | 160 | 189 | 230 | 231 => Some(Ints(1))
    case 158 | 190 | 191 | 211 | 213 => Some(Ints(2))
    case 164 | 166 | 167 | 208 | 215 | 217 => Some(Ints(3))
    case 162 | 194 | 196 | 219 | 221 | 241 => Some(Ints(4))
    case 223 | 225 => Some(Ints(5))
    case 157 | 176 => Some([KInt, KStr, KInt])                    // GetAttribLocation, GetUniformLocation
    case 171 => Some([KInt, KStr])                                // GetString
    case 227 | 228 | 229 => Some(Ints(3) + [KBytes])              // UniformMatrix2fv, 3fv, 4fv
    case 212 | 224 | 226 => Some(Ints(2) + [KBytes])              // Uniform1fv, Uniform4fv, Uniform4iv
    case 205 | 210 => Some(Ints(8) + [KBytes])                    // TexImage2D, TexSubImage2D
    case 161 => Some([KInt, KFloatPtr])                           // GetFloatv
    case 163 => Some([KInt, KIntPtr])                             // GetIntegerv
    case 240 => Some(Ints(5) + [KPtr])                            // VertexAttribPointer
    case _ => None
  }

  function TracerShapeEgl(op: word): Option<seq<Kind>> {
    match op
    case 701 => Some([KPtr, KPtr])                                // eglGetDisplay
    case 702 => Some([KPtr, KIntPtr, KIntPtr, KInt])              // eglInitialize
    case 703 => Some([KPtr, KInt])                                // eglTerminate
    case 704 => Some([KPtr, KInt, KStr])                          // eglQueryString
    case 713 => Some(Ints(2))                                     // eglBindAPI
    case 718 => Some([KPtr, KPtr] + Ints(3))                      // eglSurfaceAttrib
    case 722 | 730 => Some([KPtr, KPtr, KInt])                    // eglDestroyContext, eglSwapBuffers
    case 723 => Some([KPtr, KPtr, KPtr, KPtr, KInt])              // eglMakeCurrent
    case _ => None
  }

  function IntFields(ws: seq<word>): (fs: seq<Field>)
    ensures |fs| == |ws| && forall i :: 0 <= i < |fs| ==> fs[i] == FInt(ws[i])
  {
    seq(|ws|, i requires 0 <= i < |ws| => FInt(ws[i]))
  }

  function PtrFields(ps: seq<long>): (fs: seq<Field>)
    ensures |fs| == |ps| && forall i :: 0 <= i < |fs| ==> fs[i] == FPtr(ps[i])
  {
    seq(|ps|, i requires 0 <= i < |ps| => FPtr(ps[i]))
  }

  function SourceFields(sources: seq<Source>): seq<Field> {
    if sources == [] then [] else
    var Source(len, text) := sources[0];
    [FInt(len), if Signed(len) > 0 then FBytes(len, text) else FStr(text)] + SourceFields(sources[1..])
  }

  function AttribFields(attribs: seq<Pair>): (fs: seq<Field>)
    ensures |fs| >= 1
  {
    if attribs == [] then [FInt(EGL_NONE)]
    else [FInt(attribs[0].key), FInt(attribs[0].value)] + AttribFields(attribs[1..])
  }

  /** A result is put only if the application passed a pointer for it. */
  function Behind(p: long, f: Field): seq<Field> {
    if p != 0 then [f] else []
  }

  /** putVertexAttrib: one block per enabled attribute, in index order. */
  function ArrayFields(enabled: seq<bool>, packed: seq<seq<byte>>): seq<Field>
    requires |enabled| == |packed|
    requires forall i :: 0 <= i < |packed| ==> |packed[i]| < 0x8000_0000
  {
    if enabled == [] then [] else
    var rest := ArrayFields(enabled[1..], packed[1..]);
    if enabled[0] then [FBytes(|packed[0]|, Some(packed[0]))] + rest else rest
  }

  /** What the tracer demands of the application: the argument lists its encoders take, attribute
      indices inside its table, arrays as long as their counts, keys before the terminator. */
  predicate Recordable(c: Call, ws: nat) {
    match c
    case Plain(op, args) =>
      && TracerShape(op) == Some(Kinds(args))
      && AllWellFormed(args, ws)
      && (op in {OPC_ENABLE_ATTRIB, OPC_DISABLE_ATTRIB, OPC_ATTRIB_POINTER}
          ==> |args| > 0 && args[0].FInt? && args[0].w < MAX_VERTEX_ATTRIBS)
    case NameList(op, n, names) => NameListOp(op) && |names| == Count(n)
    case DrawElements(_, _, _, indices, size, data, packed) =>
      && WellFormed(FPtr(indices), ws) && WellFormed(FBytes(size, data), ws)
      && |packed| == MAX_VERTEX_ATTRIBS
      && forall i :: 0 <= i < |packed| ==> |packed[i]| < 0x8000_0000
    case GetActiveUniform(_, _, _, lp, sp, tp, np, _, _, _, name) =>
      && WellFormed(FPtr(lp), ws) && WellFormed(FPtr(sp), ws)
      && WellFormed(FPtr(tp), ws) && WellFormed(FPtr(np), ws)
      && WellFormed(FStr(Some(name)), ws)
    case ShaderSource(_, count, sources) =>
      && |sources| == Count(count)
      && AllWellFormed(SourceFields(sources), ws)
    case ChooseConfig(dpy, attribs, size, num, configs, _) =>
      && WellFormed(FPtr(dpy), ws)
      && (forall i :: 0 <= i < |attribs| ==> attribs[i].key != EGL_NONE)
      && |configs| == (if Count(num) < Count(size) then Count(num) else Count(size))
      && AllWellFormed(PtrFields(configs), ws)
    case CreateHandle(op, dpy, config, other, attribs, handle) =>
      && op in {OPC_CREATE_WINDOW_SURFACE, OPC_CREATE_CONTEXT}
      && WellFormed(FPtr(dpy), ws) && WellFormed(FPtr(config), ws)
      && WellFormed(FPtr(other), ws) && WellFormed(FPtr(handle), ws)
      && (forall i :: 0 <= i < |attribs| ==> attribs[i].key != EGL_NONE)
  }

  /** The fields the encoder of `c` puts when the tracer tracks `st`. */
  function Record(st: Tracked, c: Call, ws: nat): seq<Field>
    requires st.Valid() && Recordable(c, ws)
  {
    match c
    case Plain(_, args) => args
    case NameList(_, n, names) => [FInt(n)] + IntFields(names)
    case DrawElements(mode, count, typ, indices, size, data, packed) =>
      [FInt(mode), FInt(count), FInt(typ),
       if st.elementBuffer != 0 then FPtr(indices) else FBytes(size, data)]
      + (if st.arrayBuffer == 0 then ArrayFields(st.enabled, packed) else [])
    case GetActiveUniform(program, index, bufsize, lp, sp, tp, np, length, size, typ, name) =>
      [FInt(program), FInt(index), FInt(bufsize), FPtr(lp), FPtr(sp), FPtr(tp), FPtr(np)]
      + (Behind(lp, FInt(length)) + (Behind(sp, FInt(size))
         + (Behind(tp, FInt(typ)) + Behind(np, FStr(Some(name))))))
    case ShaderSource(shader, count, sources) => [FInt(shader), FInt(count)] + SourceFields(sources)
    case ChooseConfig(dpy, attribs, size, num, configs, chosen) =>
      [FPtr(dpy)] + (AttribFields(attribs)
                     + ([FInt(size), FInt(num)] + (PtrFields(configs) + [FInt(chosen)])))
    case CreateHandle(_, dpy, config, other, attribs, handle) =>
      [FPtr(dpy), FPtr(config), FPtr(other)] + (AttribFields(attribs) + [FPtr(handle)])
  }

  lemma IntArgs(args: seq<Field>, n: nat)
    requires Kinds(args) == Ints(n)
    ensures |args| == n && forall i :: 0 <= i < n ==> args[i].FInt?
  {
    assert |args| == |Kinds(args)|;
    forall i | 0 <= i < n
      ensures args[i].FInt?
    {
      assert Kinds(args)[i] == Ints(n)[i];
    }
  }

  /** The tracer's own bookkeeping after a call. */
  function AfterCall(st: Tracked, c: Call, ws: nat): (st': Tracked)
    requires st.Valid() && Recordable(c, ws)
    ensures st'.Valid()
  {
    match c
    case Plain(op, args) =>
      if op == OPC_BIND_BUFFER then
        IntArgs(args, 2);
        Bind(st, args[0].w, args[1].w)
      else if op == OPC_ENABLE_ATTRIB then st.(enabled := st.enabled[args[0].w := true])
      else if op == OPC_DISABLE_ATTRIB then st.(enabled := st.enabled[args[0].w := false])
      else st
    case _ => st
  }

  function Bind(st: Tracked, target: word, buffer: word): Tracked {
    if target == GL_ARRAY_BUFFER then st.(arrayBuffer := buffer)
    else if target == GL_ELEMENT_ARRAY_BUFFER then st.(elementBuffer := buffer)
    else st
  }

  lemma {:induction false} ArrayFieldsWellFormed(enabled: seq<bool>, packed: seq<seq<byte>>, ws: nat)
    requires |enabled| == |packed|
    requires forall i :: 0 <= i < |packed| ==> |packed[i]| < 0x8000_0000
    ensures AllWellFormed(ArrayFields(enabled, packed), ws)
    ensures NoEscape(ArrayFields(enabled, packed))
  {
    if enabled != [] {
      ArrayFieldsWellFormed(enabled[1..], packed[1..], ws);
    }
  }

  lemma {:induction false} AttribFieldsWellFormed(attribs: seq<Pair>, ws: nat)
    ensures AllWellFormed(AttribFields(attribs), ws) && NoEscape(AttribFields(attribs))
  {
    if attribs != [] {
      AttribFieldsWellFormed(attribs[1..], ws);
    }
  }

  lemma {:induction false} SourceFieldsNoEscape(sources: seq<Source>)
    ensures NoEscape(SourceFields(sources))
  {
    if sources != [] {
      SourceFieldsNoEscape(sources[1..]);
    }
  }

  lemma JoinWellFormed(a: seq<Field>, b: seq<Field>, ws: nat)
    requires AllWellFormed(a, ws) && NoEscape(a)
    requires AllWellFormed(b, ws) && NoEscape(b)
    ensures AllWellFormed(a + b, ws) && NoEscape(a + b)
  {
    hide WellFormed, Escapes;
  }

  lemma ChooseConfigWellFormed(st: Tracked, c: Call, ws: nat)
    requires WordSize(ws) && st.Valid() && Recordable(c, ws) && c.ChooseConfig?
    ensures AllWellFormed(Record(st, c, ws), ws) && NoEscape(Record(st, c, ws))
  {
    var attribs := AttribFields(c.attribs);
    AttribFieldsWellFormed(c.attribs, ws);
    var tail := [FInt(c.configSize), FInt(c.numConfig)] + (PtrFields(c.configs) + [FInt(c.chosen)]);
    assert AllWellFormed(tail, ws) && NoEscape(tail);
    JoinWellFormed(attribs, tail, ws);
    JoinWellFormed([FPtr(c.dpy)], attribs + tail, ws);
  }

  lemma CreateHandleWellFormed(st: Tracked, c: Call, ws: nat)
    requires WordSize(ws) && st.Valid() && Recordable(c, ws) && c.CreateHandle?
    ensures AllWellFormed(Record(st, c, ws), ws) && NoEscape(Record(st, c, ws))
  {
    var attribs := AttribFields(c.attribs);
    AttribFieldsWellFormed(c.attribs, ws);
    JoinWellFormed(attribs, [FPtr(c.handle)], ws);
    JoinWellFormed([FPtr(c.dpy), FPtr(c.config), FPtr(c.other)], attribs + [FPtr(c.handle)], ws);
  }

  lemma ActiveUniformWellFormed(st: Tracked, c: Call, ws: nat)
    requires WordSize(ws) && st.Valid() && Recordable(c, ws) && c.GetActiveUniform?
    ensures AllWellFormed(Record(st, c, ws), ws) && NoEscape(Record(st, c, ws))
  {
    var l, z := Behind(c.lengthPtr, FInt(c.length)), Behind(c.sizePtr, FInt(c.size));
    var t, n := Behind(c.typePtr, FInt(c.typ)), Behind(c.namePtr, FStr(Some(c.name)));
    JoinWellFormed(t, n, ws);
    JoinWellFormed(z, t + n, ws);
    JoinWellFormed(l, z + (t + n), ws);
  }

  lemma NoFloatsA(op: word, ks: seq<Kind>, i: nat)
    requires TracerShapeA(op) == Some(ks) && i < |ks|
    ensures ks[i] != KFloatPtr
  {
  }

  lemma NoFloatsEgl(op: word, ks: seq<Kind>, i: nat)
    requires TracerShapeEgl(op) == Some(ks) && i < |ks|
    ensures ks[i] != KFloatPtr
  {
  }

  lemma OneFloatB(op: word, ks: seq<Kind>, i: nat)
    requires TracerShapeB(op) == Some(ks) && i < |ks| && ks[i] == KFloatPtr
    ensures op == OPC_GET_FLOATV && ks == [KInt, KFloatPtr]
  {
  }

  /** The one straight-line call that puts a pointed-to float. */
  lemma OnlyGetFloatv(op: word, ks: seq<Kind>, i: nat)
    requires TracerShape(op) == Some(ks) && i < |ks| && ks[i] == KFloatPtr
    ensures op == OPC_GET_FLOATV && ks == [KInt, KFloatPtr]
  {
    hide TracerShapeA, TracerShapeB, TracerShapeEgl;
    if op < 150 {
      NoFloatsA(op, ks, i);
    } else if op < 700 {
      OneFloatB(op, ks, i);
    } else {
      NoFloatsEgl(op, ks, i);
    }
  }

  /** Everything a recordable call puts is well formed, and only glGetFloatv can need the float escape. */
  lemma RecordWellFormed(st: Tracked, c: Call, ws: nat)
    requires WordSize(ws) && st.Valid() && Recordable(c, ws)
    ensures AllWellFormed(Record(st, c, ws), ws)
    ensures !c.Plain? ==> NoEscape(Record(st, c, ws))
    ensures !NoEscape(Record(st, c, ws)) ==> c.Plain? && c.op == OPC_GET_FLOATV
  {
    hide TracerShape, Kinds;
    match c
    case Plain(op, args) =>
      if !NoEscape(args) {
        var i :| 0 <= i < |args| && Escapes(args[i]);
        KindAt(args, i);
        OnlyGetFloatv(op, Kinds(args), i);
      }
    case NameList(_, _, _) =>
    case DrawElements(_, _, _, _, _, _, packed) => ArrayFieldsWellFormed(st.enabled, packed, ws);
    case GetActiveUniform(_, _, _, _, _, _, _, _, _, _, _) => ActiveUniformWellFormed(st, c, ws);
    case ShaderSource(_, _, sources) => SourceFieldsNoEscape(sources);
    case ChooseConfig(_, _, _, _, _, _) => ChooseConfigWellFormed(st, c, ws);
    case CreateHandle(_, _, _, _, _, _) => CreateHandleWellFormed(st, c, ws);
  }
}
