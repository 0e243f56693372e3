/** Record bodies round trip: every call the tracer can record is decoded to the values it was
    written with, at the position behind it, exactly when the replayer's guards let it through. */
module Bodies {
  import opened Words
  import opened Fields
  import opened Commands
  import opened Replay

  /** What the decoder should make of a field list lying at `pos`. */
  function Faithful(fs: seq<Field>, pos: nat, ws: nat): Body
    requires WordSize(ws) && AllWellFormed(fs, ws)
  {
    Parsed(ReadBacks(fs, ws), pos + |EncFields(fs, ws)|)
  }

  lemma ReadAll(s: seq<byte>, pos: nat, fs: seq<Field>, ks: seq<Kind>, ws: nat)
    requires WordSize(ws) && AllWellFormed(fs, ws) && NoEscape(fs) && At(s, pos, EncFields(fs, ws))
    requires Kinds(fs) == ks
    ensures Read(s, pos, ks, ws) == Faithful(fs, pos, ws)
  {
    hide ReadKinds, EncFields, ReadBacks, Kinds;
    FieldsRoundTrip(s, pos, fs, ws);
  }

  /** Reading the first part of a list leaves the rest to be read. */
  lemma ReadFront(s: seq<byte>, pos: nat, a: seq<Field>, b: seq<Field>, ks: seq<Kind>, ws: nat)
    requires WordSize(ws) && AllWellFormed(a + b, ws) && NoEscape(a + b)
    requires At(s, pos, EncFields(a + b, ws)) && Kinds(a) == ks
    ensures AllWellFormed(a, ws) && AllWellFormed(b, ws) && NoEscape(a) && NoEscape(b)
    ensures Read(s, pos, ks, ws) == Faithful(a, pos, ws)
    ensures At(s, Read(s, pos, ks, ws).end, EncFields(b, ws))
    ensures After(ReadBacks(a, ws), Faithful(b, Read(s, pos, ks, ws).end, ws)) == Faithful(a + b, pos, ws)
  {
    hide ReadKinds, EncFields, ReadBacks, Kinds;
    PartRoundTrip(s, pos, a, b, ws);
  }

  lemma SplitFront(s: seq<byte>, pos: nat, a: seq<Field>, b: seq<Field>, ws: nat)
    requires WordSize(ws) && AllWellFormed(a + b, ws) && NoEscape(a + b)
    requires At(s, pos, EncFields(a + b, ws))
    ensures AllWellFormed(a, ws) && AllWellFormed(b, ws) && NoEscape(a) && NoEscape(b)
    ensures At(s, pos, EncFields(a, ws)) && At(s, pos + |EncFields(a, ws)|, EncFields(b, ws))
    ensures After(ReadBacks(a, ws), Faithful(b, pos + |EncFields(a, ws)|, ws)) == Faithful(a + b, pos, ws)
  {
    hide ReadKinds, EncFields, ReadBacks, Kinds;
    PartRoundTrip(s, pos, a, b, ws);
    AtSplit(s, pos, EncFields(a, ws), EncFields(b, ws));
  }

  // ---------------------------------------------------------------- dependent shapes

  lemma NameListBody(s: seq<byte>, pos: nat, n: word, names: seq<word>, ws: nat)
    requires WordSize(ws) && |names| == Count(n)
    requires At(s, pos, EncFields([FInt(n)] + IntFields(names), ws))
    ensures ReadNameList(s, pos, ws) == Faithful([FInt(n)] + IntFields(names), pos, ws)
  {
    hide ReadKinds, EncFields;
    ReadFront(s, pos, [FInt(n)], IntFields(names), [KInt], ws);
    var head := Read(s, pos, [KInt], ws);
    ReadAll(s, head.end, IntFields(names), Ints(|names|), ws);
  }

  lemma {:induction false} ArrayKinds(enabled: seq<bool>, packed: seq<seq<byte>>)
    requires |enabled| == |packed|
    requires forall i :: 0 <= i < |packed| ==> |packed[i]| < 0x8000_0000
    ensures Kinds(ArrayFields(enabled, packed)) == Copies(KBytes, CountTrue(enabled))
  {
    if enabled != [] {
      ArrayKinds(enabled[1..], packed[1..]);
      var rest := ArrayFields(enabled[1..], packed[1..]);
      assert enabled[0] ==> Kinds(ArrayFields(enabled, packed)) == [KBytes] + Kinds(rest);
    }
  }

  /** The shape of a draw record is decided by the tracked state alone. */
  lemma DrawShape(st: Tracked, c: Call, ws: nat)
    requires st.Valid() && c.DrawElements? && Recordable(c, ws)
    ensures Kinds(Record(st, c, ws)) == DrawKinds(st)
  {
    ArrayKinds(st.enabled, c.packed);
  }

  lemma ActiveUniformBody(s: seq<byte>, pos: nat, st: Tracked, c: Call, ws: nat)
    requires WordSize(ws) && st.Valid() && c.GetActiveUniform? && Recordable(c, ws)
    requires AllWellFormed(Record(st, c, ws), ws) && NoEscape(Record(st, c, ws))
    requires At(s, pos, EncFields(Record(st, c, ws), ws))
    ensures ReadActiveUniform(s, pos, ws) == Faithful(Record(st, c, ws), pos, ws)
  {
    hide ReadKinds, EncFields, Widen;
    var a := [FInt(c.program), FInt(c.index), FInt(c.bufsize),
              FPtr(c.lengthPtr), FPtr(c.sizePtr), FPtr(c.typePtr), FPtr(c.namePtr)];
    var b := Behind(c.lengthPtr, FInt(c.length)) + (Behind(c.sizePtr, FInt(c.size))
           + (Behind(c.typePtr, FInt(c.typ)) + Behind(c.namePtr, FStr(Some(c.name)))));
    var ks := [KInt, KInt, KInt, KPtr, KPtr, KPtr, KPtr];
    ReadFront(s, pos, a, b, ks, ws);
    var head := Read(s, pos, ks, ws);
    PointersExact(c.lengthPtr, 0, ws);
    PointersExact(c.sizePtr, 0, ws);
    PointersExact(c.typePtr, 0, ws);
    PointersExact(c.namePtr, 0, ws);
    BehindKinds(c.lengthPtr, FInt(c.length), head.vals[3]);
    BehindKinds(c.sizePtr, FInt(c.size), head.vals[4]);
    BehindKinds(c.typePtr, FInt(c.typ), head.vals[5]);
    BehindKinds(c.namePtr, FStr(Some(c.name)), head.vals[6]);
    hide Behind, BehindKind, Kinds, Faithful;
    KindsConcat(Behind(c.typePtr, FInt(c.typ)), Behind(c.namePtr, FStr(Some(c.name))));
    KindsConcat(Behind(c.sizePtr, FInt(c.size)),
                Behind(c.typePtr, FInt(c.typ)) + Behind(c.namePtr, FStr(Some(c.name))));
    KindsConcat(Behind(c.lengthPtr, FInt(c.length)),
                Behind(c.sizePtr, FInt(c.size))
                + (Behind(c.typePtr, FInt(c.typ)) + Behind(c.namePtr, FStr(Some(c.name)))));
    ReadAll(s, head.end, b, Kinds(b), ws);
  }

  lemma KindsConcat(a: seq<Field>, b: seq<Field>)
    ensures Kinds(a + b) == Kinds(a) + Kinds(b)
  {
  }

  lemma BehindKinds(p: long, f: Field, v: Val)
    requires v.VPtr? && (v.p == 0 <==> p == 0)
    ensures Kinds(Behind(p, f)) == BehindKind(v, KindOf(f))
  {
  }

  lemma NoFields(ws: nat)
    requires WordSize(ws)
    ensures EncFields([], ws) == []
  {
  }

  lemma OneField(s: seq<byte>, pos: nat, f: Field, ws: nat)
    requires WordSize(ws) && WellFormed(f, ws) && !Escapes(f) && At(s, pos, EncFields([f], ws))
    ensures Get(s, pos, KindOf(f), ws) == (ReadBack(f, ws), pos + |EncFields([f], ws)|)
    ensures ReadBacks([f], ws) == [ReadBack(f, ws)]
  {
    hide Enc, Get, KindOf, ReadBack, WellFormed, Escapes;
    assert EncFields([f], ws) == Enc(f, ws);
    FieldRoundTrip(s, pos, f, ws);
  }

  /** Reading two fields in front of a list. */
  lemma TwoFields(s: seq<byte>, pos: nat, f: Field, g: Field, rest: seq<Field>, ws: nat)
    returns (p: nat, q: nat)
    requires WordSize(ws) && AllWellFormed([f, g] + rest, ws) && NoEscape([f, g] + rest)
    requires At(s, pos, EncFields([f, g] + rest, ws))
    ensures WellFormed(f, ws) && Get(s, pos, KindOf(f), ws) == (ReadBack(f, ws), p)
    ensures WellFormed(g, ws) && Get(s, p, KindOf(g), ws) == (ReadBack(g, ws), q)
    ensures AllWellFormed(rest, ws) && NoEscape(rest) && At(s, q, EncFields(rest, ws))
    ensures After([ReadBack(f, ws), ReadBack(g, ws)], Faithful(rest, q, ws))
         == Faithful([f, g] + rest, pos, ws)
  {
    hide Enc, EncFields, Get, KindOf, ReadBack, WellFormed, Escapes;
    assert [f, g] + rest == [f] + ([g] + rest);
    SplitFront(s, pos, [f], [g] + rest, ws);
    assert WellFormed(f, ws) == WellFormed([f][0], ws) && Escapes(f) == Escapes([f][0]);
    OneField(s, pos, f, ws);
    p := pos + |EncFields([f], ws)|;
    SplitFront(s, p, [g], rest, ws);
    assert WellFormed(g, ws) == WellFormed([g][0], ws) && Escapes(g) == Escapes([g][0]);
    OneField(s, p, g, ws);
    q := p + |EncFields([g], ws)|;
    hide ReadBacks;
    assert [ReadBack(f, ws)] + ([ReadBack(g, ws)] + ReadBacks(rest, ws))
        == [ReadBack(f, ws), ReadBack(g, ws)] + ReadBacks(rest, ws);
  }

  lemma SourcesStep(s: seq<byte>, pos: nat, n: nat, len: word, p: nat, ws: nat)
    requires WordSize(ws) && n > 0 && Get(s, pos, KInt, ws) == (VInt(len), p)
    ensures var (text, q) := Get(s, p, if Signed(len) > 0 then KBytes else KStr, ws);
            ReadSources(s, pos, n, ws) == After([VInt(len), text], ReadSources(s, q, n - 1, ws))
  {
    hide GetBytes, GetStr, GetWord;
  }

  lemma {:induction false} SourcesBody(s: seq<byte>, pos: nat, sources: seq<Source>, ws: nat)
    requires WordSize(ws) && AllWellFormed(SourceFields(sources), ws) && NoEscape(SourceFields(sources))
    requires At(s, pos, EncFields(SourceFields(sources), ws))
    ensures ReadSources(s, pos, |sources|, ws) == Faithful(SourceFields(sources), pos, ws)
    decreases |sources|
  {
    hide ReadKinds, EncFields, WellFormed, Escapes;
    if sources == [] {
      NoFields(ws);
    } else {
      hide Faithful, EncWord, At, WordAt;
      var len, text := sources[0].length, sources[0].text;
      var g := if Signed(len) > 0 then FBytes(len, text) else FStr(text);
      var p, q := TwoFields(s, pos, FInt(len), g, SourceFields(sources[1..]), ws);
      SourcesStep(s, pos, |sources|, len, p, ws);
      hide ReadSources, Get;
      SourcesBody(s, q, sources[1..], ws);
    }
  }

  /** The attribute loop reads the list back exactly when its terminator still has a slot. */
  lemma {:induction false} AttribsBody(s: seq<byte>, pos: nat, i: nat, attribs: seq<Pair>, ws: nat)
    requires WordSize(ws) && AllWellFormed(AttribFields(attribs), ws) && NoEscape(AttribFields(attribs))
    requires forall j :: 0 <= j < |attribs| ==> attribs[j].key != EGL_NONE
    requires At(s, pos, EncFields(AttribFields(attribs), ws))
    ensures ReadAttribs(s, pos, i)
         == if i + 2 * |attribs| < ATTRIB_SLOTS then Faithful(AttribFields(attribs), pos, ws) else Stopped
    decreases |attribs|
  {
    hide ReadKinds, EncFields, WellFormed, Escapes;
    if attribs == [] {
      assert WellFormed(FInt(EGL_NONE), ws) == WellFormed(AttribFields(attribs)[0], ws);
      assert Escapes(FInt(EGL_NONE)) == Escapes(AttribFields(attribs)[0]);
      OneField(s, pos, FInt(EGL_NONE), ws);
    } else {
      hide Faithful, GetWord;
      var p, q := TwoFields(s, pos, FInt(attribs[0].key), FInt(attribs[0].value),
                            AttribFields(attribs[1..]), ws);
      AttribsBody(s, q, i + 2, attribs[1..], ws);
    }
  }

  lemma ConfigsBody(s: seq<byte>, pos: nat, size: word, num: word, configs: seq<long>, chosen: word, ws: nat)
    requires WordSize(ws)
    requires |configs| == if Count(num) < Count(size) then Count(num) else Count(size)
    requires AllWellFormed(PtrFields(configs), ws)
    requires At(s, pos, EncFields([FInt(size), FInt(num)] + (PtrFields(configs) + [FInt(chosen)]), ws))
    ensures ReadConfigs(s, pos, ws)
         == Faithful([FInt(size), FInt(num)] + (PtrFields(configs) + [FInt(chosen)]), pos, ws)
  {
    hide ReadKinds, EncFields;
    ReadFront(s, pos, [FInt(size), FInt(num)], PtrFields(configs) + [FInt(chosen)], [KInt, KInt], ws);
    var head := Read(s, pos, [KInt, KInt], ws);
    ReadFront(s, head.end, PtrFields(configs), [FInt(chosen)], Copies(KPtr, |configs|), ws);
    var mid := Read(s, head.end, Copies(KPtr, |configs|), ws);
    ReadAll(s, mid.end, [FInt(chosen)], [KInt], ws);
  }

  lemma ChooseConfigBody(s: seq<byte>, pos: nat, st: Tracked, c: Call, ws: nat)
    requires WordSize(ws) && st.Valid() && c.ChooseConfig? && Recordable(c, ws)
    requires AllWellFormed(Record(st, c, ws), ws) && NoEscape(Record(st, c, ws))
    requires At(s, pos, EncFields(Record(st, c, ws), ws))
    ensures ReadChooseConfig(s, pos, ws)
         == if Replayable(c) then Faithful(Record(st, c, ws), pos, ws) else Stopped
  {
    hide ReadKinds, EncFields, WellFormed, Escapes;
    var tail := [FInt(c.configSize), FInt(c.numConfig)] + (PtrFields(c.configs) + [FInt(c.chosen)]);
    ReadFront(s, pos, [FPtr(c.dpy)], AttribFields(c.attribs) + tail, [KPtr], ws);
    var head := Read(s, pos, [KPtr], ws);
    SplitFront(s, head.end, AttribFields(c.attribs), tail, ws);
    AttribsBody(s, head.end, 0, c.attribs, ws);
    ConfigsBody(s, head.end + |EncFields(AttribFields(c.attribs), ws)|,
                c.configSize, c.numConfig, c.configs, c.chosen, ws);
  }

  lemma CreateHandleBody(s: seq<byte>, pos: nat, st: Tracked, c: Call, ws: nat)
    requires WordSize(ws) && st.Valid() && c.CreateHandle? && Recordable(c, ws)
    requires AllWellFormed(Record(st, c, ws), ws) && NoEscape(Record(st, c, ws))
    requires At(s, pos, EncFields(Record(st, c, ws), ws))
    ensures ReadCreateHandle(s, pos, ws)
         == if Replayable(c) then Faithful(Record(st, c, ws), pos, ws) else Stopped
  {
    hide ReadKinds, EncFields, WellFormed, Escapes, At, ReadAttribs, ReadBacks;
    var ptrs := [FPtr(c.dpy), FPtr(c.config), FPtr(c.other)];
    ReadFront(s, pos, ptrs, AttribFields(c.attribs) + [FPtr(c.handle)], [KPtr, KPtr, KPtr], ws);
    var head := Read(s, pos, [KPtr, KPtr, KPtr], ws);
    SplitFront(s, head.end, AttribFields(c.attribs), [FPtr(c.handle)], ws);
    AttribsBody(s, head.end, 0, c.attribs, ws);
    ReadAll(s, head.end + |EncFields(AttribFields(c.attribs), ws)|, [FPtr(c.handle)], [KPtr], ws);
  }

  // ---------------------------------------------------------------- straight-line calls

  /** A straight-line record is read back exactly when the opcode is decoded and nothing escapes. */
  lemma PlainDecoded(s: seq<byte>, pos: nat, st: Tracked, c: Call, ws: nat)
    requires Lies(s, pos, st, c, ws) && c.Plain?
    ensures Decoded(s, pos, st, c, ws) <==> Replayable(c)
  {
    TablesAgree(c.op);
    hide TracerShape, ReplayShape, EncFields, ReadKinds, Kinds;
    if Unreplayed(c.op) {
      UnreplayedStops(s, pos, st, c.op, ws);
    } else if NoEscape(c.args) {
      ReadAll(s, pos, c.args, Kinds(c.args), ws);
    } else {
      var i :| 0 <= i < |c.args| && Escapes(c.args[i]);
      KindAt(c.args, i);
      OnlyGetFloatv(c.op, Kinds(c.args), i);
      EscapeDerails(s, pos, c.args, ws);
    }
  }

  lemma UnreplayedStops(s: seq<byte>, pos: nat, st: Tracked, op: word, ws: nat)
    requires WordSize(ws) && Unreplayed(op) && ReplayShape(op) == None
    ensures ReadBody(s, pos, st, op, ws) == Stopped
  {
    hide ReplayShape;
  }

  /** Where a null or marker float makes the decoder lose its place: four bytes too early. */
  lemma EscapeDerails(s: seq<byte>, pos: nat, args: seq<Field>, ws: nat)
    requires WordSize(ws) && AllWellFormed(args, ws) && Kinds(args) == [KInt, KFloatPtr]
    requires !NoEscape(args) && At(s, pos, EncFields(args, ws))
    ensures |EncFields(args, ws)| >= 4
    ensures var q := pos + |EncFields(args, ws)| - 4;
            && Read(s, pos, [KInt, KFloatPtr], ws) == Parsed(ReadBacks(args, ws), q)
            && args[1].FFloatPtr? && At(s, q, EncWord(SecondWord(args[1].v)))
  {
    KindAt(args, 0);
    KindAt(args, 1);
    TwoInList(args, ws);
    hide Get, Enc, WellFormed, ReadBack, EncFields, Read, ReadBacks, Kinds, EncWord, Escapes, SecondWord;
    AtSplit(s, pos, Enc(args[0], ws), Enc(args[1], ws));
    FieldRoundTrip(s, pos, args[0], ws);
    FieldRoundTrip(s, pos + |Enc(args[0], ws)|, args[1], ws);
    ReadTwo(s, pos, KInt, KFloatPtr, ws);
    EscapeLayout(s, pos + |Enc(args[0], ws)|, args[1].v, ws);
  }

  lemma TwoInList(args: seq<Field>, ws: nat)
    requires WordSize(ws) && |args| == 2 && AllWellFormed(args, ws)
    ensures EncFields(args, ws) == Enc(args[0], ws) + Enc(args[1], ws)
    ensures ReadBacks(args, ws) == [ReadBack(args[0], ws), ReadBack(args[1], ws)]
  {
    hide Enc, WellFormed, ReadBack, EncFields, ReadBacks;
    ListsCons(args, ws);
    ListsCons(args[1..], ws);
    NoFields(ws);
    assert args[1..][1..] == [];
  }

  lemma ReadTwo(s: seq<byte>, pos: nat, k: Kind, l: Kind, ws: nat)
    requires WordSize(ws)
    ensures var (v, q) := Get(s, pos, k, ws);
            var (w, e) := Get(s, q, l, ws);
            Read(s, pos, [k, l], ws) == Parsed([v, w], e)
  {
    hide Get, ReadKinds;
    var q := Get(s, pos, k, ws).1;
    ReadKindsCons(s, pos, k, [l], ws);
    ReadKindsCons(s, q, l, [], ws);
    assert [k] + [l] == [k, l] && [l] + [] == [l];
    NoKinds(s, Get(s, q, l, ws).1, ws);
  }

  lemma NoKinds(s: seq<byte>, pos: nat, ws: nat)
    requires WordSize(ws)
    ensures ReadKinds(s, pos, [], ws) == ([], pos)
  {
  }

  /** An escaped float is its marker and a second word, in front of which the reader stays. */
  lemma EscapeLayout(s: seq<byte>, pos: nat, v: Option<word>, ws: nat)
    requires WordSize(ws) && Escapes(FFloatPtr(v)) && At(s, pos, Enc(FFloatPtr(v), ws))
    ensures |Enc(FFloatPtr(v), ws)| == 8 && At(s, pos + 4, EncWord(SecondWord(v)))
  {
    hide EncWord;
    AtSplit(s, pos, EncWord(FLOAT_MARKER), EncWord(SecondWord(v)));
  }

  // ---------------------------------------------------------------- all calls

  /** The record body of `c`, made under `st`, lies at `pos`. */
  ghost predicate Lies(s: seq<byte>, pos: nat, st: Tracked, c: Call, ws: nat) {
    && WordSize(ws) && st.Valid() && Recordable(c, ws)
    && AllWellFormed(Record(st, c, ws), ws)
    && (!c.Plain? ==> NoEscape(Record(st, c, ws)))
    && At(s, pos, EncFields(Record(st, c, ws), ws))
  }

  /** A replayer tracking `st` decodes the body of `c` at `pos` to its own values and end. */
  ghost predicate Decoded(s: seq<byte>, pos: nat, st: Tracked, c: Call, ws: nat)
    requires Lies(s, pos, st, c, ws)
  {
    ReadBody(s, pos, st, Opcode(c), ws) == Faithful(Record(st, c, ws), pos, ws)
  }

  lemma NameListDecoded(s: seq<byte>, pos: nat, st: Tracked, c: Call, ws: nat)
    requires Lies(s, pos, st, c, ws) && c.NameList?
    ensures Decoded(s, pos, st, c, ws)
  {
    NameListsDecoded(c.op);
    hide ReplayShape, ReadNameList, EncFields;
    NameListBody(s, pos, c.n, c.names, ws);
  }

  lemma DrawDecoded(s: seq<byte>, pos: nat, st: Tracked, c: Call, ws: nat)
    requires Lies(s, pos, st, c, ws) && c.DrawElements?
    ensures Decoded(s, pos, st, c, ws)
  {
    CallsDecoded(OPC_DRAW_ELEMENTS);
    DrawShape(st, c, ws);
    hide ReplayShape, EncFields, DrawKinds, Record;
    ReadAll(s, pos, Record(st, c, ws), DrawKinds(st), ws);
  }

  lemma ActiveUniformDecoded(s: seq<byte>, pos: nat, st: Tracked, c: Call, ws: nat)
    requires Lies(s, pos, st, c, ws) && c.GetActiveUniform?
    ensures Decoded(s, pos, st, c, ws)
  {
    CallsDecoded(OPC_GET_ACTIVE_UNIFORM);
    hide ReplayShape, EncFields, Record, ReadActiveUniform;
    ActiveUniformBody(s, pos, st, c, ws);
  }

  lemma ShaderSourceDecoded(s: seq<byte>, pos: nat, st: Tracked, c: Call, ws: nat)
    requires Lies(s, pos, st, c, ws) && c.ShaderSource?
    ensures Decoded(s, pos, st, c, ws)
  {
    CallsDecoded(OPC_SHADER_SOURCE);
    hide ReplayShape, ReadKinds, EncFields, SourceFields;
    ReadFront(s, pos, [FInt(c.shader), FInt(c.count)], SourceFields(c.sources), [KInt, KInt], ws);
    SourcesBody(s, Read(s, pos, [KInt, KInt], ws).end, c.sources, ws);
  }

  lemma ChooseConfigDecoded(s: seq<byte>, pos: nat, st: Tracked, c: Call, ws: nat)
    requires Lies(s, pos, st, c, ws) && c.ChooseConfig?
    ensures Decoded(s, pos, st, c, ws) <==> Replayable(c)
  {
    CallsDecoded(OPC_CHOOSE_CONFIG);
    hide ReplayShape, EncFields, Record, ReadChooseConfig, WellFormed, Escapes;
    ChooseConfigBody(s, pos, st, c, ws);
  }

  lemma CreateHandleDecoded(s: seq<byte>, pos: nat, st: Tracked, c: Call, ws: nat)
    requires Lies(s, pos, st, c, ws) && c.CreateHandle?
    ensures Decoded(s, pos, st, c, ws) <==> Replayable(c)
  {
    CallsDecoded(c.op);
    assert c.op in {OPC_CREATE_WINDOW_SURFACE, OPC_CREATE_CONTEXT} && !NameListOp(c.op);
    hide ReplayShape, EncFields, Record, ReadCreateHandle, AllWellFormed, NoEscape, At, Recordable, NameListOp;
    CreateHandleBody(s, pos, st, c, ws);
    hide Replayable, Faithful;
  }

  /** The record-level law: when the replayer tracks the same state as the tracer did, the body of
      any recordable call is decoded to its own values and left at its own end if and only if the
      call passes the replayer's guards. */
  lemma BodyExact(s: seq<byte>, pos: nat, st: Tracked, c: Call, ws: nat)
    requires WordSize(ws) && st.Valid() && Recordable(c, ws)
    requires At(s, pos, EncFields(Record(st, c, ws), ws))
    ensures Lies(s, pos, st, c, ws)
    ensures Decoded(s, pos, st, c, ws) <==> Replayable(c)
  {
    RecordWellFormed(st, c, ws);
    hide Decoded, Record, EncFields, Recordable, TracerShape;
    match c
    case Plain(_, _) =>
      PlainDecoded(s, pos, st, c, ws);
    case NameList(_, _, _) => NameListDecoded(s, pos, st, c, ws);
    case DrawElements(_, _, _, _, _, _, _) => DrawDecoded(s, pos, st, c, ws);
    case GetActiveUniform(_, _, _, _, _, _, _, _, _, _, _) => ActiveUniformDecoded(s, pos, st, c, ws);
    case ShaderSource(_, _, _) => ShaderSourceDecoded(s, pos, st, c, ws);
    case ChooseConfig(_, _, _, _, _, _) => ChooseConfigDecoded(s, pos, st, c, ws);
    case CreateHandle(_, _, _, _, _, _) => CreateHandleDecoded(s, pos, st, c, ws);
  }

  // ---------------------------------------------------------------- what calls put

  /** Opcodes of the calls with lists, and the terminator of attribute lists. */
  lemma OpcodesMean(c: Call)
    ensures c.DrawElements? ==> Opcode(c) == 141
    ensures c.GetActiveUniform? ==> Opcode(c) == 155
    ensures c.ShaderSource? ==> Opcode(c) == 198
    ensures c.ChooseConfig? ==> Opcode(c) == 706
    ensures AttribFields([]) == [FInt(0x3038)]
  {
  }

  /** Attribute lists of up to 31 pairs are replayed, longer ones are refused. */
  lemma ThirtyOnePairs(c: Call)
    requires c.ChooseConfig? || c.CreateHandle?
    ensures Replayable(c) <==> |c.attribs| <= 31
  {
  }
}
