/** What the replayer finds where: the position of every argument among the values of a decoded record.
    The decoder hands values to the replayed calls by position, so these say that a replayed call gets
    the arguments of the recorded one. */
module Arguments {
  import opened Words
  import opened Fields
  import opened Commands
  import opened Replay

  /** The values of the record of `c`, made under `st`. */
  function Values(st: Tracked, c: Call, ws: nat): (vs: seq<Val>)
    requires WordSize(ws) && st.Valid() && Recordable(c, ws)
    ensures |vs| == |Record(st, c, ws)|
  {
    RecordWellFormed(st, c, ws);
    ReadBacks(Record(st, c, ws), ws)
  }

  lemma ValueAt(st: Tracked, c: Call, ws: nat, i: nat)
    requires WordSize(ws) && st.Valid() && Recordable(c, ws) && i < |Record(st, c, ws)|
    ensures WellFormed(Record(st, c, ws)[i], ws)
    ensures Values(st, c, ws)[i] == ReadBack(Record(st, c, ws)[i], ws)
  {
    hide Record, Recordable, ReadBack, WellFormed;
    RecordWellFormed(st, c, ws);
  }

  /** A block or string as the replayer sees it: empty blocks are null, null strings empty. */
  function BlockVal(data: Option<seq<byte>>): Val {
    VBytes(if data == None || data.value == [] then None else data)
  }

  function StringVal(text: Option<seq<byte>>): Val {
    VStr(if text == None then Some([]) else text)
  }

  function PtrVal(p: long, ws: nat): Val
    requires WordSize(ws) && p < Pow256(ws)
  {
    VPtr(Widen(p, ws))
  }

  // ---------------------------------------------------------------- draws

  /** How many enabled attributes come before attribute `i`. */
  function Rank(enabled: seq<bool>, i: nat): nat
    requires i <= |enabled|
  {
    CountTrue(enabled[..i])
  }

  lemma {:induction false} BlockOf(enabled: seq<bool>, packed: seq<seq<byte>>, i: nat)
    requires |enabled| == |packed| && i < |enabled| && enabled[i]
    requires forall j :: 0 <= j < |packed| ==> |packed[j]| < 0x8000_0000
    ensures Rank(enabled, i) < |ArrayFields(enabled, packed)|
    ensures ArrayFields(enabled, packed)[Rank(enabled, i)] == FBytes(|packed[i]|, Some(packed[i]))
    decreases |enabled|
  {
    if i == 0 {
      assert enabled[..0] == [];
    } else {
      BlockOf(enabled[1..], packed[1..], i - 1);
      assert enabled[..i][1..] == enabled[1..][..i - 1];
    }
  }

  /** The enabled attributes in front of attribute `i`. */
  function Below(enabled: seq<bool>, i: nat): set<int>
    requires i <= |enabled|
  {
    set j | 0 <= j < i && enabled[j]
  }

  /** The place of a block among the blocks: the number of enabled attributes in front. */
  lemma {:induction false} RankMeans(enabled: seq<bool>, i: nat)
    requires i <= |enabled|
    ensures Rank(enabled, i) == |Below(enabled, i)|
    decreases i
  {
    if i > 0 {
      RankMeans(enabled, i - 1);
      RankSnoc(enabled, i - 1);
      hide Rank;
      assert i - 1 !in Below(enabled, i - 1);
      assert Below(enabled, i) == Below(enabled, i - 1) + if enabled[i - 1] then {i - 1} else {};
    }
  }

  lemma {:induction false} RankSnoc(enabled: seq<bool>, i: nat)
    requires i < |enabled|
    ensures Rank(enabled, i + 1) == Rank(enabled, i) + if enabled[i] then 1 else 0
  {
    assert enabled[..i + 1] == enabled[..i] + [enabled[i]];
    CountSnoc(enabled[..i], enabled[i]);
  }

  lemma {:induction false} CountSnoc(bs: seq<bool>, b: bool)
    ensures CountTrue(bs + [b]) == CountTrue(bs) + if b then 1 else 0
  {
    if bs == [] {
      assert bs + [b] == [b] && [b][1..] == [];
    } else {
      assert (bs + [b])[1..] == bs[1..] + [b];
      CountSnoc(bs[1..], b);
    }
  }

  /** glDrawElements: mode, count and type, the indices, and for every enabled attribute the block that
      was packed for it, where the decoder's loop over the attributes looks for it. */
  lemma DrawArguments(st: Tracked, c: Call, ws: nat)
    requires WordSize(ws) && st.Valid() && c.DrawElements? && Recordable(c, ws)
    ensures var vs := Values(st, c, ws);
            && |vs| >= 4 && vs[0] == VInt(c.mode) && vs[1] == VInt(c.count) && vs[2] == VInt(c.typ)
            && vs[3] == (if st.elementBuffer != 0 then PtrVal(c.indices, ws) else BlockVal(c.indexData))
            && (st.arrayBuffer != 0 ==> |vs| == 4)
    ensures forall i :: 0 <= i < MAX_VERTEX_ATTRIBS && st.enabled[i] && st.arrayBuffer == 0 ==>
              var vs, at := Values(st, c, ws), 4 + Rank(st.enabled, i);
              at < |vs| && vs[at] == BlockVal(Some(c.packed[i]))
  {
    hide ArrayFields, Rank, Values;
    ValueAt(st, c, ws, 0);
    ValueAt(st, c, ws, 1);
    ValueAt(st, c, ws, 2);
    ValueAt(st, c, ws, 3);
    forall i | 0 <= i < MAX_VERTEX_ATTRIBS && st.enabled[i] && st.arrayBuffer == 0
      ensures var vs, at := Values(st, c, ws), 4 + Rank(st.enabled, i);
              at < |vs| && vs[at] == BlockVal(Some(c.packed[i]))
    {
      BlockOf(st.enabled, c.packed, i);
      ValueAt(st, c, ws, 4 + Rank(st.enabled, i));
    }
  }

  // ---------------------------------------------------------------- lists

  /** glGen* and glDelete*: the count, then the names in order. */
  lemma NameArguments(st: Tracked, c: Call, ws: nat)
    requires WordSize(ws) && st.Valid() && c.NameList? && Recordable(c, ws)
    ensures var vs := Values(st, c, ws);
            && |vs| == 1 + |c.names| && vs[0] == VInt(c.n)
            && forall i :: 0 <= i < |c.names| ==> vs[1 + i] == VInt(c.names[i])
  {
    hide Values;
    ValueAt(st, c, ws, 0);
    forall i | 0 <= i < |c.names|
      ensures Values(st, c, ws)[1 + i] == VInt(c.names[i])
    {
      ValueAt(st, c, ws, 1 + i);
    }
  }

  lemma {:induction false} SourceAt(sources: seq<Source>, j: nat)
    requires j < |sources|
    ensures |SourceFields(sources)| == 2 * |sources|
    ensures var Source(len, text) := sources[j];
            && SourceFields(sources)[2 * j] == FInt(len)
            && SourceFields(sources)[2 * j + 1] == if Signed(len) > 0 then FBytes(len, text) else FStr(text)
    decreases |sources|
  {
    if |sources| == 1 {
      assert SourceFields(sources[1..]) == [];
    } else {
      SourceAt(sources[1..], if j == 0 then 0 else j - 1);
    }
  }

  /** glShaderSource: each source behind its length, as a block if that is positive, else as a string. */
  lemma SourceArguments(st: Tracked, c: Call, ws: nat)
    requires WordSize(ws) && st.Valid() && c.ShaderSource? && Recordable(c, ws)
    ensures var vs := Values(st, c, ws);
            && |vs| == 2 + 2 * |c.sources| && vs[0] == VInt(c.shader) && vs[1] == VInt(c.count)
            && forall j :: 0 <= j < |c.sources| ==>
                 && vs[2 + 2 * j] == VInt(c.sources[j].length)
                 && vs[3 + 2 * j] == if Signed(c.sources[j].length) > 0 then BlockVal(c.sources[j].text)
                                     else StringVal(c.sources[j].text)
  {
    hide Values, SourceFields;
    NoSources(c.sources);
    forall j | 0 <= j < |c.sources|
      ensures |SourceFields(c.sources)| == 2 * |c.sources|
      ensures Values(st, c, ws)[2 + 2 * j] == VInt(c.sources[j].length)
      ensures Values(st, c, ws)[3 + 2 * j] == if Signed(c.sources[j].length) > 0 then BlockVal(c.sources[j].text)
                                              else StringVal(c.sources[j].text)
    {
      SourceAt(c.sources, j);
      ValueAt(st, c, ws, 2 + 2 * j);
      ValueAt(st, c, ws, 3 + 2 * j);
    }
    ValueAt(st, c, ws, 0);
    ValueAt(st, c, ws, 1);
  }

  lemma NoSources(sources: seq<Source>)
    ensures |SourceFields(sources)| == 2 * |sources|
  {
    if sources != [] {
      SourceAt(sources, 0);
    }
  }

  lemma {:induction false} AttribAt(attribs: seq<Pair>, j: nat)
    requires j <= |attribs|
    ensures |AttribFields(attribs)| == 2 * |attribs| + 1
    ensures j < |attribs| ==> AttribFields(attribs)[2 * j] == FInt(attribs[j].key)
    ensures j < |attribs| ==> AttribFields(attribs)[2 * j + 1] == FInt(attribs[j].value)
    ensures j == |attribs| ==> AttribFields(attribs)[2 * j] == FInt(EGL_NONE)
    decreases |attribs|
  {
    if attribs != [] {
      AttribAt(attribs[1..], if j == 0 then 0 else j - 1);
    }
  }

  /** The attribute pairs stand from `base` on, with the terminator behind them. */
  predicate PairsStand(vs: seq<Val>, base: nat, attribs: seq<Pair>) {
    && base + 2 * |attribs| < |vs| && vs[base + 2 * |attribs|] == VInt(EGL_NONE)
    && (forall j :: 0 <= j < |attribs| ==>
          vs[base + 2 * j] == VInt(attribs[j].key) && vs[base + 2 * j + 1] == VInt(attribs[j].value))
  }

  lemma PairsRecorded(st: Tracked, c: Call, ws: nat, base: nat, attribs: seq<Pair>)
    requires WordSize(ws) && st.Valid() && Recordable(c, ws)
    requires base + |AttribFields(attribs)| <= |Record(st, c, ws)|
    requires Record(st, c, ws)[base..base + |AttribFields(attribs)|] == AttribFields(attribs)
    ensures PairsStand(Values(st, c, ws), base, attribs)
  {
    hide Values, AttribFields, Recordable, Record;
    var n := |attribs|;
    AttribAt(attribs, n);
    ValueAt(st, c, ws, base + 2 * n);
    forall j | 0 <= j < n
      ensures Values(st, c, ws)[base + 2 * j] == VInt(attribs[j].key)
      ensures Values(st, c, ws)[base + 2 * j + 1] == VInt(attribs[j].value)
    {
      AttribAt(attribs, j);
      ValueAt(st, c, ws, base + 2 * j);
      ValueAt(st, c, ws, base + 2 * j + 1);
    }
  }

  /** eglCreateWindowSurface and eglCreateContext: three handles, the attribute pairs with their
      terminator, and the result. */
  lemma HandleArguments(st: Tracked, c: Call, ws: nat)
    requires WordSize(ws) && st.Valid() && c.CreateHandle? && Recordable(c, ws)
    ensures var vs, n := Values(st, c, ws), |c.attribs|;
            && |vs| == 2 * n + 5 && PairsStand(vs, 3, c.attribs)
            && vs[0] == PtrVal(c.dpy, ws) && vs[1] == PtrVal(c.config, ws) && vs[2] == PtrVal(c.other, ws)
            && vs[4 + 2 * n] == PtrVal(c.handle, ws)
  {
    hide Values, AttribFields, Widen, PairsStand;
    var n := |c.attribs|;
    AttribAt(c.attribs, n);
    PairsRecorded(st, c, ws, 3, c.attribs);
    ValueAt(st, c, ws, 0);
    ValueAt(st, c, ws, 1);
    ValueAt(st, c, ws, 2);
    ValueAt(st, c, ws, 4 + 2 * n);
  }

  /** The configurations stand from `base` on, in order. */
  ghost predicate ConfigsStand(vs: seq<Val>, base: nat, configs: seq<long>, ws: nat)
    requires WordSize(ws)
  {
    && base + |configs| <= |vs|
    && (forall i :: 0 <= i < |configs| ==> configs[i] < Pow256(ws) && vs[base + i] == PtrVal(configs[i], ws))
  }

  lemma ConfigsRecorded(st: Tracked, c: Call, ws: nat)
    requires WordSize(ws) && st.Valid() && c.ChooseConfig? && Recordable(c, ws)
    ensures ConfigsStand(Values(st, c, ws), 4 + 2 * |c.attribs|, c.configs, ws)
  {
    hide Values, AttribFields, Widen;
    var base := 4 + 2 * |c.attribs|;
    AttribAt(c.attribs, |c.attribs|);
    forall i | 0 <= i < |c.configs|
      ensures c.configs[i] < Pow256(ws) && Values(st, c, ws)[base + i] == PtrVal(c.configs[i], ws)
    {
      assert WellFormed(PtrFields(c.configs)[i], ws);
      ValueAt(st, c, ws, base + i);
    }
  }

  /** eglChooseConfig: the display, the attribute pairs with their terminator, both counts, the
      configurations in order, and the result. */
  lemma ConfigArguments(st: Tracked, c: Call, ws: nat)
    requires WordSize(ws) && st.Valid() && c.ChooseConfig? && Recordable(c, ws)
    ensures var vs, n, m := Values(st, c, ws), |c.attribs|, |c.configs|;
            && |vs| == 2 * n + m + 5 && vs[0] == PtrVal(c.dpy, ws) && PairsStand(vs, 1, c.attribs)
            && vs[2 + 2 * n] == VInt(c.configSize) && vs[3 + 2 * n] == VInt(c.numConfig)
            && ConfigsStand(vs, 4 + 2 * n, c.configs, ws) && vs[4 + 2 * n + m] == VInt(c.chosen)
  {
    hide Values, AttribFields, Widen, PairsStand, ConfigsStand;
    var n, m := |c.attribs|, |c.configs|;
    AttribAt(c.attribs, n);
    PairsRecorded(st, c, ws, 1, c.attribs);
    ConfigsRecorded(st, c, ws);
    ValueAt(st, c, ws, 0);
    ValueAt(st, c, ws, 2 + 2 * n);
    ValueAt(st, c, ws, 3 + 2 * n);
    ValueAt(st, c, ws, 4 + 2 * n + m);
  }

  /** glGetActiveUniform: the fixed arguments, then a result for each non-null pointer, in order. */
  lemma UniformArguments(st: Tracked, c: Call, ws: nat)
    requires WordSize(ws) && st.Valid() && c.GetActiveUniform? && Recordable(c, ws)
    ensures var vs := Values(st, c, ws);
            var a := if c.lengthPtr != 0 then 1 else 0;
            var b := a + if c.sizePtr != 0 then 1 else 0;
            var t := b + if c.typePtr != 0 then 1 else 0;
            && |vs| == 7 + t + (if c.namePtr != 0 then 1 else 0)
            && vs[0] == VInt(c.program) && vs[1] == VInt(c.index) && vs[2] == VInt(c.bufsize)
            && vs[3] == PtrVal(c.lengthPtr, ws) && vs[4] == PtrVal(c.sizePtr, ws)
            && vs[5] == PtrVal(c.typePtr, ws) && vs[6] == PtrVal(c.namePtr, ws)
            && (c.lengthPtr != 0 ==> vs[7] == VInt(c.length)) && (c.sizePtr != 0 ==> vs[7 + a] == VInt(c.size))
            && (c.typePtr != 0 ==> vs[7 + b] == VInt(c.typ))
            && (c.namePtr != 0 ==> vs[7 + t] == VStr(Some(c.name)))
  {
    hide Values, Widen;
    var a := if c.lengthPtr != 0 then 1 else 0;
    var b := a + if c.sizePtr != 0 then 1 else 0;
    var t := b + if c.typePtr != 0 then 1 else 0;
    UniformHead(st, c, ws);
    if c.lengthPtr != 0 {
      ValueAt(st, c, ws, 7);
    }
    if c.sizePtr != 0 {
      ValueAt(st, c, ws, 7 + a);
    }
    if c.typePtr != 0 {
      ValueAt(st, c, ws, 7 + b);
    }
    if c.namePtr != 0 {
      ValueAt(st, c, ws, 7 + t);
    }
  }

  lemma UniformHead(st: Tracked, c: Call, ws: nat)
    requires WordSize(ws) && st.Valid() && c.GetActiveUniform? && Recordable(c, ws)
    ensures var vs := Values(st, c, ws);
            && |vs| >= 7 && vs[0] == VInt(c.program) && vs[1] == VInt(c.index) && vs[2] == VInt(c.bufsize)
            && vs[3] == PtrVal(c.lengthPtr, ws) && vs[4] == PtrVal(c.sizePtr, ws)
            && vs[5] == PtrVal(c.typePtr, ws) && vs[6] == PtrVal(c.namePtr, ws)
  {
    hide Values, Widen, Behind;
    ValueAt(st, c, ws, 0);
    ValueAt(st, c, ws, 1);
    ValueAt(st, c, ws, 2);
    ValueAt(st, c, ws, 3);
    ValueAt(st, c, ws, 4);
    ValueAt(st, c, ws, 5);
    ValueAt(st, c, ws, 6);
  }
}
