/** The field codecs of the trace format: what the `put*` functions append for one argument, and
    what the `get*` functions read back at a position of the file. */
module Fields {
  import opened Words

  /** Escape word in front of a null (or marker valued) pointed-to int, and its float twin:
      0xdeadbead converted to float has this bit pattern. */
  const MARKER: word := 0xdeadbead
  const FLOAT_MARKER: word := 0x4f5eadbf

  /** One argument as the tracer hands it to a `put*` function. Floats are 32-bit patterns. */
  datatype Field =
    | FInt(w: word)                                    // putInt, putFloat
    | FIntPtr(v: Option<word>)                         // putIntPtr
    | FFloatPtr(v: Option<word>)                       // putFloatPtr
    | FPtr(p: long)                                    // putPtr
    | FStr(str: Option<seq<byte>>)                     // putString
    | FBytes(size: word, data: Option<seq<byte>>)      // putBytes

  datatype Kind = KInt | KIntPtr | KFloatPtr | KPtr | KStr | KBytes

  /** One argument as a `get*` function delivers it to the replayer. */
  datatype Val =
    | VInt(w: word)
    | VIntPtr(v: Option<word>)
    | VFloatPtr(v: Option<word>)
    | VPtr(p: long)
    | VStr(str: Option<seq<byte>>)
    | VBytes(data: Option<seq<byte>>)

  function KindOf(f: Field): Kind {
    match f
    case FInt(_) => KInt
    case FIntPtr(_) => KIntPtr
    case FFloatPtr(_) => KFloatPtr
    case FPtr(_) => KPtr
    case FStr(_) => KStr
    case FBytes(_, _) => KBytes
  }

  predicate IsKind(v: Val, k: Kind) {
    match k
    case KInt => v.VInt?
    case KIntPtr => v.VIntPtr?
    case KFloatPtr => v.VFloatPtr?
    case KPtr => v.VPtr?
    case KStr => v.VStr?
    case KBytes => v.VBytes?
  }

  /** The pointer width of the traced process, as the header records it. */
  predicate WordSize(ws: nat) {
    ws == 4 || ws == 8
  }

  // ---------------------------------------------------------------- writing

  function EncWord(w: word): (s: seq<byte>)
    ensures |s| == 4
  {
    LittleEndian(w, 4)
  }

  function EncLong(x: long): (s: seq<byte>)
    ensures |s| == 8
  {
    LittleEndian(x, 8)
  }

  /** A byte run followed by zeros up to the next multiple of four. */
  function Padded(d: seq<byte>): (s: seq<byte>)
    ensures |s| == |d| + Padding(|d|)
  {
    d + Zeros(Padding(|d|))
  }

  /** putIntPtr and putFloatPtr differ in the escape word only. */
  function EncEscaped(v: Option<word>, marker: word): (s: seq<byte>)
    ensures |s| == 4 || |s| == 8
  {
    match v
    case None => EncWord(marker) + EncWord(0)
    case Some(w) => if w == marker then EncWord(marker) + EncWord(marker) else EncWord(w)
  }

  function Enc(f: Field, ws: nat): (s: seq<byte>)
    requires WordSize(ws)
  {
    match f
    case FInt(w) => EncWord(w)
    case FIntPtr(v) => EncEscaped(v, MARKER)
    case FFloatPtr(v) => EncEscaped(v, FLOAT_MARKER)
    case FPtr(p) => LittleEndian(p, ws)
    case FStr(None) => EncWord(0)
    case FStr(Some(t)) => Padded(t + [0])
    case FBytes(_, None) => EncWord(0)
    case FBytes(size, Some(d)) => EncWord(size) + Padded(d)
  }

  /** The run itself, and zeros behind it. */
  lemma PaddedMeans(d: seq<byte>, i: nat)
    requires i < |Padded(d)|
    ensures Padded(d)[i] == if i < |d| then d[i] else 0
  {
  }

  lemma PaddedAligned(d: seq<byte>)
    ensures |Padded(d)| % 4 == 0
  {
  }

  /** Fields keep the stream 4-aligned. */
  lemma EncAligned(f: Field, ws: nat)
    requires WordSize(ws)
    ensures |Enc(f, ws)| % 4 == 0
  {
    match f
    case FStr(Some(t)) => PaddedAligned(t + [0]);
    case FBytes(size, Some(d)) => PaddedAligned(d);
    case _ =>
  }

  /** What a caller of `put*` owes: pointers fit the traced process, C strings hold no NUL and a
      non-null block holds as many bytes as its (signed) size says. */
  predicate WellFormed(f: Field, ws: nat) {
    match f
    case FPtr(p) => p < Pow256(ws)
    case FStr(Some(t)) => forall i :: 0 <= i < |t| ==> t[i] != 0
    case FBytes(size, Some(d)) => |d| == Count(size)
    case _ => true
  }

  // ---------------------------------------------------------------- reading

  /** `enc` lies in `s` at `pos`. */
  predicate At(s: seq<byte>, pos: nat, enc: seq<byte>) {
    pos + |enc| <= |s| && s[pos..pos + |enc|] == enc
  }

  function WordAt(s: seq<byte>, pos: nat): (w: word)
    requires pos + 4 <= |s|
  {
    PowersOf256();
    Value(s[pos..pos + 4])
  }

  function GetWord(s: seq<byte>, pos: nat): (r: (word, nat)) {
    if pos + 4 > |s| then (0, pos) else (WordAt(s, pos), pos + 4)
  }

  function GetLong(s: seq<byte>, pos: nat): (r: (long, nat)) {
    if pos + 8 > |s| then (0, pos) else
    PowersOf256();
    (Value(s[pos..pos + 8]), pos + 8)
  }

  /** getIntPtr: the escape branch moves past both words. */
  function GetIntPtr(s: seq<byte>, pos: nat): (r: (Option<word>, nat)) {
    if pos + 4 > |s| then (None, pos)
    else if WordAt(s, pos) != MARKER then (Some(WordAt(s, pos)), pos + 4)
    else if pos + 8 > |s| || WordAt(s, pos + 4) == 0 then (None, pos + 8)
    else (Some(WordAt(s, pos + 4)), pos + 8)
  }

  /** The bit patterns that compare equal to 0. as floats: both zeros. */
  predicate IsZero(w: word) {
    w == 0 || w == 0x8000_0000
  }

  /** getFloatPtr: the escape branch looks at the second word but stays in front of it. */
  function GetFloatPtr(s: seq<byte>, pos: nat): (r: (Option<word>, nat)) {
    if pos + 4 > |s| then (None, pos)
    else if WordAt(s, pos) != FLOAT_MARKER then (Some(WordAt(s, pos)), pos + 4)
    else if pos + 8 > |s| || IsZero(WordAt(s, pos + 4)) then (None, pos + 4)
    else (Some(WordAt(s, pos + 4)), pos + 4)
  }

  /** getPtr widens a 4-byte pointer through int32_t: the sign bit is copied upwards. */
  function Widen(p: nat, ws: nat): (x: long)
    requires WordSize(ws) && p < Pow256(ws)
  {
    PowersOf256();
    if ws == 4 && p >= 0x8000_0000 then p + 0xffff_ffff_0000_0000 else p
  }

  function GetPtr(s: seq<byte>, pos: nat, ws: nat): (r: (long, nat))
    requires WordSize(ws)
  {
    if pos + ws > |s| then (0, pos) else (Widen(Value(s[pos..pos + ws]), ws), pos + ws)
  }

  /** strlen, stopping at the end of the file. */
  function StrLen(s: seq<byte>, pos: nat): (n: nat)
    ensures pos + n <= |s| || n == 0
    decreases |s| - pos
  {
    if pos >= |s| || s[pos] == 0 then 0 else 1 + StrLen(s, pos + 1)
  }

  function GetStr(s: seq<byte>, pos: nat): (r: (Option<seq<byte>>, nat)) {
    var len := StrLen(s, pos) + 1;
    if pos + len > |s| then (None, pos)
    else (Some(s[pos..pos + len - 1]), pos + len + Padding(len))
  }

  function GetBytes(s: seq<byte>, pos: nat): (r: (Option<seq<byte>>, nat)) {
    if pos + 4 > |s| then (None, pos) else
    var size := WordAt(s, pos);
    if Signed(size) <= 0 || pos + 4 + size > |s| then (None, pos + 4)
    else (Some(s[pos + 4..pos + 4 + size]), pos + 4 + size + Padding(size))
  }

  function Get(s: seq<byte>, pos: nat, k: Kind, ws: nat): (r: (Val, nat))
    requires WordSize(ws)
    ensures IsKind(r.0, k) && pos <= r.1
  {
    match k
    case KInt => var (w, q) := GetWord(s, pos); (VInt(w), q)
    case KIntPtr => var (v, q) := GetIntPtr(s, pos); (VIntPtr(v), q)
    case KFloatPtr => var (v, q) := GetFloatPtr(s, pos); (VFloatPtr(v), q)
    case KPtr => var (p, q) := GetPtr(s, pos, ws); (VPtr(p), q)
    case KStr => var (t, q) := GetStr(s, pos); (VStr(t), q)
    case KBytes => var (d, q) := GetBytes(s, pos); (VBytes(d), q)
  }

  // ---------------------------------------------------------------- round trip

  /** The value a well-formed field reads back as: a null string as the empty one, an empty block
      as null, a 4-byte pointer sign-extended, everything else as it was written. */
  function ReadBack(f: Field, ws: nat): Val
    requires WordSize(ws) && WellFormed(f, ws)
  {
    match f
    case FInt(w) => VInt(w)
    case FIntPtr(v) => VIntPtr(v)
    case FFloatPtr(v) => VFloatPtr(v)
    case FPtr(p) => VPtr(Widen(p, ws))
    case FStr(None) => VStr(Some([]))
    case FStr(Some(t)) => VStr(Some(t))
    case FBytes(_, None) => VBytes(None)
    case FBytes(_, Some(d)) => VBytes(if d == [] then None else Some(d))
  }

  /** The one field the format cannot carry: a pointed-to float that needs the escape. */
  predicate Escapes(f: Field) {
    f.FFloatPtr? && (f.v == None || f.v == Some(FLOAT_MARKER))
  }

  /** What an escaped float has behind its marker. */
  function SecondWord(v: Option<word>): word {
    if v == None then 0 else FLOAT_MARKER
  }

  lemma AtSplit(s: seq<byte>, pos: nat, a: seq<byte>, b: seq<byte>)
    requires At(s, pos, a + b)
    ensures At(s, pos, a) && At(s, pos + |a|, b)
  {
    assert s[pos..pos + |a|] == s[pos..pos + |a + b|][..|a|];
    assert s[pos + |a|..pos + |a| + |b|] == s[pos..pos + |a + b|][|a|..];
  }

  lemma WordRoundTrip(s: seq<byte>, pos: nat, w: word)
    requires At(s, pos, EncWord(w))
    ensures GetWord(s, pos) == (w, pos + 4)
  {
    PowersOf256();
    ValueOfLittleEndian(w, 4);
  }

  lemma LongRoundTrip(s: seq<byte>, pos: nat, x: long)
    requires At(s, pos, EncLong(x))
    ensures GetLong(s, pos) == (x, pos + 8)
  {
    PowersOf256();
    ValueOfLittleEndian(x, 8);
  }

  lemma PtrRoundTrip(s: seq<byte>, pos: nat, p: long, ws: nat)
    requires WordSize(ws) && p < Pow256(ws) && At(s, pos, LittleEndian(p, ws))
    ensures GetPtr(s, pos, ws) == (Widen(p, ws), pos + ws)
  {
    ValueOfLittleEndian(p, ws);
  }

  lemma {:induction false} StrLenAt(s: seq<byte>, pos: nat, t: seq<byte>)
    requires At(s, pos, t + [0])
    requires forall i :: 0 <= i < |t| ==> t[i] != 0
    ensures StrLen(s, pos) == |t|
    decreases |t|
  {
    var enc := t + [0];
    assert s[pos] == s[pos..pos + |enc|][0] == enc[0];
    if t != [] {
      assert enc == t[..1] + (t[1..] + [0]);
      AtSplit(s, pos, t[..1], t[1..] + [0]);
      StrLenAt(s, pos + 1, t[1..]);
    }
  }

  lemma StrRoundTrip(s: seq<byte>, pos: nat, t: seq<byte>)
    requires At(s, pos, Padded(t + [0]))
    requires forall i :: 0 <= i < |t| ==> t[i] != 0
    ensures GetStr(s, pos) == (Some(t), pos + |Padded(t + [0])|)
  {
    AtSplit(s, pos, t + [0], Zeros(Padding(|t| + 1)));
    StrLenAt(s, pos, t);
    assert s[pos..pos + |t|] == s[pos..pos + |t + [0]|][..|t|];
  }

  lemma BytesRoundTrip(s: seq<byte>, pos: nat, size: word, d: seq<byte>)
    requires |d| == Count(size) && At(s, pos, EncWord(size) + Padded(d))
    ensures GetBytes(s, pos)
         == (if d == [] then None else Some(d), pos + |EncWord(size) + Padded(d)|)
  {
    AtSplit(s, pos, EncWord(size), Padded(d));
    WordRoundTrip(s, pos, size);
    AtSplit(s, pos + 4, d, Zeros(Padding(|d|)));
  }

  lemma IntPtrRoundTrip(s: seq<byte>, pos: nat, v: Option<word>)
    requires At(s, pos, EncEscaped(v, MARKER))
    ensures GetIntPtr(s, pos) == (v, pos + |EncEscaped(v, MARKER)|)
  {
    if v == None || v.value == MARKER {
      var second := if v == None then 0 else MARKER;
      AtSplit(s, pos, EncWord(MARKER), EncWord(second));
      WordRoundTrip(s, pos, MARKER);
      WordRoundTrip(s, pos + 4, second);
    } else {
      WordRoundTrip(s, pos, v.value);
    }
  }

  /** The float variant is read past exactly when no escape was written. */
  lemma FloatPtrExact(s: seq<byte>, pos: nat, v: Option<word>)
    requires At(s, pos, EncEscaped(v, FLOAT_MARKER))
    ensures GetFloatPtr(s, pos).0 == v
    ensures GetFloatPtr(s, pos).1 == pos + |EncEscaped(v, FLOAT_MARKER)| <==> !Escapes(FFloatPtr(v))
    ensures Escapes(FFloatPtr(v)) ==> GetFloatPtr(s, pos).1 == pos + |EncEscaped(v, FLOAT_MARKER)| - 4
  {
    if v == None || v.value == FLOAT_MARKER {
      var second := SecondWord(v);
      AtSplit(s, pos, EncWord(FLOAT_MARKER), EncWord(second));
      WordRoundTrip(s, pos, FLOAT_MARKER);
      WordRoundTrip(s, pos + 4, second);
    } else {
      WordRoundTrip(s, pos, v.value);
    }
  }

  /** putString writes a null string like an empty one. */
  lemma NullIsEmpty()
    ensures EncWord(0) == Padded([] + [0])
  {
    assert EncWord(0) == [0] + LittleEndian(0, 3);
    assert LittleEndian(0, 3) == [0, 0, 0];
  }

  /** Every field is self-delimiting: wherever its bytes lie and whatever follows, the reader gets
      the value and, unless it is an escaped float, stops at the next field. */
  lemma FieldRoundTrip(s: seq<byte>, pos: nat, f: Field, ws: nat)
    requires WordSize(ws) && WellFormed(f, ws) && At(s, pos, Enc(f, ws))
    ensures Get(s, pos, KindOf(f), ws).0 == ReadBack(f, ws)
    ensures Get(s, pos, KindOf(f), ws).1 == pos + |Enc(f, ws)| <==> !Escapes(f)
    ensures Escapes(f) ==> Get(s, pos, KindOf(f), ws).1 == pos + |Enc(f, ws)| - 4
  {
    hide EncWord, EncLong, EncEscaped, Padded, GetWord, GetIntPtr, GetFloatPtr, GetPtr, GetStr, GetBytes, At, Widen;
    match f
    case FInt(w) => WordRoundTrip(s, pos, w);
    case FIntPtr(v) => IntPtrRoundTrip(s, pos, v);
    case FFloatPtr(v) => FloatPtrExact(s, pos, v);
    case FPtr(p) => PtrRoundTrip(s, pos, p, ws);
    case FStr(None) =>
      NullIsEmpty();
      StrRoundTrip(s, pos, []);
    case FStr(Some(t)) => StrRoundTrip(s, pos, t);
    case FBytes(_, None) =>
      assert EncWord(0) + Padded([]) == EncWord(0);
      BytesRoundTrip(s, pos, 0, []);
    case FBytes(size, Some(d)) => BytesRoundTrip(s, pos, size, d);
  }

  /** Pointers come back unchanged exactly when they are 8 bytes wide or lie in the lower half of
      the 4-byte range; distinct pointers stay distinct and null stays null in any case. */
  lemma PointersExact(p: long, q: long, ws: nat)
    requires WordSize(ws) && p < Pow256(ws) && q < Pow256(ws)
    ensures Widen(p, ws) == p <==> ws == 8 || p < 0x8000_0000
    ensures Widen(p, ws) == Widen(q, ws) <==> p == q
    ensures Widen(p, ws) == 0 <==> p == 0
  {
    PowersOf256();
  }

  /** The lowest pointer of the upper half is another one after the trip. */
  lemma UpperPointerChanges()
    ensures 0x8000_0000 < Pow256(4) && Widen(0x8000_0000, 4) == 0xffff_ffff_8000_0000
  {
    PowersOf256();
  }

  /** A null float is eight bytes long, of which the reader passes four. */
  lemma NullFloatStops()
    ensures |EncEscaped(None, FLOAT_MARKER)| == 8
    ensures GetFloatPtr(EncEscaped(None, FLOAT_MARKER), 0) == (None, 4)
  {
    var s := EncEscaped(None, FLOAT_MARKER);
    assert At(s, 0, s);
    FloatPtrExact(s, 0, None);
  }

  // ---------------------------------------------------------------- field lists

  function EncFields(fs: seq<Field>, ws: nat): (s: seq<byte>)
    requires WordSize(ws)
  {
    if fs == [] then [] else Enc(fs[0], ws) + EncFields(fs[1..], ws)
  }

  predicate AllWellFormed(fs: seq<Field>, ws: nat) {
    forall i :: 0 <= i < |fs| ==> WellFormed(fs[i], ws)
  }

  predicate NoEscape(fs: seq<Field>) {
    forall i :: 0 <= i < |fs| ==> !Escapes(fs[i])
  }

  function ReadBacks(fs: seq<Field>, ws: nat): (vs: seq<Val>)
    requires WordSize(ws) && AllWellFormed(fs, ws)
    ensures |vs| == |fs|
  {
    seq(|fs|, i requires 0 <= i < |fs| => ReadBack(fs[i], ws))
  }

  function Kinds(fs: seq<Field>): (ks: seq<Kind>)
    ensures |ks| == |fs|
  {
    seq(|fs|, i requires 0 <= i < |fs| => KindOf(fs[i]))
  }

  lemma KindAt(fs: seq<Field>, i: nat)
    requires i < |fs|
    ensures |Kinds(fs)| == |fs| && Kinds(fs)[i] == KindOf(fs[i])
  {
  }

  predicate AreKinds(vs: seq<Val>, ks: seq<Kind>) {
    |vs| == |ks| && forall i :: 0 <= i < |vs| ==> IsKind(vs[i], ks[i])
  }

  function ReadKinds(s: seq<byte>, pos: nat, ks: seq<Kind>, ws: nat): (r: (seq<Val>, nat))
    requires WordSize(ws)
    ensures AreKinds(r.0, ks) && pos <= r.1
    decreases |ks|
  {
    if ks == [] then ([], pos) else
    var (v, q) := Get(s, pos, ks[0], ws);
    var (vs, e) := ReadKinds(s, q, ks[1..], ws);
    ([v] + vs, e)
  }

  lemma ReadKindsCons(s: seq<byte>, pos: nat, k: Kind, ks: seq<Kind>, ws: nat)
    requires WordSize(ws)
    ensures var (v, q) := Get(s, pos, k, ws);
            var (vs, e) := ReadKinds(s, q, ks, ws);
            ReadKinds(s, pos, [k] + ks, ws) == ([v] + vs, e)
  {
    assert ([k] + ks)[1..] == ks;
  }

  lemma {:induction false} EncFieldsConcat(a: seq<Field>, b: seq<Field>, ws: nat)
    requires WordSize(ws)
    ensures EncFields(a + b, ws) == EncFields(a, ws) + EncFields(b, ws)
  {
    if a == [] {
      assert a + b == b;
    } else {
      assert (a + b)[1..] == a[1..] + b;
      EncFieldsConcat(a[1..], b, ws);
    }
  }

  lemma ListsCons(fs: seq<Field>, ws: nat)
    requires WordSize(ws) && fs != [] && AllWellFormed(fs, ws)
    ensures EncFields(fs, ws) == Enc(fs[0], ws) + EncFields(fs[1..], ws)
    ensures Kinds(fs) == [KindOf(fs[0])] + Kinds(fs[1..])
    ensures ReadBacks(fs, ws) == [ReadBack(fs[0], ws)] + ReadBacks(fs[1..], ws)
  {
    hide Enc, ReadBack, WellFormed, KindOf;
  }

  lemma {:induction false} FieldsRoundTrip(s: seq<byte>, pos: nat, fs: seq<Field>, ws: nat)
    requires WordSize(ws) && AllWellFormed(fs, ws) && NoEscape(fs) && At(s, pos, EncFields(fs, ws))
    ensures ReadKinds(s, pos, Kinds(fs), ws) == (ReadBacks(fs, ws), pos + |EncFields(fs, ws)|)
    decreases |fs|
  {
    hide Get, Enc, ReadBack, WellFormed, Escapes, KindOf;
    if fs == [] {
      assert ReadBacks(fs, ws) == [];
    } else {
      hide EncFields, ReadKinds, Kinds, ReadBacks, At;
      ListsCons(fs, ws);
      var first := Enc(fs[0], ws);
      AtSplit(s, pos, first, EncFields(fs[1..], ws));
      assert Get(s, pos, KindOf(fs[0]), ws) == (ReadBack(fs[0], ws), pos + |first|) by {
        FieldRoundTrip(s, pos, fs[0], ws);
      }
      FieldsRoundTrip(s, pos + |first|, fs[1..], ws);
      ReadKindsCons(s, pos, KindOf(fs[0]), Kinds(fs[1..]), ws);
    }
  }

  /** As FieldsRoundTrip, for the first part of a longer list. */
  lemma PartRoundTrip(s: seq<byte>, pos: nat, a: seq<Field>, b: seq<Field>, ws: nat)
    requires WordSize(ws) && AllWellFormed(a + b, ws) && NoEscape(a + b)
    requires At(s, pos, EncFields(a + b, ws))
    ensures AllWellFormed(a, ws) && AllWellFormed(b, ws) && NoEscape(a) && NoEscape(b)
    ensures ReadKinds(s, pos, Kinds(a), ws) == (ReadBacks(a, ws), pos + |EncFields(a, ws)|)
    ensures At(s, pos + |EncFields(a, ws)|, EncFields(b, ws))
    ensures EncFields(a + b, ws) == EncFields(a, ws) + EncFields(b, ws)
    ensures ReadBacks(a + b, ws) == ReadBacks(a, ws) + ReadBacks(b, ws)
  {
    hide Get, Enc, ReadBack, WellFormed, Escapes, KindOf;
    assert forall i :: 0 <= i < |a| ==> a[i] == (a + b)[i];
    assert forall i :: 0 <= i < |b| ==> b[i] == (a + b)[|a| + i];
    EncFieldsConcat(a, b, ws);
    AtSplit(s, pos, EncFields(a, ws), EncFields(b, ws));
    FieldsRoundTrip(s, pos, a, ws);
  }

  /** The marker of floats is the float nearest to the marker of ints: 24 bits of it, times 256. */
  lemma FloatMarkerMeans()
    ensures MARKER == 0xdeadbead && FLOAT_MARKER / 0x80_0000 == 127 + 31
    ensures -128 <= (0x80_0000 + FLOAT_MARKER % 0x80_0000) * 256 - MARKER <= 128
  {
  }

  /** A second word that is a zero of either sign is read as null. */
  lemma ZerosAreNull(s: seq<byte>, pos: nat, sign: word)
    requires (sign == 0 || sign == 0x8000_0000) && At(s, pos, EncWord(FLOAT_MARKER) + EncWord(sign))
    ensures GetFloatPtr(s, pos) == (None, pos + 4)
  {
    hide EncWord;
    AtSplit(s, pos, EncWord(FLOAT_MARKER), EncWord(sign));
    WordRoundTrip(s, pos, FLOAT_MARKER);
    WordRoundTrip(s, pos + 4, sign);
  }

  /** How much each kind of field takes: four bytes for ints, the traced width for pointers, four or eight for
      ints behind pointers. */
  lemma SizeMeans(f: Field, ws: nat)
    requires WordSize(ws)
    ensures f.FInt? ==> |Enc(f, ws)| == 4
    ensures f.FPtr? ==> |Enc(f, ws)| == ws
    ensures f.FIntPtr? ==> |Enc(f, ws)| == if f.v == None || f.v == Some(0xdeadbead) then 8 else 4
  {
    hide EncWord, LittleEndian;
  }

  /** Strings come with a NUL and blocks behind their size, both in whole words. */
  lemma RunMeans(t: seq<byte>, size: word, ws: nat)
    requires WordSize(ws)
    ensures var s := Enc(FStr(Some(t)), ws);
            |s| % 4 == 0 && |t| < |s| <= |t| + 4 && t + [0] <= s
    ensures var s := Enc(FBytes(size, Some(t)), ws);
            |s| % 4 == 0 && 4 + |t| <= |s| < 8 + |t| && EncWord(size) + t <= s
  {
    PaddedAligned(t + [0]);
    PaddedAligned(t);
    hide EncWord;
    assert EncWord(size) + Padded(t) == EncWord(size) + t + Zeros(Padding(|t|));
  }
}
