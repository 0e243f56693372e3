/** Vertex arrays: gles.c gathers each enabled client array into a packed block, retrace.c draws from
    the blocks with stride 0. When do both draws fetch the same vertices? */
module Gather {
  import opened Arithmetic
  import opened Arguments
  import opened Words
  import opened Fields
  import opened Commands

  const GL_BYTE: word := 0x1400
  const GL_UNSIGNED_BYTE: word := 0x1401
  const GL_SHORT: word := 0x1402
  const GL_UNSIGNED_SHORT: word := 0x1403
  const GL_INT: word := 0x1404
  const GL_UNSIGNED_INT: word := 0x1405
  const GL_FLOAT: word := 0x1406

  /** glSizeof: none where the tracer gives up. */
  function SizeOf(typ: word): Option<nat> {
    if typ == GL_BYTE || typ == GL_UNSIGNED_BYTE then Some(1)
    else if typ == GL_SHORT || typ == GL_UNSIGNED_SHORT then Some(2)
    else if typ == GL_INT || typ == GL_UNSIGNED_INT || typ == GL_FLOAT then Some(4)
    else None
  }

  /** One entry of the attribute table. `pointer` is an address of client memory. */
  datatype Attrib = Attrib(enabled: bool, size: int, typ: word, normalized: word, stride: int, pointer: int)

  /** What glVertexAttribPointer accepts (section 2.8 of the OpenGL ES 2.0 specification). */
  predicate Sound(a: Attrib) {
    1 <= a.size <= 4 && SizeOf(a.typ).Some? && a.stride >= 0
  }

  function ElemSize(a: Attrib): (n: nat)
    requires Sound(a)
    ensures 1 <= n <= 16
  {
    match SizeOf(a.typ).value
    case 1 => a.size
    case 2 => 2 * a.size
    case _ => 4 * a.size
  }

  /** Bytes from one vertex to the next. */
  function Step(a: Attrib): (n: nat)
    requires Sound(a)
    ensures n > 0
  {
    if a.stride == 0 then ElemSize(a) else a.stride
  }

  // ---------------------------------------------------------------- fetching

  /** Client memory. */
  type Memory = int -> byte

  function Bytes(mem: Memory, at: int, n: nat): (s: seq<byte>)
    ensures |s| == n && forall k :: 0 <= k < n ==> s[k] == mem(at + k)
  {
    seq(n, k => mem(at + k))
  }

  /** What the original draw fetches for vertex `x`. */
  function Vertex(mem: Memory, a: Attrib, x: int): (s: seq<byte>)
    requires Sound(a)
    ensures |s| == ElemSize(a)
  {
    Bytes(mem, a.pointer + x * Step(a), ElemSize(a))
  }

  /** What a draw from a packed block fetches for vertex `x`: none if that lies outside the block. */
  function FromBlock(block: seq<byte>, elemSize: nat, x: nat): Option<seq<byte>> {
    if x * elemSize + elemSize <= |block| then Some(block[x * elemSize..x * elemSize + elemSize]) else None
  }

  // ---------------------------------------------------------------- packing

  /** The block for the first `n` vertices. */
  function Pack(mem: Memory, a: Attrib, n: int): (s: seq<byte>)
    requires Sound(a)
  {
    if n <= 0 then [] else Pack(mem, a, n - 1) + Vertex(mem, a, n - 1)
  }

  lemma {:induction false} PackSize(mem: Memory, a: Attrib, n: nat)
    requires Sound(a)
    ensures |Pack(mem, a, n)| == n * ElemSize(a)
  {
    hide ElemSize, Vertex, Sound;
    if n > 0 {
      PackSize(mem, a, n - 1);
      assert (n - 1) * ElemSize(a) + ElemSize(a) == n * ElemSize(a);
    }
  }

  lemma Below(x: nat, n: nat, e: nat)
    ensures x < n ==> x * e + e <= n * e
    ensures x >= n && e > 0 ==> x * e + e > n * e
  {
    if e > 0 {
      Times(e, x, n);
      Times(e, n, x);
    }
  }

  /** Vertex `x` is found in the block if and only if it was packed, and then it is the original one. */
  lemma {:induction false} PackedVertex(mem: Memory, a: Attrib, n: nat, x: nat)
    requires Sound(a)
    ensures FromBlock(Pack(mem, a, n), ElemSize(a), x) == if x < n then Some(Vertex(mem, a, x)) else None
    decreases n
  {
    hide ElemSize, Vertex, Sound, Step;
    var e := ElemSize(a);
    PackSize(mem, a, n);
    Below(x, n, e);
    if x < n {
      var front := Pack(mem, a, n - 1);
      PackSize(mem, a, n - 1);
      Below(x, n - 1, e);
      if x < n - 1 {
        PackedVertex(mem, a, n - 1, x);
        assert Pack(mem, a, n)[x * e..x * e + e] == front[x * e..x * e + e];
      } else {
        assert x * e == |front|;
        assert Pack(mem, a, n)[x * e..x * e + e] == Vertex(mem, a, x);
      }
    }
  }

  /** Bytes of one component: one for the types 0x1400 and 0x1401, two for 0x1402 and 0x1403, four up to
      0x1406, which is GL_FLOAT. */
  function ComponentBytes(typ: word): nat {
    if typ == 0x1400 || typ == 0x1401 then 1
    else if typ == 0x1402 || typ == 0x1403 then 2
    else if 0x1404 <= typ <= 0x1406 then 4
    else 0
  }

  lemma ElemSizeMeans(a: Attrib)
    ensures Sound(a) <==> 1 <= a.size <= 4 && ComponentBytes(a.typ) != 0 && a.stride >= 0
    ensures Sound(a) ==> ElemSize(a) == a.size * ComponentBytes(a.typ)
    ensures Sound(a) ==> Step(a) == if a.stride == 0 then a.size * ComponentBytes(a.typ) else a.stride
  {
  }

  /** A packed block byte by byte: component bytes of vertex `x` come from behind the pointer, `x` strides
      further, or `x` elements further if the stride is zero. */
  lemma PackedByte(mem: Memory, a: Attrib, n: nat, x: nat, k: nat)
    requires Sound(a) && x < n && k < a.size * ComponentBytes(a.typ)
    ensures var e, block := a.size * ComponentBytes(a.typ), Pack(mem, a, n);
            && |block| == n * e && 0 <= x * e + k < |block|
            && block[x * e + k] == mem(a.pointer + x * (if a.stride == 0 then e else a.stride) + k)
  {
    ElemSizeMeans(a);
    hide Pack, ElemSize, Sound, Step, ComponentBytes;
    ByteOfVertex(mem, a, n, x, k, ElemSize(a), Step(a));
  }

  lemma ByteOfVertex(mem: Memory, a: Attrib, n: nat, x: nat, k: nat, e: nat, step: nat)
    requires Sound(a) && x < n && k < e == ElemSize(a) && step == Step(a)
    ensures |Pack(mem, a, n)| == n * e && 0 <= x * e + k < |Pack(mem, a, n)|
    ensures Pack(mem, a, n)[x * e + k] == mem(a.pointer + x * step + k)
  {
    hide Pack, ElemSize, Sound, Step;
    PackedVertex(mem, a, n, x);
    PackSize(mem, a, n);
    Below(x, n, e);
    var at, block := x * e, Pack(mem, a, n);
    assert at + e <= |block|;
    assert block[at + k] == block[at..at + e][k];
  }

  // ---------------------------------------------------------------- the tracer's loops

  predicate TableOk(attribs: seq<Attrib>) {
    |attribs| == MAX_VERTEX_ATTRIBS && forall i :: 0 <= i < |attribs| && attribs[i].enabled ==> Sound(attribs[i])
  }

  function Room(a: Attrib, n: int): int
    requires Sound(a)
  {
    ElemSize(a) * n
  }

  /** The size of the shared buffer: no enabled array needs more. */
  method BufferSize(attribs: seq<Attrib>, n: int) returns (maxsz: nat)
    requires TableOk(attribs)
    ensures forall i :: 0 <= i < |attribs| && attribs[i].enabled ==> Room(attribs[i], n) <= maxsz
    ensures maxsz == 0 || exists i :: 0 <= i < |attribs| && attribs[i].enabled && Room(attribs[i], n) == maxsz
  {
    hide Room, Sound;
    maxsz := 0;
    for i := 0 to |attribs|
      invariant forall j :: 0 <= j < i && attribs[j].enabled ==> Room(attribs[j], n) <= maxsz
      invariant maxsz == 0 || exists j :: 0 <= j < i && attribs[j].enabled && Room(attribs[j], n) == maxsz
    {
      if attribs[i].enabled {
        var sz := Room(attribs[i], n);
        if maxsz < sz {
          maxsz := sz;
        }
      }
    }
  }

  /** The inner loop: one vertex. */
  method CopyVertex(mem: Memory, src: int, elemSize: nat, buf: array<byte>, dst: nat)
    requires dst + elemSize <= buf.Length
    modifies buf
    ensures buf[..dst + elemSize] == old(buf[..dst]) + Bytes(mem, src, elemSize)
  {
    var k := 0;
    while k < elemSize
      invariant k <= elemSize
      invariant buf[..dst + k] == old(buf[..dst]) + Bytes(mem, src, k)
    {
      buf[dst + k] := mem(src + k);
      assert buf[..dst + k + 1] == buf[..dst + k] + [mem(src + k)];
      assert Bytes(mem, src, k + 1) == Bytes(mem, src, k) + [mem(src + k)];
      k := k + 1;
    }
  }

  /** The gather loop for one array: every store stays inside the shared buffer. */
  method PackInto(mem: Memory, a: Attrib, n: int, buf: array<byte>) returns (dst: nat)
    requires Sound(a) && Room(a, n) <= buf.Length
    modifies buf
    ensures dst <= buf.Length && buf[..dst] == Pack(mem, a, n)
  {
    hide ElemSize, Sound, Bytes;
    var src, j := a.pointer, 0;
    var elemSize := ElemSize(a);
    dst := 0;
    while j < n
      invariant 0 <= j && (n >= 0 ==> j <= n) && (n < 0 ==> j == 0) && dst == j * elemSize <= buf.Length
      invariant src == a.pointer + j * Step(a)
      invariant buf[..dst] == Pack(mem, a, j)
    {
      Below(j, n, elemSize);
      assert Room(a, n) == n * elemSize;
      CopyVertex(mem, src, elemSize, buf, dst);
      src, dst := src + elemSize, dst + elemSize;
      if a.stride > 0 {
        src := src + a.stride - elemSize;
      }
      Advance(j, elemSize);
      Advance(j, Step(a));
      j := j + 1;
    }
    assert n < 0 ==> Pack(mem, a, n) == Pack(mem, a, j) == [];
  }

  lemma Advance(j: nat, e: nat)
    ensures (j + 1) * e == j * e + e
  {
  }

  /** The blocks of a draw record, one per attribute; disabled ones are not recorded. */
  function Blocks(mem: Memory, attribs: seq<Attrib>, n: int): (bs: seq<seq<byte>>)
    requires TableOk(attribs)
    ensures |bs| == |attribs|
    ensures forall i :: 0 <= i < |bs| ==> bs[i] == if attribs[i].enabled then Pack(mem, attribs[i], n) else []
  {
    seq(|attribs|, i requires 0 <= i < |attribs| => if attribs[i].enabled then Pack(mem, attribs[i], n) else [])
  }

  function Enabled(attribs: seq<Attrib>): (es: seq<bool>)
    ensures |es| == |attribs| && forall i :: 0 <= i < |es| ==> es[i] == attribs[i].enabled
  {
    seq(|attribs|, i requires 0 <= i < |attribs| => attribs[i].enabled)
  }

  predicate SizesFit(blocks: seq<seq<byte>>) {
    forall i :: 0 <= i < |blocks| ==> |blocks[i]| < 0x8000_0000
  }

  lemma ArrayFieldsCons(enabled: seq<bool>, blocks: seq<seq<byte>>, k: nat)
    requires |enabled| == |blocks| && SizesFit(blocks) && k < |enabled|
    ensures ArrayFields(enabled[k..], blocks[k..])
         == (if enabled[k] then [FBytes(|blocks[k]|, Some(blocks[k]))] else [])
          + ArrayFields(enabled[k + 1..], blocks[k + 1..])
  {
    assert enabled[k..][1..] == enabled[k + 1..] && blocks[k..][1..] == blocks[k + 1..];
  }

  /** putVertexAttrib: gathers every enabled array through one buffer and puts the blocks in order. */
  method PutVertexAttrib(mem: Memory, attribs: seq<Attrib>, count: int) returns (fields: seq<Field>)
    requires TableOk(attribs) && SizesFit(Blocks(mem, attribs, VertexCount(count)))
    ensures fields == ArrayFields(Enabled(attribs), Blocks(mem, attribs, VertexCount(count)))
  {
    hide Pack, ArrayFields, Sound, Room;
    var n := VertexCount(count);
    ghost var enabled, blocks := Enabled(attribs), Blocks(mem, attribs, n);
    var maxsz := BufferSize(attribs, n);
    var buf := new byte[maxsz];
    fields := [];
    assert enabled[0..] == enabled && blocks[0..] == blocks;
    for i := 0 to |attribs|
      invariant fields + ArrayFields(enabled[i..], blocks[i..]) == ArrayFields(enabled, blocks)
    {
      ArrayFieldsCons(enabled, blocks, i);
      if attribs[i].enabled {
        var len := PackInto(mem, attribs[i], n, buf);
        assert buf[..len] == blocks[i];
        fields := fields + [FBytes(len, Some(buf[..len]))];
      }
    }
    NoArraysLeft(enabled[|attribs|..], blocks[|attribs|..]);
  }

  lemma NoArraysLeft(enabled: seq<bool>, blocks: seq<seq<byte>>)
    requires enabled == [] && blocks == []
    ensures ArrayFields(enabled, blocks) == []
  {
  }

  // ---------------------------------------------------------------- drawing

  /** getVertexCount: six indices per quad, four vertices per quad; C division truncates. */
  function VertexCount(count: int): int {
    if count >= 0 then count / 6 * 4 else -(-count / 6 * 4)
  }

  /** Four vertices for every six indices, and none for a rest; a negative count gives a negative one. */
  lemma VertexCountMeans(quads: nat, rest: nat)
    requires rest < 6
    ensures VertexCount(6 * quads + rest) == 4 * quads && VertexCount(-(6 * quads + rest)) == -4 * quads
  {
  }

  /** A draw from the blocks fetches, for every index and every enabled array, what the original did. */
  ghost predicate SameDraw(mem: Memory, attribs: seq<Attrib>, blocks: seq<seq<byte>>, indices: seq<nat>)
    requires TableOk(attribs) && |blocks| == |attribs|
  {
    forall i, k :: 0 <= i < |attribs| && attribs[i].enabled && 0 <= k < |indices| ==>
      FromBlock(blocks[i], ElemSize(attribs[i]), indices[k]) == Some(Vertex(mem, attribs[i], indices[k]))
  }

  ghost predicate NothingEnabled(attribs: seq<Attrib>) {
    forall i :: 0 <= i < |attribs| ==> !attribs[i].enabled
  }

  /** The drawing law: replay fetches the original vertices if and only if no index reaches the number
      of vertices packed, whatever pointers and strides the arrays had, or no array is enabled. */
  lemma DrawExact(mem: Memory, attribs: seq<Attrib>, n: nat, indices: seq<nat>)
    requires TableOk(attribs)
    ensures SameDraw(mem, attribs, Blocks(mem, attribs, n), indices)
       <==> (forall k :: 0 <= k < |indices| ==> indices[k] < n) || NothingEnabled(attribs)
  {
    hide Pack, FromBlock, Vertex, ElemSize, Sound;
    forall i, k | 0 <= i < |attribs| && attribs[i].enabled && 0 <= k < |indices|
      ensures FromBlock(Blocks(mem, attribs, n)[i], ElemSize(attribs[i]), indices[k])
           == if indices[k] < n then Some(Vertex(mem, attribs[i], indices[k])) else None
    {
      PackedVertex(mem, attribs[i], n, indices[k]);
    }
    if SameDraw(mem, attribs, Blocks(mem, attribs, n), indices) && !NothingEnabled(attribs) {
      var some :| 0 <= some < |attribs| && attribs[some].enabled;
      forall k | 0 <= k < |indices|
        ensures indices[k] < n
      {
        assert FromBlock(Blocks(mem, attribs, n)[some], ElemSize(attribs[some]), indices[k])
            == Some(Vertex(mem, attribs[some], indices[k]));
      }
    }
  }

  /** The index pattern the vertex count is meant for: quad `q` uses vertices 4q to 4q + 3. */
  ghost predicate Quads(indices: seq<nat>) {
    |indices| % 6 == 0 && forall k :: 0 <= k < |indices| ==> indices[k] / 4 == k / 6
  }

  /** Quads replay exactly. */
  lemma QuadsReplay(mem: Memory, attribs: seq<Attrib>, indices: seq<nat>)
    requires TableOk(attribs) && Quads(indices)
    ensures SameDraw(mem, attribs, Blocks(mem, attribs, VertexCount(|indices|)), indices)
  {
    var n := VertexCount(|indices|);
    forall k | 0 <= k < |indices|
      ensures indices[k] < n
    {
      assert indices[k] / 4 == k / 6;
    }
    DrawExact(mem, attribs, n, indices);
  }

  /** A single triangle does not: nothing is packed for it. */
  lemma TriangleIsLost(mem: Memory, attribs: seq<Attrib>, some: nat)
    requires TableOk(attribs) && some < |attribs| && attribs[some].enabled
    ensures !SameDraw(mem, attribs, Blocks(mem, attribs, VertexCount(3)), [0, 1, 2])
  {
    var indices: seq<nat> := [0, 1, 2];
    DrawExact(mem, attribs, VertexCount(3), indices);
    assert indices[0] == 0;
  }

  // ---------------------------------------------------------------- through the trace

  /** The bytes behind the pointer the decoder passes on; null for an empty block. */
  function BytesOf(v: Val): seq<byte> {
    if v.VBytes? && v.data != None then v.data.value else []
  }

  /** The vertex law through record and replay: with client arrays, the value the decoder binds to enabled
      attribute `i` yields, for index `x`, exactly the bytes the original draw fetched if and only if
      `x` is below the vertex count. */
  lemma ReplayedVertex(mem: Memory, attribs: seq<Attrib>, st: Tracked, c: Call, ws: nat, i: nat, x: nat)
    requires WordSize(ws) && st.Valid() && c.DrawElements? && Recordable(c, ws) && c.count < 0x8000_0000
    requires TableOk(attribs) && st.enabled == Enabled(attribs) && st.arrayBuffer == 0
    requires c.packed == Blocks(mem, attribs, VertexCount(c.count))
    requires i < MAX_VERTEX_ATTRIBS && attribs[i].enabled
    ensures var at := 4 + Rank(st.enabled, i);
            && at < |Values(st, c, ws)|
            && FromBlock(BytesOf(Values(st, c, ws)[at]), ElemSize(attribs[i]), x)
               == if x < VertexCount(c.count) then Some(Vertex(mem, attribs[i], x)) else None
  {
    hide Values, Rank, Pack, FromBlock, Vertex, ElemSize, Sound;
    DrawArguments(st, c, ws);
    PackedVertex(mem, attribs[i], VertexCount(c.count), x);
  }
}
