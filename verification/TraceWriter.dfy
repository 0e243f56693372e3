/** The writing half of iolib.c: fields go through a chunk of the file mapped into memory, which is
    replaced by the next one when it is full. Whatever is put, the file is the plain concatenation of
    the encodings, and every store stays inside the mapped chunk. */
module TraceWriter {
  import opened Words
  import opened Fields
  import opened Commands
  import opened Replay
  import opened Trace
  import opened Recorder
  import opened Shapes
  import opened Sync

  const CHUNK_SIZE: nat := 0x100000

  lemma PaddingShrinks(n: nat)
    ensures Padding(n) > 0 <==> n % 4 != 0
    ensures n % 4 != 0 ==> Padding(n) == Padding(n + 1) + 1
  {
  }

  /** A 4-aligned position inside the chunk has room for a word. */
  lemma RoomForWord(n: nat)
    requires n % 4 == 0 && n < CHUNK_SIZE
    ensures n + 4 <= CHUNK_SIZE && (n + 4) % 4 == 0
  {
  }

  lemma SamePadding(a: nat, b: nat)
    requires a % 4 == b % 4
    ensures Padding(a) == Padding(b)
  {
  }

  lemma BytesLayout(size: word, data: Option<seq<byte>>, ws: nat)
    requires WordSize(ws)
    ensures Enc(FBytes(size, data), ws)
         == EncWord(if data == None then 0 else size) + Padded(if data == None then [] else data.value)
  {
    hide EncWord;
    assert Padded([]) == [];
  }

  lemma HeaderLayout(ws: nat)
    requires WordSize(ws)
    ensures [] + EncWord(OPC_VERSION) + EncWord(VERSION_MAJOR) + EncWord(VERSION_MINOR) + EncWord(VERSION_REV)
            + EncWord(ws) == EncHeader(ws)
  {
    hide EncWord;
  }

  predicate WholeChunks(n: nat) {
    n % CHUNK_SIZE == 0
  }

  /** What a put function appends: nothing inside a nested call. */
  function Unless(nested: bool, bytes: seq<byte>): seq<byte> {
    if nested then [] else bytes
  }

  /** `disk` is the file in front of the mapped chunk, `cur` is curPtr - filePtr, and the length of
      the chunk is fileSize: zero until the first put. */
  class Writer {
    const ws: nat
    var disk: seq<byte>
    var chunk: array<byte>
    var cur: nat
    var fileOffset: nat
    var reentrance: int
    var curThread: long

    ghost predicate Valid()
      reads `disk, `chunk, `cur, `fileOffset, chunk
    {
      && WordSize(ws)
      && cur <= chunk.Length && (chunk.Length == 0 || chunk.Length == CHUNK_SIZE)
      && WholeChunks(|disk|) && fileOffset == |disk| + chunk.Length
      && forall i :: cur <= i < chunk.Length ==> chunk[i] == 0
    }

    /** The bytes written so far. */
    ghost function Contents(): seq<byte>
      requires Valid()
      reads `disk, `chunk, `cur, `fileOffset, chunk
    {
      disk + chunk[..cur]
    }

    /** The file as another process sees it now: the mapping is shared. */
    function File(): (s: seq<byte>)
      reads this, chunk
    {
      disk + chunk[..]
    }

    ghost predicate Aligned()
      reads `cur
    {
      cur % 4 == 0
    }

    /** Everything but the stream is as it was. */
    twostate predicate Kept()
      reads this
    {
      && reentrance == old(reentrance) && curThread == old(curThread)
      && (chunk == old(chunk) || fresh(chunk))
    }

    /** Map the next chunk of the file, which extends the file by zeros. */
    method Enlarge()
      requires Valid() && cur == chunk.Length
      modifies this
      ensures Valid() && Kept() && fresh(chunk)
      ensures Contents() == old(Contents()) && cur == 0 && chunk.Length == CHUNK_SIZE
    {
      assert disk + chunk[..] == Contents();
      disk := disk + chunk[..];
      chunk := new byte[CHUNK_SIZE](i => 0);
      fileOffset := fileOffset + CHUNK_SIZE;
      cur := 0;
    }

    /** One aligned 32-bit store. */
    method StoreWord(w: word)
      requires Valid() && Aligned()
      modifies this, chunk
      ensures Valid() && Aligned() && Kept() && Contents() == old(Contents()) + EncWord(w)
    {
      hide EncWord, WholeChunks, Contents;
      if cur >= chunk.Length {
        Enlarge();
      }
      RoomForWord(cur);
      StoreBytes(EncWord(w));
    }

    /** The store itself, where there is room. */
    method StoreBytes(bytes: seq<byte>)
      requires Valid() && |bytes| == 4 && cur + 4 <= chunk.Length
      modifies `cur, chunk
      ensures Valid() && cur == old(cur) + 4 && Contents() == old(Contents()) + bytes
    {
      hide WholeChunks;
      chunk[cur] := bytes[0];
      chunk[cur + 1] := bytes[1];
      chunk[cur + 2] := bytes[2];
      chunk[cur + 3] := bytes[3];
      assert chunk[..cur + 4] == chunk[..cur] + bytes;
      cur := cur + 4;
    }

    /** The inner byte loop: `n` bytes that fit into the chunk. */
    method CopyRun(src: seq<byte>, n: nat)
      requires Valid() && n <= |src| && cur + n <= chunk.Length
      modifies this`cur, chunk
      ensures Valid() && cur == old(cur) + n && Contents() == old(Contents()) + src[..n]
    {
      hide WholeChunks;
      var i := 0;
      while i < n
        invariant i <= n && cur == old(cur) + i && Valid()
        invariant chunk[..cur] == old(chunk[..cur]) + src[..i]
      {
        chunk[cur] := src[i];
        assert chunk[..cur + 1] == chunk[..cur] + [src[i]];
        assert src[..i + 1] == src[..i] + [src[i]];
        cur := cur + 1;
        i := i + 1;
      }
    }

    /** The byte copy of putLongLong, putPtr, putString and putBytes: fill the chunk, map the next one
        and go on, until everything is stored. */
    method Copy(src: seq<byte>)
      requires Valid()
      modifies this, chunk
      ensures Valid() && Kept() && Contents() == old(Contents()) + src
      ensures cur % 4 == (old(cur) + |src|) % 4
    {
      hide WholeChunks;
      var left, rest := |src|, src;
      while left > 0
        invariant Valid() && Kept()
        invariant left == |rest| || (left == -1 && rest == [])
        invariant Contents() + rest == old(Contents()) + src
        invariant (cur + |rest|) % 4 == (old(cur) + |src|) % 4
        decreases left, chunk.Length == cur
      {
        var avail := chunk.Length - cur;
        if left <= avail {
          CopyRun(rest, left);
          rest := rest[left..];
          left := -1;
        } else {
          left := left - avail;
          CopyRun(rest, avail);
          rest := rest[avail..];
          Enlarge();
        }
      }
    }

    /** Zeros up to the next multiple of four. */
    method Pad()
      requires Valid()
      modifies this`cur, chunk
      ensures Valid() && Aligned()
      ensures Contents() == old(Contents()) + Zeros(Padding(old(cur)))
    {
      hide Padding, WholeChunks;
      ghost var todo := Padding(cur);
      PaddingShrinks(cur);
      while cur % 4 != 0
        invariant Valid() && todo == Padding(cur) && (todo > 0 <==> cur % 4 != 0)
        invariant Contents() + Zeros(todo) == old(Contents()) + Zeros(Padding(old(cur)))
        decreases todo
      {
        ghost var before := Contents();
        PaddingShrinks(cur);
        PaddingShrinks(cur + 1);
        chunk[cur] := 0;
        cur := cur + 1;
        assert Contents() == before + [0];
        assert [0] + Zeros(todo - 1) == Zeros(todo);
        todo := todo - 1;
      }
    }

    // -------------------------------------------------------------- the put functions

    method PutInt(w: word)
      requires Valid() && Aligned()
      modifies this, chunk
      ensures Valid() && Aligned() && Kept()
      ensures Contents() == old(Contents()) + Unless(reentrance > 1, EncWord(w))
    {
      if reentrance > 1 {
        return;
      }
      StoreWord(w);
    }

    /** putIntPtr, and putFloatPtr with the other marker. */
    method PutEscaped(v: Option<word>, marker: word)
      requires Valid() && Aligned()
      modifies this, chunk
      ensures Valid() && Aligned() && Kept()
      ensures Contents() == old(Contents()) + Unless(reentrance > 1, EncEscaped(v, marker))
    {
      if reentrance > 1 {
        return;
      }
      var val := 0;
      if v == None || v.value == marker {
        StoreWord(marker);
        if v.Some? {
          val := marker;
        }
      } else {
        val := v.value;
      }
      StoreWord(val);
    }

    method PutLong(x: long)
      requires Valid() && Aligned()
      modifies this, chunk
      ensures Valid() && Aligned() && Kept()
      ensures Contents() == old(Contents()) + Unless(reentrance > 1, EncLong(x))
    {
      if reentrance > 1 {
        return;
      }
      hide Valid, Contents, EncLong;
      Copy(EncLong(x));
    }

    method PutPtr(p: long)
      requires Valid() && Aligned()
      modifies this, chunk
      ensures Valid() && Aligned() && Kept()
      ensures Contents() == old(Contents()) + Unless(reentrance > 1, LittleEndian(p, ws))
    {
      if reentrance > 1 {
        return;
      }
      Width();
      hide Valid, Contents, LittleEndian;
      Copy(LittleEndian(p, ws));
    }

    method PutString(str: Option<seq<byte>>)
      requires Valid() && Aligned()
      modifies this, chunk
      ensures Valid() && Aligned() && Kept()
      ensures Contents() == old(Contents()) + Unless(reentrance > 1, Enc(FStr(str), ws))
    {
      if reentrance > 1 {
        return;
      }
      if str == None {
        PutInt(0);
        return;
      }
      PutPadded(str.value + [0]);
    }

    /** A byte run and the padding behind it. */
    method PutPadded(d: seq<byte>)
      requires Valid() && Aligned()
      modifies this, chunk
      ensures Valid() && Aligned() && Kept() && Contents() == old(Contents()) + Padded(d)
    {
      hide Padding, Valid, Contents;
      ghost var before := Contents();
      Copy(d);
      SamePadding(cur, |d|);
      Pad();
      Append(before, d, Zeros(Padding(|d|)));
    }

    method PutBytes(size: word, data: Option<seq<byte>>)
      requires Valid() && Aligned() && WellFormed(FBytes(size, data), ws)
      modifies this, chunk
      ensures Valid() && Aligned() && Kept()
      ensures Contents() == old(Contents()) + Unless(reentrance > 1, Enc(FBytes(size, data), ws))
    {
      if reentrance > 1 {
        return;
      }
      Width();
      hide Valid, Contents, Aligned, Padded, EncWord, Enc, WellFormed;
      var left := if data == None then 0 else size;
      var src := if data == None then [] else data.value;
      PutInt(left);
      PutPadded(src);
      BytesLayout(size, data, ws);
    }

    method PutField(f: Field)
      requires Valid() && Aligned() && WellFormed(f, ws)
      modifies this, chunk
      ensures Valid() && Aligned() && Kept()
      ensures Contents() == old(Contents()) + Unless(reentrance > 1, Enc(f, ws))
    {
      match f
      case FInt(w) => PutInt(w);
      case FIntPtr(v) => PutEscaped(v, MARKER);
      case FFloatPtr(v) => PutEscaped(v, FLOAT_MARKER);
      case FPtr(p) => PutPtr(p);
      case FStr(str) => PutString(str);
      case FBytes(size, data) => PutBytes(size, data);
    }

    // -------------------------------------------------------------- records

    /** Open a record for `thread`, which holds the lock. */
    method PutCmd(thread: long, cmd: word)
      requires Valid() && Aligned() && reentrance >= 0
      modifies this, chunk
      ensures Valid() && Aligned() && (chunk == old(chunk) || fresh(chunk))
      ensures reentrance == old(reentrance) + 1
      ensures curThread == if reentrance > 1 then old(curThread) else thread
      ensures Contents() == old(Contents())
                         + Unless(reentrance > 1, Prefix(old(curThread), thread, ws) + EncWord(cmd))
    {
      hide Valid, Contents, EncWord, LittleEndian, Aligned;
      reentrance := reentrance + 1;
      if reentrance > 1 {
        return;
      }
      ghost var before, prefix := Contents(), Prefix(curThread, thread, ws);
      if thread != curThread {
        PutInt(OPC_THREAD);
        PutPtr(thread);
        Append(before, EncWord(OPC_THREAD), LittleEndian(thread, ws));
        curThread := thread;
      }
      assert Contents() == before + prefix;
      PutInt(cmd);
      Append(before, prefix, EncWord(cmd));
    }

    /** Close the record. */
    method PutTime(bgn: long, end: long)
      requires Valid() && Aligned()
      modifies this, chunk
      ensures Valid() && Aligned() && (chunk == old(chunk) || fresh(chunk))
      ensures reentrance == old(reentrance) - 1 && curThread == old(curThread)
      ensures Contents() == old(Contents()) + Unless(old(reentrance) > 1, EncLong(bgn) + EncLong(end))
    {
      hide Valid, Contents, EncLong;
      PutLong(bgn);
      PutLong(end);
      reentrance := reentrance - 1;
    }

    /** iolib_init for writing. */
    constructor (wordSize: nat)
      requires WordSize(wordSize)
      ensures Valid() && Aligned() && fresh(chunk) && ws == wordSize
      ensures Contents() == EncHeader(ws) && reentrance == 0 && curThread == 0
    {
      ws := wordSize;
      disk, chunk, cur, fileOffset := [], new byte[0], 0, 0;
      reentrance, curThread := 0, 0;
      new;
      NothingWritten();
      hide Valid, Aligned, Contents, EncHeader;
      PutHeader();
    }

    lemma NothingWritten()
      requires WordSize(ws) && disk == [] && chunk.Length == 0 && cur == 0 && fileOffset == 0
      ensures Valid() && Aligned() && Contents() == []
    {
    }

    method PutHeader()
      requires Valid() && Aligned() && reentrance == 0 && Contents() == []
      modifies this, chunk
      ensures Valid() && Aligned() && Kept() && Contents() == EncHeader(ws)
    {
      hide EncWord, Contents, Valid, Aligned, EncHeader;
      Width();
      PutInt(OPC_VERSION);
      PutInt(VERSION_MAJOR);
      PutInt(VERSION_MINOR);
      PutInt(VERSION_REV);
      PutInt(ws);
      HeaderLayout(ws);
    }

    lemma Width()
      requires Valid()
      ensures WordSize(ws)
    {
    }

    /** iolib_fini: the file is cut back to what was written. */
    method Fini() returns (file: seq<byte>)
      requires Valid()
      ensures file == Contents()
    {
      file := File();
      if cur < chunk.Length {
        file := file[..fileOffset - (chunk.Length - cur)];
      }
    }

    /** Without iolib_fini the file is what was written and zeros. */
    lemma UnfinishedFile()
      requires Valid()
      ensures File() == Contents() + Zeros(chunk.Length - cur) && |File()| % 0x10_0000 == 0
    {
    }

    // -------------------------------------------------------------- runs

    /** The writer holds what the recorder machine holds. */
    ghost predicate Matches(s: State)
      requires Valid()
      reads this, chunk
    {
      Contents() == s.out && reentrance == s.reentrance && curThread == s.curThread
    }

    /** What the thread of a step does to the stream. */
    method Perform(s: State, step: Step)
      requires Valid() && Aligned() && Matches(s)
      requires Inv(s, ws) && AllMade(s, ws) && Enabled(s, step, ws)
      modifies this, chunk
      ensures Valid() && Aligned() && (chunk == old(chunk) || fresh(chunk))
      ensures Matches(Apply(s, step, ws))
    {
      hide AllMade, EncWord, EncLong, Prefix, Enc, AfterCall, Record, StreamOk, Valid, Recordable, WellFormed;
      hide Pow256, FramesOk;
      match step
      case Enter(t, call) =>
        PutCmd(t, Opcode(call));
        assert s.out + Prefix(s.curThread, t, ws) + EncWord(Opcode(call))
            == s.out + (Prefix(s.curThread, t, ws) + EncWord(Opcode(call)));
      case Put(t) =>
        FieldWellFormed(s, t, ws);
        PutField(Top(s, t).fields[Top(s, t).put]);
      case Leave(_, bgn, end) => PutTime(bgn, end);
      case Commit(_) =>
    }
  }

  lemma FieldWellFormed(s: State, t: long, ws: nat)
    requires Inv(s, ws) && AllMade(s, ws) && Enabled(s, Put(t), ws)
    ensures WellFormed(Top(s, t).fields[Top(s, t).put], ws)
  {
    hide StreamOk, Exclusive, Recordable, Record, WellFormed, FramesOk, AllWritten;
    var f := Top(s, t);
    assert FramesMade(Stack(s, t), ws);
    assert Made(f.fields, f.call, ws);
    var w: Tracked :| w.Valid() && f.fields == Record(w, f.call, ws);
    RecordWellFormed(w, f.call, ws);
  }

  /** Recording with the chunked writer: for every run of the recorder the finished file holds exactly
      the stream of the run, and the unfinished one the same followed by zeros. */
  method RecordRun(steps: seq<Step>, ws: nat) returns (finished: seq<byte>, unfinished: seq<byte>)
    requires WordSize(ws) && ValidRun(Init(ws), steps, ws)
    ensures finished == Run(Init(ws), steps, ws).out
    ensures |finished| <= |unfinished| && unfinished == finished + Zeros(|unfinished| - |finished|)
  {
    hide Apply, Enabled, StreamOk, Exclusive, AllMade, EncHeader, StateOk;
    InitHolds(ws);
    var w := new Writer(ws);
    var s := Init(ws);
    var i := 0;
    while i < |steps|
      invariant i <= |steps| && fresh(w) && fresh(w.chunk) && w.ws == ws
      invariant w.Valid() && w.Aligned() && w.Matches(s)
      invariant Inv(s, ws) && AllMade(s, ws) && ValidRun(s, steps[i..], ws)
      invariant Run(s, steps[i..], ws) == Run(Init(ws), steps, ws)
    {
      assert steps[i..][0] == steps[i] && steps[i..][1..] == steps[i + 1..];
      w.Perform(s, steps[i]);
      StepKeepsInv(s, steps[i], ws);
      StepKeepsMade(s, steps[i], ws);
      s := Apply(s, steps[i], ws);
      i := i + 1;
    }
    finished := w.Fini();
    unfinished := w.File();
    w.UnfinishedFile();
  }

  /** The whole pipeline: any run recorded through the chunked writer and stopped between records decodes
      to its closed calls, from the finished and from the unfinished file, if and only if those are
      legible; those of orderly runs are. */
  method RecordAndDecode(steps: seq<Step>, ws: nat) returns (finished: seq<byte>, unfinished: seq<byte>)
    requires WordSize(ws) && ValidRun(Init(ws), steps, ws) && Run(Init(ws), steps, ws).owner == None
    ensures var done := Run(Init(ws), steps, ws).done;
            && EntriesWellFormed(done, ws) && AllWritten(done, ws)
            && (DecodeFile(finished) == Some(Items(done, ws)) <==> Legible(Initially(), done, ws))
            && (DecodeFile(unfinished) == Some(Items(done, ws)) <==> Legible(Initially(), done, ws))
            && (OrderlyRun(Init(ws), steps, ws) ==> Legible(Initially(), done, ws))
  {
    hide ValidRun, OrderlyRun, Run, Init, DecodeFile, Items, EntriesWellFormed, Recorded, Legible, AllWritten;
    finished, unfinished := RecordRun(steps, ws);
    RunExact(steps, 0, ws);
    RunExact(steps, |unfinished| - |finished|, ws);
    assert finished + Zeros(0) == finished;
    InitHolds(ws);
    if OrderlyRun(Init(ws), steps, ws) {
      RecordingDecodes(steps, 0, ws);
    }
  }
}
