/** Whole traces: the record framing with thread prefixes, the decoder loop, and the round trip of
    every finite run of replayable calls, for finished and for interrupted files. */
module Trace {
  import opened Words
  import opened Fields
  import opened Commands
  import opened Replay
  import opened Bodies

  /** One outermost call as the tracer records it. */
  datatype Entry = Entry(thread: long, call: Call, fields: seq<Field>, bgn: long, end: long)

  /** One record as the replayer decodes it. */
  datatype Item = Item(thread: long, op: word, vals: seq<Val>, bgn: long, end: long)

  // ---------------------------------------------------------------- writing

  /** putCmd: the thread is named only where it changes. */
  function Prefix(prev: long, thread: long, ws: nat): seq<byte> {
    if thread == prev then [] else EncWord(OPC_THREAD) + LittleEndian(thread, ws)
  }

  function EncEntry(prev: long, e: Entry, ws: nat): (s: seq<byte>)
    requires WordSize(ws)
  {
    Prefix(prev, e.thread, ws)
    + (EncWord(Opcode(e.call)) + (EncFields(e.fields, ws) + (EncLong(e.bgn) + EncLong(e.end))))
  }

  function EncTrace(prev: long, es: seq<Entry>, ws: nat): seq<byte>
    requires WordSize(ws)
    decreases |es|
  {
    if es == [] then [] else EncEntry(prev, es[0], ws) + EncTrace(es[0].thread, es[1..], ws)
  }

  function EncHeader(ws: nat): seq<byte>
    requires WordSize(ws)
  {
    EncWord(OPC_VERSION) + (EncWord(VERSION_MAJOR)
    + (EncWord(VERSION_MINOR) + (EncWord(VERSION_REV) + EncWord(ws))))
  }

  function LastThread(prev: long, es: seq<Entry>): long {
    if es == [] then prev else es[|es| - 1].thread
  }

  lemma {:induction false} EncTraceAppend(prev: long, es: seq<Entry>, e: Entry, ws: nat)
    requires WordSize(ws)
    ensures EncTrace(prev, es + [e], ws) == EncTrace(prev, es, ws) + EncEntry(LastThread(prev, es), e, ws)
    decreases |es|
  {
    hide EncEntry;
    if es == [] {
      assert (es + [e])[1..] == [];
    } else {
      assert (es + [e])[1..] == es[1..] + [e];
      EncTraceAppend(es[0].thread, es[1..], e, ws);
    }
  }

  // ---------------------------------------------------------------- reading

  /** Where the decoder stands: file position, current thread, tracked GL state. */
  datatype Cursor = Cursor(pos: nat, thread: long, st: Tracked)

  function GetCmd(s: seq<byte>, pos: nat): (r: (word, nat)) {
    if pos + 4 > |s| then (OPC_EOF, pos) else (WordAt(s, pos), pos + 4)
  }

  /** The replayer's bookkeeping after a record. */
  function AfterItem(st: Tracked, op: word, vals: seq<Val>): Tracked {
    if op == OPC_BIND_BUFFER && |vals| == 2 && vals[0].VInt? && vals[1].VInt? then
      Bind(st, vals[0].w, vals[1].w)
    else if op in {OPC_ENABLE_ATTRIB, OPC_DISABLE_ATTRIB}
         && |vals| == 1 && vals[0].VInt? && vals[0].w < |st.enabled| then
      st.(enabled := st.enabled[vals[0].w := op == OPC_ENABLE_ATTRIB])
    else st
  }

  /** The opcode of the next record and the thread it belongs to. */
  datatype Lead = Lead(thread: long, op: word, pos: nat)

  function ReadLead(s: seq<byte>, cur: Cursor, ws: nat): (l: Lead)
    requires WordSize(ws)
    ensures l.op != OPC_EOF ==> cur.pos + 4 <= |s| && cur.pos < l.pos
  {
    var first := GetCmd(s, cur.pos);
    if first.0 != OPC_THREAD then Lead(cur.thread, first.0, first.1) else
    var thread := GetPtr(s, first.1, ws);
    var op := GetCmd(s, thread.1);
    Lead(thread.0, op.0, op.1)
  }

  datatype Next = Got(item: Item, cur: Cursor) | End

  /** One turn of the decoder loop. */
  function ReadItem(s: seq<byte>, cur: Cursor, ws: nat): (r: Next)
    requires WordSize(ws)
    ensures r.Got? ==> cur.pos + 4 <= |s| && cur.pos < r.cur.pos
  {
    var lead := ReadLead(s, cur, ws);
    if lead.op == OPC_NONE || lead.op == OPC_EOF then End else
    var body := ReadBody(s, lead.pos, cur.st, lead.op, ws);
    if body.Stopped? then End else
    var bgn := GetLong(s, body.end);
    var end := GetLong(s, bgn.1);
    Got(Item(lead.thread, lead.op, body.vals, bgn.0, end.0),
        Cursor(end.1, lead.thread, AfterItem(cur.st, lead.op, body.vals)))
  }

  /** The decoder loop to the end of the trace. */
  function Decode(s: seq<byte>, cur: Cursor, ws: nat): seq<Item>
    requires WordSize(ws)
    decreases if cur.pos <= |s| then |s| - cur.pos else 0
  {
    match ReadItem(s, cur, ws)
    case End => []
    case Got(item, next) => [item] + Decode(s, next, ws)
  }

  /** Opening a file and decoding it: none if it does not start like a trace. The version numbers
      behind the magic word are only compared for a message. */
  function DecodeFile(s: seq<byte>): Option<seq<Item>> {
    var version, ws := GetWord(s, 0).0, GetWord(s, 16).0;
    if |s| < 20 || version != OPC_VERSION || !WordSize(ws) then None
    else Some(Decode(s, Cursor(20, 0, Initially()), ws))
  }

  // ---------------------------------------------------------------- round trip

  /** The tracer recorded `es` one after the other, starting from `st`: each record was made under
      the state its predecessors left behind, and the replayer's guards let every call through. */
  ghost predicate Recorded(st: Tracked, es: seq<Entry>, ws: nat)
    requires st.Valid()
    decreases |es|
  {
    es == [] ||
    (&& es[0].thread < Pow256(ws)
     && Recordable(es[0].call, ws) && Replayable(es[0].call)
     && es[0].fields == Record(st, es[0].call, ws)
     && Recorded(AfterCall(st, es[0].call, ws), es[1..], ws))
  }

  ghost predicate EntryWellFormed(e: Entry, ws: nat) {
    e.thread < Pow256(ws) && AllWellFormed(e.fields, ws)
  }

  ghost predicate EntriesWellFormed(es: seq<Entry>, ws: nat) {
    forall i :: 0 <= i < |es| ==> EntryWellFormed(es[i], ws)
  }

  function ItemOf(e: Entry, ws: nat): Item
    requires WordSize(ws) && EntryWellFormed(e, ws)
  {
    Item(Widen(e.thread, ws), Opcode(e.call), ReadBacks(e.fields, ws), e.bgn, e.end)
  }

  /** What the decoder owes for a run: the same threads, opcodes, arguments and times in order. */
  ghost function Items(es: seq<Entry>, ws: nat): seq<Item>
    requires WordSize(ws) && EntriesWellFormed(es, ws)
  {
    seq(|es|, i requires 0 <= i < |es| => ItemOf(es[i], ws))
  }

  ghost function StateAfter(st: Tracked, es: seq<Entry>, ws: nat): (st': Tracked)
    requires st.Valid() && Recorded(st, es, ws)
    ensures st'.Valid()
    decreases |es|
  {
    if es == [] then st else StateAfter(AfterCall(st, es[0].call, ws), es[1..], ws)
  }

  lemma {:induction false} RecordedWellFormed(st: Tracked, es: seq<Entry>, ws: nat)
    requires WordSize(ws) && st.Valid() && Recorded(st, es, ws)
    ensures EntriesWellFormed(es, ws)
    decreases |es|
  {
    hide AllWellFormed, Record, Recordable, Replayable, AfterCall;
    if es != [] {
      RecordWellFormed(st, es[0].call, ws);
      RecordedWellFormed(AfterCall(st, es[0].call, ws), es[1..], ws);
      assert forall i :: 1 <= i < |es| ==> es[i] == es[1..][i - 1];
    }
  }

  /** Tracer and replayer bookkeeping stay in step: whatever state `w` a call was recorded under, the
      replayer's state changes by its record as the tracer's does by the call. */
  lemma TrackersAgree(st: Tracked, w: Tracked, c: Call, ws: nat)
    requires WordSize(ws) && st.Valid() && w.Valid() && Recordable(c, ws)
    requires AllWellFormed(Record(w, c, ws), ws)
    ensures AfterItem(st, Opcode(c), ReadBacks(Record(w, c, ws), ws)) == AfterCall(st, c, ws)
  {
    if c.Plain? {
      if c.op == OPC_BIND_BUFFER {
        IntArgs(c.args, 2);
      } else if c.op == OPC_ENABLE_ATTRIB || c.op == OPC_DISABLE_ATTRIB {
        IntArgs(c.args, 1);
      }
    }
  }

  lemma CmdRoundTrip(s: seq<byte>, pos: nat, w: word)
    requires At(s, pos, EncWord(w))
    ensures GetCmd(s, pos) == (w, pos + 4)
  {
    WordRoundTrip(s, pos, w);
  }

  /** The thread prefix is read exactly where it was written. */
  lemma LeadRoundTrip(s: seq<byte>, cur: Cursor, prev: long, thread: long, op: word, rest: seq<byte>, ws: nat)
    requires WordSize(ws) && prev < Pow256(ws) && thread < Pow256(ws) && cur.thread == Widen(prev, ws)
    requires op !in {OPC_NONE, OPC_EOF, OPC_THREAD}
    requires At(s, cur.pos, Prefix(prev, thread, ws) + (EncWord(op) + rest))
    ensures ReadLead(s, cur, ws)
         == Lead(Widen(thread, ws), op, cur.pos + |Prefix(prev, thread, ws)| + 4)
    ensures At(s, cur.pos + |Prefix(prev, thread, ws)| + 4, rest)
  {
    var prefix := Prefix(prev, thread, ws);
    AtSplit(s, cur.pos, prefix, EncWord(op) + rest);
    var p := cur.pos + |prefix|;
    AtSplit(s, p, EncWord(op), rest);
    CmdRoundTrip(s, p, op);
    if thread != prev {
      AtSplit(s, cur.pos, EncWord(OPC_THREAD), LittleEndian(thread, ws));
      CmdRoundTrip(s, cur.pos, OPC_THREAD);
      PtrRoundTrip(s, cur.pos + 4, thread, ws);
    }
  }

  /** Where the body of a record starts. */
  function BodyStart(pos: nat, prev: long, e: Entry, ws: nat): nat {
    pos + |Prefix(prev, e.thread, ws)| + 4
  }

  /** The frame of a record: the body is found, and if the decoder gets through it the times and the
      thread are found too. */
  lemma FrameRoundTrip(s: seq<byte>, cur: Cursor, prev: long, e: Entry, ws: nat)
    requires WordSize(ws) && prev < Pow256(ws) && cur.thread == Widen(prev, ws)
    requires EntryWellFormed(e, ws) && Opcode(e.call) !in {OPC_NONE, OPC_EOF, OPC_THREAD}
    requires At(s, cur.pos, EncEntry(prev, e, ws))
    ensures var p := BodyStart(cur.pos, prev, e, ws);
            && ReadLead(s, cur, ws) == Lead(Widen(e.thread, ws), Opcode(e.call), p)
            && At(s, p, EncFields(e.fields, ws))
            && At(s, p + |EncFields(e.fields, ws)|, EncLong(e.bgn) + EncLong(e.end))
            && (ReadBody(s, p, cur.st, Opcode(e.call), ws) == Faithful(e.fields, p, ws) ==>
                ReadItem(s, cur, ws)
                == Got(ItemOf(e, ws),
                       Cursor(cur.pos + |EncEntry(prev, e, ws)|, Widen(e.thread, ws),
                              AfterItem(cur.st, Opcode(e.call), ReadBacks(e.fields, ws)))))
  {
    hide *;
    EntryLayout(prev, e, ws);
    var rest := EncFields(e.fields, ws) + (EncLong(e.bgn) + EncLong(e.end));
    EntryParts(e, ws);
    LeadRoundTrip(s, cur, prev, e.thread, Opcode(e.call), rest, ws);
    var p := cur.pos + |Prefix(prev, e.thread, ws)| + 4;
    StartIs(cur.pos, prev, e, ws);
    AtSplit(s, p, EncFields(e.fields, ws), EncLong(e.bgn) + EncLong(e.end));
    var q := p + |EncFields(e.fields, ws)|;
    AtSplit(s, q, EncLong(e.bgn), EncLong(e.end));
    LongRoundTrip(s, q, e.bgn);
    LongRoundTrip(s, q + 8, e.end);
    if ReadBody(s, p, cur.st, Opcode(e.call), ws) == Faithful(e.fields, p, ws) {
      FaithfulIs(e.fields, p, ws);
      Assemble(s, cur, Lead(Widen(e.thread, ws), Opcode(e.call), p), ReadBacks(e.fields, ws), q, e, ws);
    }
  }

  lemma EntryParts(e: Entry, ws: nat)
    requires EntryWellFormed(e, ws)
    ensures e.thread < Pow256(ws) && AllWellFormed(e.fields, ws)
  {
  }

  lemma StartIs(pos: nat, prev: long, e: Entry, ws: nat)
    ensures BodyStart(pos, prev, e, ws) == pos + |Prefix(prev, e.thread, ws)| + 4
  {
  }

  lemma FaithfulIs(fs: seq<Field>, pos: nat, ws: nat)
    requires WordSize(ws) && AllWellFormed(fs, ws)
    ensures Faithful(fs, pos, ws) == Parsed(ReadBacks(fs, ws), pos + |EncFields(fs, ws)|)
  {
  }

  /** One record, decoded from the state it was recorded under. */
  lemma ItemRoundTrip(s: seq<byte>, cur: Cursor, prev: long, e: Entry, ws: nat)
    requires WordSize(ws) && cur.st.Valid() && prev < Pow256(ws) && cur.thread == Widen(prev, ws)
    requires Recorded(cur.st, [e], ws)
    requires At(s, cur.pos, EncEntry(prev, e, ws))
    ensures EntryWellFormed(e, ws)
    ensures ReadItem(s, cur, ws)
         == Got(ItemOf(e, ws), Cursor(cur.pos + |EncEntry(prev, e, ws)|, Widen(e.thread, ws),
                                      AfterCall(cur.st, e.call, ws)))
  {
    hide *;
    RecordedOne(cur.st, e, ws);
    OpcodesAreCommands(e.call, ws);
    FrameRoundTrip(s, cur, prev, e, ws);
    BodyReads(s, BodyStart(cur.pos, prev, e, ws), cur.st, e, ws);
    TrackersAgree(cur.st, cur.st, e.call, ws);
  }

  lemma RecordedOne(st: Tracked, e: Entry, ws: nat)
    requires WordSize(ws) && st.Valid() && Recorded(st, [e], ws)
    ensures e.thread < Pow256(ws) && Recordable(e.call, ws) && Replayable(e.call)
    ensures e.fields == Record(st, e.call, ws) && AllWellFormed(e.fields, ws) && EntryWellFormed(e, ws)
  {
    hide Record, Recordable, Replayable, AllWellFormed, AfterCall;
    RecordWellFormed(st, e.call, ws);
  }

  lemma EntryLayout(prev: long, e: Entry, ws: nat)
    requires WordSize(ws)
    ensures EncEntry(prev, e, ws) == Prefix(prev, e.thread, ws)
         + (EncWord(Opcode(e.call)) + (EncFields(e.fields, ws) + (EncLong(e.bgn) + EncLong(e.end))))
    ensures |EncEntry(prev, e, ws)| == |Prefix(prev, e.thread, ws)| + 4 + |EncFields(e.fields, ws)| + 16
  {
    hide Prefix, EncFields, EncWord, EncLong;
  }

  lemma BodyReads(s: seq<byte>, pos: nat, st: Tracked, e: Entry, ws: nat)
    requires WordSize(ws) && st.Valid() && Recordable(e.call, ws) && Replayable(e.call)
    requires e.fields == Record(st, e.call, ws) && AllWellFormed(e.fields, ws)
    requires At(s, pos, EncFields(e.fields, ws))
    ensures ReadBody(s, pos, st, Opcode(e.call), ws) == Faithful(e.fields, pos, ws)
  {
    hide Record, Recordable, Replayable, EncFields, ReadBacks, ReadBody, At, AllWellFormed, Faithful;
    BodyExact(s, pos, st, e.call, ws);
  }

  lemma Assemble(s: seq<byte>, cur: Cursor, lead: Lead, vals: seq<Val>, q: nat, e: Entry, ws: nat)
    requires WordSize(ws) && EntryWellFormed(e, ws)
    requires ReadLead(s, cur, ws) == lead && lead.thread == Widen(e.thread, ws) && lead.op == Opcode(e.call)
    requires lead.op != OPC_NONE && lead.op != OPC_EOF
    requires ReadBody(s, lead.pos, cur.st, lead.op, ws) == Parsed(vals, q)
    requires vals == ReadBacks(e.fields, ws)
    requires GetLong(s, q) == (e.bgn, q + 8) && GetLong(s, q + 8) == (e.end, q + 16)
    ensures ReadItem(s, cur, ws)
         == Got(ItemOf(e, ws), Cursor(q + 16, lead.thread, AfterItem(cur.st, lead.op, vals)))
  {
    hide ReadLead, ReadBody, GetLong, AfterItem, ReadBacks, Widen;
  }

  /** The decoder stops at `pos`: no word is left, or the next one is zero. */
  predicate Finished(s: seq<byte>, pos: nat) {
    pos + 4 > |s| || WordAt(s, pos) == 0
  }

  /** The whole-trace law: wherever the bytes of a recorded run lie in a file, the decoder yields the
      run, record by record, and stops behind it if the file ends or is zero filled there. */
  lemma {:induction false} TraceRoundTrip(s: seq<byte>, cur: Cursor, prev: long, es: seq<Entry>, ws: nat)
    requires WordSize(ws) && cur.st.Valid() && prev < Pow256(ws) && cur.thread == Widen(prev, ws)
    requires Recorded(cur.st, es, ws)
    requires At(s, cur.pos, EncTrace(prev, es, ws))
    requires Finished(s, cur.pos + |EncTrace(prev, es, ws)|)
    ensures EntriesWellFormed(es, ws)
    ensures Decode(s, cur, ws) == Items(es, ws)
    decreases |es|
  {
    hide *;
    RecordedWellFormed(cur.st, es, ws);
    if es == [] {
      AtTheEnd(s, cur, prev, ws);
    } else {
      var next := FirstItem(s, cur, prev, es, ws);
      TraceRoundTrip(s, next, es[0].thread, es[1..], ws);
      DecodeStep(s, cur, es, next, ws);
    }
  }

  /** The first record of a run decodes, and the rest of the run lies behind it. */
  lemma FirstItem(s: seq<byte>, cur: Cursor, prev: long, es: seq<Entry>, ws: nat) returns (next: Cursor)
    requires WordSize(ws) && cur.st.Valid() && prev < Pow256(ws) && cur.thread == Widen(prev, ws)
    requires es != [] && Recorded(cur.st, es, ws)
    requires At(s, cur.pos, EncTrace(prev, es, ws))
    requires Finished(s, cur.pos + |EncTrace(prev, es, ws)|)
    ensures EntryWellFormed(es[0], ws) && ReadItem(s, cur, ws) == Got(ItemOf(es[0], ws), next)
    ensures next.st.Valid() && es[0].thread < Pow256(ws) && next.thread == Widen(es[0].thread, ws)
    ensures Recorded(next.st, es[1..], ws)
    ensures At(s, next.pos, EncTrace(es[0].thread, es[1..], ws))
    ensures Finished(s, next.pos + |EncTrace(es[0].thread, es[1..], ws)|)
  {
    hide At, Finished, Widen, WordSize, ReadItem, EncEntry, AfterCall;
    var e, first := es[0], EncEntry(prev, es[0], ws);
    RecordedFirst(cur.st, es, ws);
    hide Recorded;
    AtSplit(s, cur.pos, first, EncTrace(e.thread, es[1..], ws));
    ItemRoundTrip(s, cur, prev, e, ws);
    next := Cursor(cur.pos + |first|, Widen(e.thread, ws), AfterCall(cur.st, e.call, ws));
  }

  lemma RecordedFirst(st: Tracked, es: seq<Entry>, ws: nat)
    requires st.Valid() && es != [] && Recorded(st, es, ws)
    ensures Recorded(st, [es[0]], ws) && es[0].thread < Pow256(ws) && Recordable(es[0].call, ws)
    ensures Recorded(AfterCall(st, es[0].call, ws), es[1..], ws)
  {
  }

  lemma ItemsCons(es: seq<Entry>, ws: nat)
    requires WordSize(ws) && es != [] && EntriesWellFormed(es, ws)
    ensures EntryWellFormed(es[0], ws) && EntriesWellFormed(es[1..], ws)
    ensures Items(es, ws) == [ItemOf(es[0], ws)] + Items(es[1..], ws)
  {
    hide ItemOf, EntryWellFormed;
  }

  lemma DecodeStep(s: seq<byte>, cur: Cursor, es: seq<Entry>, next: Cursor, ws: nat)
    requires WordSize(ws) && es != [] && EntriesWellFormed(es, ws)
    requires ReadItem(s, cur, ws) == Got(ItemOf(es[0], ws), next)
    requires Decode(s, next, ws) == Items(es[1..], ws)
    ensures Decode(s, cur, ws) == Items(es, ws)
  {
    hide ReadItem, ItemOf, EntryWellFormed, Items;
    ItemsCons(es, ws);
  }

  lemma AtTheEnd(s: seq<byte>, cur: Cursor, prev: long, ws: nat)
    requires WordSize(ws) && Finished(s, cur.pos + |EncTrace(prev, [], ws)|)
    ensures EntriesWellFormed([], ws) && Decode(s, cur, ws) == Items([], ws)
  {
  }

  /** Files: the header, then a recorded run, then nothing or zeros. Both the file iolib_fini
      truncates and the zero-filled one of a run that was cut off decode to exactly the run. */
  lemma FileRoundTrip(es: seq<Entry>, tail: nat, ws: nat)
    requires WordSize(ws) && Recorded(Initially(), es, ws)
    ensures EntriesWellFormed(es, ws)
    ensures DecodeFile(EncHeader(ws) + EncTrace(0, es, ws) + Zeros(tail)) == Some(Items(es, ws))
  {
    hide *;
    var body := EncTrace(0, es, ws);
    FileLayout(body, tail, ws);
    PointersExact(0, 0, ws);
    TraceRoundTrip(EncHeader(ws) + body + Zeros(tail), Cursor(20, 0, Initially()), 0, es, ws);
  }

  /** Opening a file finds its body behind the header, ending where the file or its zeros do. */
  lemma FileLayout(body: seq<byte>, tail: nat, ws: nat)
    requires WordSize(ws)
    ensures var s := EncHeader(ws) + body + Zeros(tail);
            && At(s, 20, body) && Finished(s, 20 + |body|)
            && DecodeFile(s) == Some(Decode(s, Cursor(20, 0, Initially()), ws))
    ensures 0 < Pow256(ws)
  {
    hide Decode, Initially, Pow256, Finished;
    var s := EncHeader(ws) + body + Zeros(tail);
    HeaderRoundTrip(s, ws);
    HeaderLength(ws);
    hide EncHeader;
    assert s[20..20 + |body|] == body;
    assert s[20 + |body|..] == Zeros(tail);
    ZeroTail(s, 20 + |body|);
  }

  lemma HeaderLength(ws: nat)
    requires WordSize(ws)
    ensures |EncHeader(ws)| == 20
  {
  }

  lemma ZeroTail(s: seq<byte>, pos: nat)
    requires pos <= |s| && s[pos..] == Zeros(|s| - pos)
    ensures Finished(s, pos)
  {
    if pos + 4 <= |s| {
      assert s[pos..pos + 4] == s[pos..][..4] == [0, 0, 0, 0];
      ZeroWord();
    }
  }

  lemma ZeroWord()
    ensures Value([0, 0, 0, 0]) == 0
  {
    assert LittleEndian(0, 4) == [0, 0, 0, 0] by {
      assert LittleEndian(0, 2) == [0, 0];
    }
    ValueOfLittleEndian(0, 4);
  }

  lemma HeaderRoundTrip(s: seq<byte>, ws: nat)
    requires WordSize(ws) && EncHeader(ws) <= s
    ensures |s| >= 20 && GetWord(s, 0).0 == OPC_VERSION && GetWord(s, 16).0 == ws
  {
    assert At(s, 0, EncHeader(ws));
    hide EncWord, At;
    var rest2, rest3 := EncWord(VERSION_REV) + EncWord(ws), EncWord(VERSION_MINOR) + (EncWord(VERSION_REV) + EncWord(ws));
    AtSplit(s, 0, EncWord(OPC_VERSION), EncWord(VERSION_MAJOR) + rest3);
    AtSplit(s, 4, EncWord(VERSION_MAJOR), rest3);
    AtSplit(s, 8, EncWord(VERSION_MINOR), rest2);
    AtSplit(s, 12, EncWord(VERSION_REV), EncWord(ws));
    WordRoundTrip(s, 0, OPC_VERSION);
    WordRoundTrip(s, 16, ws);
  }

  // ---------------------------------------------------------------- what the file looks like

  /** The header, byte by byte: magic word, version 1.0.0 and the pointer width. */
  lemma HeaderMeans(ws: nat)
    requires WordSize(ws)
    ensures EncHeader(ws)
         == [0x1f, 0xca, 0xaf, 0xde] + [1, 0, 0, 0] + [0, 0, 0, 0] + [0, 0, 0, 0] + [ws, 0, 0, 0]
  {
    WordMeans(0xdeafca1f, 0x1f, 0xca, 0xaf, 0xde);
    WordMeans(1, 1, 0, 0, 0);
    WordMeans(0, 0, 0, 0, 0);
    WordMeans(ws, ws, 0, 0, 0);
    hide EncWord;
  }

  lemma WordMeans(w: word, a: byte, b: byte, c: byte, d: byte)
    requires w == a + 0x100 * b + 0x1_0000 * c + 0x100_0000 * d
    ensures EncWord(w) == [a, b, c, d]
  {
    var s: seq<byte> := [a, b, c, d];
    assert s[1..] == [b, c, d] && s[1..][1..] == [c, d] && s[1..][1..][1..] == [d] && [d][1..] == [];
    assert Value([d]) == d && Value([c, d]) == c + 256 * d;
    assert Value(s) == w;
    hide LittleEndian, Value;
    LittleEndianOfValue(s);
  }

  /** How often the thread changes in a run. */
  function Changes(prev: long, es: seq<Entry>): nat
    decreases |es|
  {
    if es == [] then 0 else (if es[0].thread != prev then 1 else 0) + Changes(es[0].thread, es[1..])
  }

  /** The bytes of the fields of a run. */
  function Payload(es: seq<Entry>, ws: nat): nat
    requires WordSize(ws)
    decreases |es|
  {
    if es == [] then 0 else |EncFields(es[0].fields, ws)| + Payload(es[1..], ws)
  }

  /** A run takes, besides its fields, an opcode and two times for each call, and an opcode and a thread
      wherever the thread changes. */
  lemma {:induction false} LengthMeans(prev: long, es: seq<Entry>, ws: nat)
    requires WordSize(ws)
    ensures |EncTrace(prev, es, ws)| == Payload(es, ws) + 20 * |es| + (4 + ws) * Changes(prev, es)
    decreases |es|
  {
    hide EncFields, EncWord, EncLong, LittleEndian;
    if es != [] {
      LengthMeans(es[0].thread, es[1..], ws);
      var n := Changes(es[0].thread, es[1..]);
      assert (4 + ws) * (n + 1) == (4 + ws) * n + 4 + ws;
    }
  }

  /** The prefix of a record by another thread: the opcode 2 and the thread. */
  lemma ThreadMeans(prev: long, thread: long, ws: nat)
    ensures Prefix(prev, thread, ws) == if prev == thread then [] else [2, 0, 0, 0] + LittleEndian(thread, ws)
  {
    WordMeans(2, 2, 0, 0, 0);
    hide EncWord, LittleEndian;
  }
}
