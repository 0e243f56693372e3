/** Records the replayer does not get through: calls it has no decoder for, attribute lists that are too
    long, and escaped floats, behind which it reads the rest of the record four bytes too early. */
module Refusals {
  import opened Words
  import opened Fields
  import opened Commands
  import opened Replay
  import opened Bodies
  import opened Trace

  // ---------------------------------------------------------------- longs are two words

  const TWO_32: nat := 0x1_0000_0000

  function Lo(x: long): word {
    x % TWO_32
  }

  function Hi(x: long): word {
    x / TWO_32
  }

  function Compose(lo: word, hi: word): long {
    lo + TWO_32 * hi
  }

  lemma {:induction false} LittleEndianConcat(lo: nat, hi: nat, n: nat, m: nat)
    requires lo < Pow256(n)
    ensures LittleEndian(lo + Pow256(n) * hi, n + m) == LittleEndian(lo, n) + LittleEndian(hi, m)
  {
    if n == 0 {
      assert LittleEndian(lo, 0) + LittleEndian(hi, m) == LittleEndian(hi, m);
    } else {
      var p := Pow256(n - 1);
      LittleEndianConcat(lo / 256, hi, n - 1, m);
      assert lo + Pow256(n) * hi == lo + 256 * (p * hi) by { assert Pow256(n) * hi == 256 * (p * hi); }
      assert (lo + 256 * (p * hi)) % 256 == lo % 256 && (lo + 256 * (p * hi)) / 256 == lo / 256 + p * hi;
      assert [lo % 256] + (LittleEndian(lo / 256, n - 1) + LittleEndian(hi, m))
          == [lo % 256] + LittleEndian(lo / 256, n - 1) + LittleEndian(hi, m);
    }
  }

  lemma LongIsTwoWords(lo: word, hi: word)
    ensures EncLong(Compose(lo, hi)) == EncWord(lo) + EncWord(hi)
  {
    PowersOf256();
    LittleEndianConcat(lo, hi, 4, 4);
  }

  /** Two times read from one word in front of them: every word slips by one place. */
  lemma ShiftedTimes(s: seq<byte>, q: nat, second: word, bgn: long, end: long)
    requires At(s, q, EncWord(second)) && At(s, q + 4, EncLong(bgn) + EncLong(end))
    ensures GetLong(s, q) == (Compose(second, Lo(bgn)), q + 8)
    ensures GetLong(s, q + 8) == (Compose(Hi(bgn), Lo(end)), q + 16)
    ensures At(s, q + 16, EncWord(Hi(end)))
  {
    hide EncWord, EncLong, At, GetLong, Compose, Lo, Hi;
    AtSplit(s, q + 4, EncLong(bgn), EncLong(end));
    TwoWords(bgn);
    TwoWords(end);
    AtSplit(s, q + 4, EncWord(Lo(bgn)), EncWord(Hi(bgn)));
    AtSplit(s, q + 12, EncWord(Lo(end)), EncWord(Hi(end)));
    AtTwo(s, q, second, Lo(bgn));
    AtTwo(s, q + 8, Hi(bgn), Lo(end));
  }

  lemma TwoWords(x: long)
    ensures EncLong(x) == EncWord(Lo(x)) + EncWord(Hi(x))
  {
    hide EncWord, EncLong;
    LongIsTwoWords(Lo(x), Hi(x));
  }

  lemma AtTwo(s: seq<byte>, q: nat, lo: word, hi: word)
    requires At(s, q, EncWord(lo)) && At(s, q + 4, EncWord(hi))
    ensures GetLong(s, q) == (Compose(lo, hi), q + 8)
  {
    hide EncWord, EncLong, GetLong, Compose;
    LongIsTwoWords(lo, hi);
    assert s[q..q + 8] == s[q..q + 4] + s[q + 4..q + 8];
    LongRoundTrip(s, q, Compose(lo, hi));
  }

  /** A long whose halves are both `w`. */
  function Twin(w: word): long {
    Compose(w, w)
  }

  /** The slipped times are the recorded ones exactly if all their words are the same. */
  lemma ShiftedExact(second: word, bgn: long, end: long)
    ensures Compose(second, Lo(bgn)) == bgn && Compose(Hi(bgn), Lo(end)) == end
       <==> bgn == Twin(second) && end == Twin(second)
  {
    hide Compose, Lo, Hi;
    ComposeExact(second, Lo(bgn), bgn);
    ComposeExact(Hi(bgn), Lo(end), end);
    ComposeExact(second, second, bgn);
    ComposeExact(second, second, end);
  }

  lemma ComposeExact(lo: word, hi: word, x: long)
    ensures Compose(lo, hi) == x <==> lo == Lo(x) && hi == Hi(x)
  {
  }

  // ---------------------------------------------------------------- bodies

  /** A decoded call with a float that is null or the marker. */
  predicate Escaping(c: Call) {
    c.Plain? && !Unreplayed(c.op) && !NoEscape(c.args)
  }

  lemma RefusedPlain(s: seq<byte>, pos: nat, st: Tracked, c: Call, ws: nat)
    requires Lies(s, pos, st, c, ws) && c.Plain? && !Replayable(c)
    ensures !Escaping(c) ==> ReadBody(s, pos, st, c.op, ws) == Stopped
    ensures Escaping(c) ==>
              && |c.args| == 2 && c.args[1].FFloatPtr? && |EncFields(c.args, ws)| >= 4
              && var q := pos + |EncFields(c.args, ws)| - 4;
                 && ReadBody(s, pos, st, c.op, ws) == Parsed(ReadBacks(c.args, ws), q)
                 && At(s, q, EncWord(SecondWord(c.args[1].v)))
  {
    TablesAgree(c.op);
    hide TracerShape, ReplayShape, EncFields, ReadKinds, Kinds, At;
    if Unreplayed(c.op) {
      UnreplayedStops(s, pos, st, c.op, ws);
    } else {
      var i :| 0 <= i < |c.args| && Escapes(c.args[i]);
      KindAt(c.args, i);
      OnlyGetFloatv(c.op, Kinds(c.args), i);
      assert |c.args| == |Kinds(c.args)|;
      EscapeDerails(s, pos, c.args, ws);
    }
  }

  lemma RefusedList(s: seq<byte>, pos: nat, st: Tracked, c: Call, ws: nat)
    requires Lies(s, pos, st, c, ws) && !c.Plain? && !Replayable(c)
    ensures ReadBody(s, pos, st, Opcode(c), ws) == Stopped
  {
    CallsDecoded(Opcode(c));
    hide ReplayShape, EncFields, Record, ReadChooseConfig, ReadCreateHandle, WellFormed, Escapes;
    if c.ChooseConfig? {
      ChooseConfigBody(s, pos, st, c, ws);
    } else {
      CreateHandleBody(s, pos, st, c, ws);
    }
  }

  /** What the decoder makes of the body of a call that does not pass its guards: it gives up, or it has
      the values and stands in front of the last word of the body. */
  lemma RefusedBody(s: seq<byte>, pos: nat, st: Tracked, c: Call, ws: nat)
    requires Lies(s, pos, st, c, ws) && !Replayable(c)
    ensures !Escaping(c) ==> ReadBody(s, pos, st, Opcode(c), ws) == Stopped
    ensures Escaping(c) ==>
              && |c.args| == 2 && c.args[1].FFloatPtr? && |EncFields(c.args, ws)| >= 4
              && var q := pos + |EncFields(c.args, ws)| - 4;
                 && ReadBody(s, pos, st, Opcode(c), ws) == Parsed(ReadBacks(c.args, ws), q)
                 && At(s, q, EncWord(SecondWord(c.args[1].v)))
  {
    hide Lies, ReadBody, EncFields, ReadBacks, NoEscape, Unreplayed;
    if c.Plain? {
      RefusedPlain(s, pos, st, c, ws);
    } else {
      RefusedList(s, pos, st, c, ws);
    }
  }

  // ---------------------------------------------------------------- items

  /** An escaping call whose times hide the slip: all their words repeat the word in front of them. */
  predicate Frozen(e: Entry) {
    && Escaping(e.call) && |e.call.args| == 2 && e.call.args[1].FFloatPtr?
    && var w := SecondWord(e.call.args[1].v); e.bgn == e.end == Twin(w)
  }

  /** Behind such a record the decoder finds no command. */
  lemma DeadEnd(s: seq<byte>, cur: Cursor, w: word, ws: nat)
    requires WordSize(ws) && At(s, cur.pos, EncWord(w)) && (w == 0 || w == FLOAT_MARKER)
    ensures Decode(s, cur, ws) == []
  {
    CmdRoundTrip(s, cur.pos, w);
    assert w == FLOAT_MARKER ==> ReplayShape(w) == None;
    hide ReplayShape, At;
  }

  lemma EscapedItem(s: seq<byte>, cur: Cursor, lead: Lead, q: nat, e: Entry, second: word, ws: nat)
    requires WordSize(ws) && EntryWellFormed(e, ws)
    requires ReadLead(s, cur, ws) == lead && lead.thread == Widen(e.thread, ws) && lead.op == Opcode(e.call)
    requires lead.op != OPC_NONE && lead.op != OPC_EOF
    requires ReadBody(s, lead.pos, cur.st, lead.op, ws) == Parsed(ReadBacks(e.fields, ws), q)
    requires At(s, q, EncWord(second)) && At(s, q + 4, EncLong(e.bgn) + EncLong(e.end))
    ensures var got := ReadItem(s, cur, ws);
            && got.Got? && (got.item == ItemOf(e, ws) <==> e.bgn == e.end == Twin(second))
            && At(s, got.cur.pos, EncWord(Hi(e.end)))
  {
    hide ReadLead, ReadBody, GetLong, AfterItem, ReadBacks, Widen, At, EncWord, EncLong, Compose, Lo, Hi, Twin;
    ShiftedTimes(s, q, second, e.bgn, e.end);
    ShiftedExact(second, e.bgn, e.end);
  }

  lemma TwinHigh(w: word)
    ensures Hi(Twin(w)) == w
  {
  }

  /** The record of a call that does not pass the guards: the decoder stops, or yields an item that is the
      recorded one exactly if the times are frozen, and then stops. */
  lemma RefusedItem(s: seq<byte>, cur: Cursor, prev: long, e: Entry, ws: nat)
    requires WordSize(ws) && cur.st.Valid() && prev < Pow256(ws) && cur.thread == Widen(prev, ws)
    requires EntryWellFormed(e, ws) && Recordable(e.call, ws) && !Replayable(e.call)
    requires e.fields == Record(cur.st, e.call, ws) && At(s, cur.pos, EncEntry(prev, e, ws))
    ensures !Escaping(e.call) ==> ReadItem(s, cur, ws) == End
    ensures Escaping(e.call) ==>
              var got := ReadItem(s, cur, ws);
              && got.Got? && (got.item == ItemOf(e, ws) <==> Frozen(e))
              && (Frozen(e) ==> Decode(s, got.cur, ws) == [])
  {
    hide *;
    EntryParts(e, ws);
    OpcodesAreCommands(e.call, ws);
    FrameRoundTrip(s, cur, prev, e, ws);
    var p := BodyStart(cur.pos, prev, e, ws);
    BodyLies(s, p, cur.st, e, ws);
    RefusedBody(s, p, cur.st, e.call, ws);
    if Escaping(e.call) {
      PlainFields(cur.st, e.call, ws);
      var second, q := SecondWord(e.call.args[1].v), p + |EncFields(e.fields, ws)| - 4;
      EscapedItem(s, cur, ReadLead(s, cur, ws), q, e, second, ws);
      FrozenIs(e);
      if Frozen(e) {
        TwinHigh(second);
        SecondWords(e.call.args[1].v);
        DeadEnd(s, ReadItem(s, cur, ws).cur, second, ws);
      }
    } else {
      NoItem(s, cur, ws);
    }
  }

  lemma BodyLies(s: seq<byte>, p: nat, st: Tracked, e: Entry, ws: nat)
    requires WordSize(ws) && st.Valid() && Recordable(e.call, ws)
    requires e.fields == Record(st, e.call, ws) && At(s, p, EncFields(e.fields, ws))
    ensures Lies(s, p, st, e.call, ws)
  {
    hide Record, Recordable, EncFields, At, AllWellFormed, NoEscape;
    RecordWellFormed(st, e.call, ws);
  }

  lemma PlainFields(st: Tracked, c: Call, ws: nat)
    requires st.Valid() && Recordable(c, ws) && Escaping(c)
    ensures c.Plain? && Record(st, c, ws) == c.args
  {
    hide Recordable, NoEscape, Unreplayed;
  }

  lemma FrozenIs(e: Entry)
    requires Escaping(e.call) && |e.call.args| == 2 && e.call.args[1].FFloatPtr?
    ensures Frozen(e) <==> e.bgn == e.end == Twin(SecondWord(e.call.args[1].v))
  {
    hide Escaping, Twin;
  }

  lemma SecondWords(v: Option<word>)
    ensures SecondWord(v) == 0 || SecondWord(v) == FLOAT_MARKER
  {
  }

  lemma NoItem(s: seq<byte>, cur: Cursor, ws: nat)
    requires WordSize(ws)
    requires var lead := ReadLead(s, cur, ws); ReadBody(s, lead.pos, cur.st, lead.op, ws) == Stopped
    ensures ReadItem(s, cur, ws) == End
  {
    hide ReadLead, ReadBody;
  }
}
