/**
 The trace writer and the decoder as loops over mutable state, proved to be the functions of `Trace`:
 the writer's buffer is always the encoding of the entries logged so far, and the decoder's output what
 the stream prints. `LogThenDecode` states the round trip for the two together.
 */
module TraceLog {
  import opened Bytes
  import opened Seqs
  import opened Trace
  import opened Wrappers

  /** Logging one more entry appends its bytes. */
  lemma {:induction false} EncodeAppend(p: Prev, es: seq<Entry>, e: Entry)
    requires |p.record.regs| == REGS && ValidEntry(e) && forall i :: 0 <= i < |es| ==> ValidEntry(es[i])
    ensures |AfterAll(p, es).record.regs| == REGS
    ensures Encode(p, es + [e]) == Encode(p, es) + EntryBytes(AfterAll(p, es), e)
    ensures AfterAll(p, es + [e]) == After(AfterAll(p, es), e)
    decreases |es|
  {
    if es == [] {
      assert es + [e] == [e] && [e][1..] == [];
    } else {
      assert (es + [e])[1..] == es[1..] + [e];
      EncodeAppend(After(p, es[0]), es[1..], e);
      Append3(EntryBytes(p, es[0]), Encode(After(p, es[0]), es[1..]), EntryBytes(AfterAll(p, es), e));
    }
  }

  function AfterAll(p: Prev, es: seq<Entry>): Prev
    decreases |es|
  {
    if es == [] then p else AfterAll(After(p, es[0]), es[1..])
  }

  function Fresh(): Prev { Prev(false, 0, Record(seq(REGS, _ => 0), 0, 0, 0, 0)) }

  /** The bits below `i` of the changed-register mask. */
  function MaskBelow(now: seq<nat>, was: seq<nat>, i: nat): nat
    requires |now| == |was| && i <= |now|
    decreases i
  {
    if i == 0 then 0 else MaskBelow(now, was, i - 1) + if now[i - 1] != was[i - 1] then Pow2(i - 1) else 0
  }

  lemma {:induction false} BitsSnoc(b: seq<bool>, last: bool)
    ensures Bits(b + [last]) == Bits(b) + if last then Pow2(|b|) else 0
    decreases |b|
  {
    var all := b + [last];
    if b == [] {
      assert all == [last] && all[1..] == [];
    } else {
      assert all[1..] == b[1..] + [last] && all[0] == b[0];
      BitsSnoc(b[1..], last);
    }
  }

  lemma {:induction false} MaskIs(now: seq<nat>, was: seq<nat>, i: nat)
    requires |now| == |was| && i <= |now|
    ensures MaskBelow(now, was, i) == Bits(Changed(now, was)[..i])
    decreases i
  {
    if i > 0 {
      MaskIs(now, was, i - 1);
      var b := Changed(now, was);
      assert b[..i] == b[..i - 1] + [now[i - 1] != was[i - 1]];
      BitsSnoc(b[..i - 1], now[i - 1] != was[i - 1]);
    }
  }

  lemma MaskAll(now: seq<nat>, was: seq<nat>)
    requires |now| == |was|
    ensures MaskBelow(now, was, |now|) == Bits(Changed(now, was))
  {
    MaskIs(now, was, |now|);
    assert Changed(now, was)[..|now|] == Changed(now, was);
  }

  lemma AllChanged(now: seq<nat>, was: seq<nat>, payload: seq<nat>)
    requires |now| == |was| == REGS
    ensures payload + ChangedRegs(now, was, REGS) == payload
  {
  }

  lemma NextChanged(now: seq<nat>, was: seq<nat>, i: nat, payload: seq<nat>)
    requires |now| == |was| == REGS && i < REGS
    ensures payload + ChangedRegs(now, was, i) ==
            (if now[i] != was[i] then payload + [now[i]] else payload) + ChangedRegs(now, was, i + 1)
  {
    Append3(payload, OptWord(now[i] != was[i], now[i]), ChangedRegs(now, was, i + 1));
    assert payload + [] == payload;
  }

  lemma NextMask(now: seq<nat>, was: seq<nat>, i: nat)
    requires |now| == |was| && i < |now|
    ensures MaskBelow(now, was, i + 1) == MaskBelow(now, was, i) + if now[i] != was[i] then Pow2(i) else 0
  {
  }

  class TraceWriter {
    var buf: seq<Byte>
    var prev: Prev
    ghost var logged: seq<Entry>

    ghost predicate Valid()
      reads this
    {
      && (forall i :: 0 <= i < |logged| ==> ValidEntry(logged[i]))
      && buf == Encode(Fresh(), logged) && prev == AfterAll(Fresh(), logged) && |prev.record.regs| == REGS
    }

    constructor ()
      ensures Valid() && logged == []
    {
      buf, prev, logged := [], Fresh(), [];
    }

    /** The mask loop: the changed registers, ascending. */
    method ChangedLoop(now: seq<nat>, was: seq<nat>, head: seq<nat>) returns (mask: nat, payload: seq<nat>)
      requires |now| == |was| == REGS
      ensures mask == Bits(Changed(now, was)) && payload == head + ChangedRegs(now, was, 0)
    {
      ghost var want := head + ChangedRegs(now, was, 0);
      mask, payload := 0, head;
      for i := 0 to REGS
        invariant mask == MaskBelow(now, was, i) && payload + ChangedRegs(now, was, i) == want
      {
        NextChanged(now, was, i, payload);
        NextMask(now, was, i);
        if now[i] != was[i] {
          mask := mask + Pow2(i);
          payload := payload + [now[i]];
        }
      }
      MaskAll(now, was);
      AllChanged(now, was, payload);
    }

    /** The flags, mask and payload of a delta record. */
    method DeltaPayload(r: Record) returns (flags: nat, mask: nat, payload: seq<nat>)
      requires |r.regs| == |prev.record.regs| == REGS
      ensures flags == Flags(r, prev.record) && mask == Bits(Changed(r.regs, prev.record.regs)) && payload == Payload(r, prev.record)
    {
      var was := prev.record;
      flags := Bits([false, PcSeq(r, was), r.opcode == was.opcode, r.spsr == was.spsr, r.cpsr == was.cpsr]);
      var head := OptWord(!PcSeq(r, was), r.pc);
      head := head + OptWord(r.cpsr != was.cpsr, r.cpsr);
      head := head + OptWord(r.spsr != was.spsr, r.spsr);
      head := head + OptWord(r.opcode != was.opcode, r.opcode);
      mask, payload := ChangedLoop(r.regs, was.regs, head);
      Append5(OptWord(!PcSeq(r, was), r.pc), OptWord(r.cpsr != was.cpsr, r.cpsr), OptWord(r.spsr != was.spsr, r.spsr),
             OptWord(r.opcode != was.opcode, r.opcode), ChangedRegs(r.regs, was.regs, 0));
    }

    /** An entry's bytes, appended. */
    method Append(bytes: seq<Byte>, next: Prev, ghost e: Entry)
      requires Valid() && ValidEntry(e) && bytes == EntryBytes(prev, e) && next == After(prev, e)
      modifies this
      ensures Valid() && logged == old(logged) + [e]
    {
      EncodeAppend(Fresh(), logged, e);
      buf, prev, logged := buf + bytes, next, logged + [e];
    }

    /** The bytes of the next instruction record, and the state after it. */
    method Instruction(r: Record, padding: seq<Byte>) returns (bytes: seq<Byte>, next: Prev)
      requires |prev.record.regs| == REGS && ValidRecord(r) && |padding| == 3
      ensures bytes == InstBytes(prev, r, padding) && next == After(prev, Inst(r, padding))
    {
      if NeedsKeyframe(prev) {
        bytes, next := [TAG_INST] + KeyframeBytes(r, padding), Prev(true, 0, r);
      } else {
        var flags, mask, payload := DeltaPayload(r);
        bytes := [TAG_INST_DELTA] + (LeBytes(flags, 1) + LeBytes(mask, 2)) + WordsBytes(payload);
        next := Prev(true, prev.sinceKeyframe + 1, r);
      }
    }

    method WriteRecord(r: Record, padding: seq<Byte>)
      requires Valid() && ValidRecord(r) && |padding| == 3
      modifies this
      ensures Valid() && logged == old(logged) + [Inst(r, padding)]
    {
      var bytes, next := Instruction(r, padding);
      Append(bytes, next, Inst(r, padding));
    }

    method WriteText(text: seq<Byte>, newline: bool)
      requires Valid() && |text| < U32
      modifies this
      ensures Valid() && logged == old(logged) + [Text(text, newline)]
    {
      Append([TAG_TEXT] + (LeBytes(|text|, 4) + (text + [if newline then 1 else 0])), prev, Text(text, newline));
    }

    method LogMem(kind: nat, addr: nat, value: nat)
      requires Valid() && kind < 7 && addr < U32 && value < U32
      modifies this
      ensures Valid() && logged == old(logged) + [Access(kind, addr, value)]
    {
      var code := WidthCode(value);
      Append(MemRecord(kind, code, addr, LeBytes(value, Width(code))), prev, Access(kind, addr, value));
    }

    method LogMemSlice(kind: nat, addr: nat, size: nat, values: seq<nat>)
      requires Valid() && ValidEntry(Slice(kind, addr, size, values))
      modifies this
      ensures Valid() && logged == old(logged) + [Slice(kind, addr, size, values)]
    {
      var bytes: seq<Byte> := [];
      if values != [] {
        bytes := MemRecord(kind, SizeCode(size), addr, LeBytes(|values|, 4) + ValuesBytes(values, size));
      }
      Append(bytes, prev, Slice(kind, addr, size, values));
    }
  }

  /** The reader loop. */
  method DecodeFile(data: seq<Byte>) returns (lines: seq<Line>)
    ensures lines == Decode(data, None)
  {
    lines := [];
    var rest := data;
    var prev: Option<Record> := None;
    while rest != []
      invariant ValidPrev(prev) && lines + Decode(rest, prev) == Decode(data, None)
      decreases |rest|
    {
      var step := ParseOne(rest, prev);
      match step
      case Stop(last) =>
        lines := lines + last;
        return;
      case Next(more, tail, p) =>
        Append3(lines, more, Decode(tail, p));
        lines := lines + more;
        rest, prev := tail, p;
    }
  }

  /** Whatever a writer has logged decodes to exactly that. */
  method LogThenDecode(w: TraceWriter) returns (lines: seq<Line>)
    requires w.Valid()
    ensures lines == AllLines(w.logged)
  {
    lines := DecodeFile(w.buf);
    DecodeEncode(Fresh(), w.logged, None);
  }
}
