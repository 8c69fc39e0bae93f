/**
 The instruction-trace format: keyframes, delta records, text and memory accesses in one byte stream.

 - `DecodeEncode`: decoding the bytes of any interleaving of logged entries prints exactly those entries,
   through keyframes, sequential-pc and unchanged-field elision and variable-width values;
 - `CutIsPrefix`: cutting any byte stream anywhere, even a corrupt one, prints a prefix of its output.
 */
module Trace {
  import opened Bytes
  import opened Seqs
  import opened Wrappers

  const U32 := 0x1_0000_0000
  const REGS := 15
  const RECORD_SIZE := 80
  const KEYFRAME_INTERVAL := 0x10_0000

  const TAG_INST: Byte := 0
  const TAG_TEXT: Byte := 1
  const TAG_INST_DELTA: Byte := 2
  const TAG_MEM: Byte := 3

  /** The registers, pc, status words and opcode of one executed instruction. */
  datatype Record = Record(regs: seq<nat>, pc: nat, cpsr: nat, spsr: nat, opcode: nat)

  predicate ValidRecord(r: Record) {
    |r.regs| == REGS && (forall i :: 0 <= i < REGS ==> r.regs[i] < U32) && r.pc < U32 && r.cpsr < U32 && r.spsr < U32 && r.opcode < U32
  }

  predicate Thumb(cpsr: nat) { cpsr / 32 % 2 == 1 }

  function NextPc(pc: nat, cpsr: nat): nat { (pc + if Thumb(cpsr) then 2 else 4) % U32 }

  /** What is logged. A keyframe copies the record with its padding, whatever that holds. */
  datatype Entry =
    | Inst(record: Record, padding: seq<Byte>)
    | Text(text: seq<Byte>, newline: bool)
    | Access(kind: nat, addr: nat, value: nat)
    | Slice(kind: nat, addr: nat, size: nat, values: seq<nat>)

  predicate ValidEntry(e: Entry) {
    match e
    case Inst(r, padding) => ValidRecord(r) && |padding| == 3
    case Text(text, _) => |text| < U32
    case Access(kind, addr, value) => kind < 7 && addr < U32 && value < U32
    case Slice(kind, addr, size, values) =>
      && 7 <= kind <= 10 && addr < U32 && (size == 1 || size == 2 || size == 4) && |values| < U32
      && forall i :: 0 <= i < |values| ==> values[i] < Pow256(size)
  }

  /** What is printed. */
  datatype Line = Executed(record: Record) | Raw(text: seq<Byte>, newline: bool) | Mem(cpu: nat, kind: nat, addr: nat, value: nat)

  function Stride(kind: nat, size: nat): nat { if kind == 7 || kind == 9 then size else 0 }

  /** The lines of the elements of a slice access from element `i` on. */
  function SliceLines(cpu: nat, kind: nat, addr: nat, stride: nat, values: seq<nat>, i: nat): seq<Line>
    decreases |values|
  {
    if values == [] then []
    else [Mem(cpu, kind, (addr + i * stride) % U32, values[0])] + SliceLines(cpu, kind, addr, stride, values[1..], i + 1)
  }

  /** One line for each element, at successive addresses for the plain kinds and at one address for the fixed ones. */
  lemma {:induction false} SliceLinesAre(cpu: nat, kind: nat, addr: nat, stride: nat, values: seq<nat>, i: nat)
    ensures |SliceLines(cpu, kind, addr, stride, values, i)| == |values|
    ensures forall k :: 0 <= k < |values| ==>
              SliceLines(cpu, kind, addr, stride, values, i)[k] == Mem(cpu, kind, (addr + (i + k) * stride) % U32, values[k])
    decreases |values|
  {
    if values != [] { SliceLinesAre(cpu, kind, addr, stride, values[1..], i + 1); }
  }

  function LinesOf(e: Entry): seq<Line> {
    match e
    case Inst(r, _) => [Executed(r)]
    case Text(text, newline) => [Raw(text, newline)]
    case Access(kind, addr, value) => [Mem(0, kind, addr, value)]
    case Slice(kind, addr, size, values) => SliceLines(0, kind, addr, Stride(kind, size), values, 0)
  }

  function AllLines(es: seq<Entry>): seq<Line>
    decreases |es|
  {
    if es == [] then [] else LinesOf(es[0]) + AllLines(es[1..])
  }

  // ---------------------------------------------------------------------------------------------
  // Bit masks

  /** Bit `i` of the number is element `i`. */
  function Bits(b: seq<bool>): nat
    decreases |b|
  {
    if b == [] then 0 else (if b[0] then 1 else 0) + 2 * Bits(b[1..])
  }

  predicate TestBit(n: nat, i: nat)
    decreases i
  {
    if i == 0 then n % 2 == 1 else TestBit(n / 2, i - 1)
  }

  lemma LowBit(b: bool, m: nat, n: nat)
    requires n == (if b then 1 else 0) + 2 * m
    ensures (n % 2 == 1) == b && n / 2 == m
  {
  }

  lemma {:induction false} BitsTest(b: seq<bool>, i: nat)
    requires i < |b|
    ensures TestBit(Bits(b), i) == b[i]
    decreases i
  {
    LowBit(b[0], Bits(b[1..]), Bits(b));
    if i > 0 { BitsTest(b[1..], i - 1); }
  }

  lemma {:induction false} BitsBound(b: seq<bool>)
    requires |b| <= REGS
    ensures Bits(b) < Pow2(|b|)
    decreases |b|
  {
    if b != [] { BitsBound(b[1..]); }
  }

  function Pow2(n: nat): nat
    decreases n
  {
    if n == 0 then 1 else 2 * Pow2(n - 1)
  }

  // ---------------------------------------------------------------------------------------------
  // Encoding

  /** The writer's memory of the last instruction record. */
  datatype Prev = Prev(valid: bool, sinceKeyframe: nat, record: Record)

  function WordsBytes(ws: seq<nat>): (r: seq<Byte>)
    ensures |r| == 4 * |ws|
    decreases |ws|
  {
    if ws == [] then [] else LeBytes(ws[0], 4) + WordsBytes(ws[1..])
  }

  function OptWord(present: bool, x: nat): seq<nat> { if present then [x] else [] }

  function Changed(now: seq<nat>, was: seq<nat>): seq<bool>
    requires |now| == |was|
  {
    seq(|now|, i requires 0 <= i < |now| => now[i] != was[i])
  }

  function ChangedRegs(now: seq<nat>, was: seq<nat>, i: nat): seq<nat>
    requires |now| == |was| == REGS && i <= REGS
    decreases REGS - i
  {
    if i == REGS then [] else OptWord(now[i] != was[i], now[i]) + ChangedRegs(now, was, i + 1)
  }

  function PcSeq(now: Record, was: Record): bool { now.pc == NextPc(was.pc, now.cpsr) }

  /** Sequential pc, unchanged opcode, spsr and cpsr: bits 1 to 4. */
  function Flags(now: Record, was: Record): nat {
    Bits([false, PcSeq(now, was), now.opcode == was.opcode, now.spsr == was.spsr, now.cpsr == was.cpsr])
  }

  function Payload(now: Record, was: Record): seq<nat>
    requires |now.regs| == |was.regs| == REGS
  {
    OptWord(!PcSeq(now, was), now.pc) + (OptWord(now.cpsr != was.cpsr, now.cpsr) + (OptWord(now.spsr != was.spsr, now.spsr)
    + (OptWord(now.opcode != was.opcode, now.opcode) + ChangedRegs(now.regs, was.regs, 0))))
  }

  function KeyframeBytes(r: Record, padding: seq<Byte>): (b: seq<Byte>)
    requires |r.regs| == REGS && |padding| == 3
    ensures |b| == RECORD_SIZE
  {
    WordsBytes(r.regs + [r.pc, r.cpsr, r.spsr, r.opcode]) + ([0] + padding)
  }

  lemma FlagsFit(b: seq<bool>)
    requires |b| == 5
    ensures Bits(b) < 32
  {
    BitsBound(b);
    assert Pow2(5) == 2 * Pow2(4) && Pow2(4) == 2 * Pow2(3) && Pow2(3) == 2 * Pow2(2) && Pow2(2) == 2 * Pow2(1) && Pow2(1) == 2 * Pow2(0);
  }

  function DeltaBytes(now: Record, was: Record): seq<Byte>
    requires |now.regs| == |was.regs| == REGS
  {
    [TAG_INST_DELTA] + (LeBytes(Flags(now, was), 1) + LeBytes(Bits(Changed(now.regs, was.regs)), 2)) + WordsBytes(Payload(now, was))
  }

  predicate NeedsKeyframe(p: Prev) { !p.valid || p.sinceKeyframe >= KEYFRAME_INTERVAL }

  function InstBytes(p: Prev, r: Record, padding: seq<Byte>): seq<Byte>
    requires |r.regs| == |p.record.regs| == REGS && |padding| == 3
  {
    if NeedsKeyframe(p) then [TAG_INST] + KeyframeBytes(r, padding) else DeltaBytes(r, p.record)
  }

  function WidthCode(value: nat): nat { if value == 0 then 0 else if value <= 0xFF then 1 else if value <= 0xFFFF then 2 else 3 }
  function Width(code: nat): nat { if code == 0 then 0 else if code == 1 then 1 else if code == 2 then 2 else 4 }
  function SizeCode(size: nat): nat { if size == 1 then 1 else if size == 2 then 2 else 3 }

  function MemMeta(kind: nat, code: nat): Byte
    requires kind < 16 && code < 4
  {
    (kind + 32 * code) as Byte
  }

  function ValuesBytes(values: seq<nat>, size: nat): seq<Byte>
    decreases |values|
  {
    if values == [] then [] else LeBytes(values[0], size) + ValuesBytes(values[1..], size)
  }

  function MemRecord(kind: nat, code: nat, addr: nat, body: seq<Byte>): seq<Byte>
    requires kind < 16 && code < 4
  {
    [TAG_MEM] + (([MemMeta(kind, code)] + LeBytes(addr, 4)) + body)
  }

  /** The bytes an entry appends, given the writer's memory. */
  function EntryBytes(p: Prev, e: Entry): seq<Byte>
    requires ValidEntry(e) && |p.record.regs| == REGS
  {
    match e
    case Inst(r, padding) => InstBytes(p, r, padding)
    case Text(text, newline) => [TAG_TEXT] + (LeBytes(|text|, 4) + (text + [if newline then 1 else 0]))
    case Access(kind, addr, value) =>
      var code := WidthCode(value);
      MemRecord(kind, code, addr, LeBytes(value, Width(code)))
    case Slice(kind, addr, size, values) =>
      if values == [] then []
      else MemRecord(kind, SizeCode(size), addr, LeBytes(|values|, 4) + ValuesBytes(values, size))
  }

  function After(p: Prev, e: Entry): Prev {
    if e.Inst? then Prev(true, if NeedsKeyframe(p) then 0 else p.sinceKeyframe + 1, e.record) else p
  }

  function Encode(p: Prev, es: seq<Entry>): seq<Byte>
    requires |p.record.regs| == REGS && forall i :: 0 <= i < |es| ==> ValidEntry(es[i])
    decreases |es|
  {
    if es == [] then [] else EntryBytes(p, es[0]) + Encode(After(p, es[0]), es[1..])
  }

  // ---------------------------------------------------------------------------------------------
  // Decoding

  /** The rest of the stream; a read past the end drains it and marks it truncated. */
  datatype Stream = Stream(rest: seq<Byte>, truncated: bool)

  datatype Got<T> = Got(value: T, s: Stream)

  function NextWord(s: Stream): (g: Got<nat>)
    ensures g.value < U32 && |g.s.rest| <= |s.rest|
  {
    if |s.rest| < 4 then Got(0, Stream([], true))
    else
      WordFits(s.rest[..4]);
      Got(Le(s.rest[..4]), Stream(s.rest[4..], s.truncated))
  }

  lemma WordFits(b: seq<Byte>)
    requires |b| == 4
    ensures Le(b) < U32
  {
    LeInverse(b);
    Widths();
  }

  function TakeWord(present: bool, otherwise: nat, s: Stream): (g: Got<nat>)
    ensures |g.s.rest| <= |s.rest|
  {
    if present then NextWord(s) else Got(otherwise, s)
  }

  function TakeRegs(mask: nat, regs: seq<nat>, i: nat, s: Stream): (g: Got<seq<nat>>)
    requires |regs| == REGS && i <= REGS
    ensures |g.value| == REGS && |g.s.rest| <= |s.rest|
    decreases REGS - i
  {
    if i == REGS then Got(regs, s)
    else if TestBit(mask, i) then
      var g := NextWord(s);
      TakeRegs(mask, regs[i := g.value], i + 1, g.s)
    else TakeRegs(mask, regs, i + 1, s)
  }

  /** One record: its lines and what follows, or the end of the decode. */
  datatype Step = Stop(lines: seq<Line>) | Next(lines: seq<Line>, rest: seq<Byte>, prev: Option<Record>)

  predicate ValidPrev(prev: Option<Record>) { prev.Some? ==> |prev.value.regs| == REGS }

  function WordsOf(b: seq<Byte>): (r: seq<nat>)
    requires |b| % 4 == 0
    ensures |r| == |b| / 4
    decreases |b|
  {
    if b == [] then [] else [Le(b[..4])] + WordsOf(b[4..])
  }

  function RecordOf(buf: seq<Byte>): (r: Record)
    requires |buf| == RECORD_SIZE
    ensures |r.regs| == REGS
  {
    var ws := WordsOf(buf[..76]);
    Record(ws[..REGS], ws[15], ws[16], ws[17], ws[18])
  }

  function ParseKeyframe(b: seq<Byte>, prev: Option<Record>): Step {
    if |b| < RECORD_SIZE then Stop([])
    else
      var r := RecordOf(b[..RECORD_SIZE]);
      // only the first cpu's record is ever used for deltas
      Next([Executed(r)], b[RECORD_SIZE..], if b[76] == 0 then Some(r) else prev)
  }

  /** The pc and the status words of a delta, the registers still the previous ones. */
  function DeltaFields(flags: nat, was: Record, s: Stream): (g: Got<Record>)
    ensures g.value.regs == was.regs && |g.s.rest| <= |s.rest|
  {
    var pc := TakeWord(!TestBit(flags, 1), 0, s);
    var cpsr := TakeWord(!TestBit(flags, 4), was.cpsr, pc.s);
    var spsr := TakeWord(!TestBit(flags, 3), was.spsr, cpsr.s);
    var opcode := TakeWord(!TestBit(flags, 2), was.opcode, spsr.s);
    Got(Record(was.regs, if TestBit(flags, 1) then NextPc(was.pc, cpsr.value) else pc.value, cpsr.value, spsr.value, opcode.value), opcode.s)
  }

  function DeltaRecord(flags: nat, mask: nat, was: Record, s: Stream): (g: Got<Record>)
    requires |was.regs| == REGS
    ensures |g.value.regs| == REGS && |g.s.rest| <= |s.rest|
  {
    var fields := DeltaFields(flags, was, s);
    var regs := TakeRegs(mask, was.regs, 0, fields.s);
    Got(fields.value.(regs := regs.value), regs.s)
  }

  function ParseDelta(b: seq<Byte>, prev: Option<Record>): Step
    requires ValidPrev(prev)
  {
    if |b| < 3 || prev.None? then Stop([])
    else
      var g := DeltaRecord(b[0] as nat, Le(b[1..3]), prev.value, Stream(b[3..], false));
      if g.s.truncated then Stop([]) else Next([Executed(g.value)], g.s.rest, Some(g.value))
  }

  function ParseText(b: seq<Byte>, prev: Option<Record>): Step {
    if |b| < 4 then Stop([])
    else
      var n := Le(b[..4]);
      if |b| < 4 + n + 1 then Stop([]) else Next([Raw(b[4..4 + n], b[4 + n] != 0)], b[4 + n + 1..], prev)
  }

  datatype Elements = Elements(values: seq<nat>, rest: Option<seq<Byte>>)

  /** The element loop: a short element ends it, and with it the stream. */
  function TakeElements(b: seq<Byte>, width: nat, count: nat): (r: Elements)
    ensures r.rest.Some? ==> |r.rest.value| <= |b|
    decreases count
  {
    if count == 0 then Elements([], Some(b))
    else if |b| < width then Elements([], None)
    else
      var more := TakeElements(b[width..], width, count - 1);
      Elements([Le(b[..width])] + more.values, more.rest)
  }

  function ParseMem(b: seq<Byte>, prev: Option<Record>): Step {
    if |b| < 5 then Stop([])
    else
      var kind, cpu, width := b[0] as nat % 16, b[0] as nat / 16 % 2, Width(b[0] as nat / 32 % 4);
      var addr := Le(b[1..5]);
      if 7 <= kind <= 10 then
        if |b| < 9 then Stop([])
        else
          var es := TakeElements(b[9..], width, Le(b[5..9]));
          var lines := SliceLines(cpu, kind, addr, Stride(kind, width), es.values, 0);
          if es.rest.None? then Stop(lines) else Next(lines, es.rest.value, prev)
      else if |b| < 5 + width then Stop([])
      else Next([Mem(cpu, kind, addr, Le(b[5..5 + width]))], b[5 + width..], prev)
  }

  function ParseOne(b: seq<Byte>, prev: Option<Record>): (r: Step)
    requires b != [] && ValidPrev(prev)
    ensures r.Next? ==> |r.rest| < |b| && ValidPrev(r.prev)
  {
    if b[0] == TAG_INST then ParseKeyframe(b[1..], prev)
    else if b[0] == TAG_INST_DELTA then ParseDelta(b[1..], prev)
    else if b[0] == TAG_TEXT then ParseText(b[1..], prev)
    else if b[0] == TAG_MEM then ParseMem(b[1..], prev)
    else Stop([])
  }

  /** Everything a stream prints. */
  function Decode(b: seq<Byte>, prev: Option<Record>): seq<Line>
    requires ValidPrev(prev)
    decreases |b|
  {
    if b == [] then []
    else
      match ParseOne(b, prev)
      case Stop(lines) => lines
      case Next(lines, rest, p) => lines + Decode(rest, p)
  }

  // ---------------------------------------------------------------------------------------------
  // Decoding what was encoded

  /** The decoder holds the record the writer's next delta is relative to. */
  predicate InSync(p: Prev, prev: Option<Record>) {
    && |p.record.regs| == REGS && ValidPrev(prev)
    && (p.valid ==> prev == Some(p.record) && ValidRecord(p.record))
  }

  lemma {:induction false} WordsRoundTrip(ws: seq<nat>)
    requires forall i :: 0 <= i < |ws| ==> ws[i] < U32
    ensures WordsOf(WordsBytes(ws)) == ws
    decreases |ws|
  {
    if ws != [] {
      Widths();
      LeRoundTrip(ws[0], 4);
      WordsRoundTrip(ws[1..]);
      var b := WordsBytes(ws);
      assert b[..4] == LeBytes(ws[0], 4) && b[4..] == WordsBytes(ws[1..]);
    }
  }

  lemma KeyframeDecodes(r: Record, padding: seq<Byte>, tail: seq<Byte>, prev: Option<Record>)
    requires ValidRecord(r) && |padding| == 3
    ensures ParseKeyframe(KeyframeBytes(r, padding) + tail, prev) == Next([Executed(r)], tail, Some(r))
  {
    var ws := r.regs + [r.pc, r.cpsr, r.spsr, r.opcode];
    WordsRoundTrip(ws);
    var key := KeyframeBytes(r, padding);
    var b := key + tail;
    assert b[..RECORD_SIZE] == key && b[RECORD_SIZE..] == tail;
    assert key[..76] == WordsBytes(ws) && key[76] == 0;
    assert ws[..REGS] == r.regs;
  }

  lemma WordIs(x: nat)
    requires x < U32
    ensures Le(LeBytes(x, 4)) == x
  {
    Widths();
    LeRoundTrip(x, 4);
  }

  lemma FirstWord(x: nat, ws: seq<nat>, tail: seq<Byte>)
    ensures var b := WordsBytes([x] + ws) + tail; b[..4] == LeBytes(x, 4) && b[4..] == WordsBytes(ws) + tail
  {
    assert ([x] + ws)[1..] == ws;
    Pieces(LeBytes(x, 4), WordsBytes(ws), tail);
  }

  /** Reading an elided or present word off the front of a payload. */
  lemma TakeWordIs(present: bool, x: nat, otherwise: nat, ws: seq<nat>, tail: seq<Byte>)
    requires x < U32
    ensures TakeWord(present, otherwise, Stream(WordsBytes(OptWord(present, x) + ws) + tail, false))
         == Got(if present then x else otherwise, Stream(WordsBytes(ws) + tail, false))
  {
    if present {
      FirstWord(x, ws, tail);
      WordIs(x);
    } else {
      assert [] + ws == ws;
    }
  }

  lemma {:induction false} TakeRegsIs(mask: nat, now: seq<nat>, was: seq<nat>, regs: seq<nat>, i: nat, tail: seq<Byte>)
    requires |now| == |was| == |regs| == REGS && i <= REGS && forall k :: 0 <= k < REGS ==> now[k] < U32
    requires forall k: nat :: k < REGS ==> TestBit(mask, k) == (now[k] != was[k])
    requires regs == now[..i] + was[i..]
    ensures TakeRegs(mask, regs, i, Stream(WordsBytes(ChangedRegs(now, was, i)) + tail, false)) == Got(now, Stream(tail, false))
    decreases REGS - i
  {
    if i == REGS {
      assert regs == now;
      assert WordsBytes(ChangedRegs(now, was, i)) + tail == tail;
    } else {
      var changed := now[i] != was[i];
      var next := if changed then regs[i := now[i]] else regs;
      OneMoreReg(now, was, regs, i, next);
      TakeWordIs(changed, now[i], regs[i], ChangedRegs(now, was, i + 1), tail);
      TakeRegsIs(mask, now, was, next, i + 1, tail);
    }
  }

  lemma OneMoreReg(now: seq<nat>, was: seq<nat>, regs: seq<nat>, i: nat, next: seq<nat>)
    requires |now| == |was| == |regs| == REGS && i < REGS && regs == now[..i] + was[i..]
    requires next == if now[i] != was[i] then regs[i := now[i]] else regs
    ensures regs[i] == was[i] && next == now[..i + 1] + was[i + 1..]
  {
  }

  lemma MaskTests(now: seq<nat>, was: seq<nat>)
    requires |now| == |was| == REGS
    ensures Bits(Changed(now, was)) < 0x1_0000
    ensures forall k: nat :: k < REGS ==> TestBit(Bits(Changed(now, was)), k) == (now[k] != was[k])
  {
    var b := Changed(now, was);
    forall k: nat | k < REGS
      ensures TestBit(Bits(b), k) == (now[k] != was[k])
    {
      BitsTest(b, k);
    }
    BitsBound(b);
    Pow2Fifteen();
  }

  lemma Pow2Fifteen()
    ensures Pow2(15) == 0x8000
  {
    assert Pow2(5) == 32 by { assert Pow2(3) == 8; }
    assert Pow2(10) == 1024 by { assert Pow2(8) == 256 by { assert Pow2(6) == 64; } }
    assert Pow2(12) == 4096;
    assert Pow2(14) == 0x4000;
  }

  lemma FlagTests(now: Record, was: Record)
    ensures var f := Flags(now, was);
            && f < 32 && TestBit(f, 1) == PcSeq(now, was) && TestBit(f, 2) == (now.opcode == was.opcode)
            && TestBit(f, 3) == (now.spsr == was.spsr) && TestBit(f, 4) == (now.cpsr == was.cpsr)
  {
    var b := [false, PcSeq(now, was), now.opcode == was.opcode, now.spsr == was.spsr, now.cpsr == was.cpsr];
    FlagsFit(b);
    BitsTest(b, 1);
    BitsTest(b, 2);
    BitsTest(b, 3);
    BitsTest(b, 4);
  }

  lemma DeltaFieldsAre(now: Record, was: Record, flags: nat, regs: seq<nat>, words: seq<nat>, tail: seq<Byte>)
    requires ValidRecord(now) && flags == Flags(now, was) && |was.regs| == REGS
    requires regs == ChangedRegs(now.regs, was.regs, 0) && words == Payload(now, was)
    ensures DeltaFields(flags, was, Stream(WordsBytes(words) + tail, false)) == Got(now.(regs := was.regs), Stream(WordsBytes(regs) + tail, false))
  {
    FlagTests(now, was);
    var ops := OptWord(now.opcode != was.opcode, now.opcode) + regs;
    var sps := OptWord(now.spsr != was.spsr, now.spsr) + ops;
    var cps := OptWord(now.cpsr != was.cpsr, now.cpsr) + sps;
    TakeWordIs(!PcSeq(now, was), now.pc, 0, cps, tail);
    TakeWordIs(now.cpsr != was.cpsr, now.cpsr, was.cpsr, sps, tail);
    TakeWordIs(now.spsr != was.spsr, now.spsr, was.spsr, ops, tail);
    TakeWordIs(now.opcode != was.opcode, now.opcode, was.opcode, regs, tail);
  }

  /** The payload read back under the flags and mask it was written with. */
  lemma DeltaRecordIs(now: Record, was: Record, flags: nat, mask: nat, tail: seq<Byte>)
    requires ValidRecord(now) && |was.regs| == REGS && flags == Flags(now, was) && mask == Bits(Changed(now.regs, was.regs))
    ensures DeltaRecord(flags, mask, was, Stream(WordsBytes(Payload(now, was)) + tail, false)) == Got(now, Stream(tail, false))
  {
    DeltaFieldsAre(now, was, flags, ChangedRegs(now.regs, was.regs, 0), Payload(now, was), tail);
    MaskedRegsAre(now.regs, was.regs, mask, tail);
  }

  lemma MaskedRegsAre(now: seq<nat>, was: seq<nat>, mask: nat, tail: seq<Byte>)
    requires |now| == |was| == REGS && mask == Bits(Changed(now, was)) && forall k :: 0 <= k < REGS ==> now[k] < U32
    ensures TakeRegs(mask, was, 0, Stream(WordsBytes(ChangedRegs(now, was, 0)) + tail, false)) == Got(now, Stream(tail, false))
  {
    MaskTests(now, was);
    assert was == now[..0] + was[0..];
    TakeRegsIs(mask, now, was, was, 0, tail);
  }

  lemma Tagged(tag: Byte, a: seq<Byte>, tail: seq<Byte>)
    ensures var all := [tag] + a + tail; all[0] == tag && all[1..] == a + tail
  {
  }

  /** Where three pieces lie in their concatenation. */
  lemma Pieces(a: seq<Byte>, b: seq<Byte>, c: seq<Byte>)
    ensures var all := a + b + c;
            all[..|a|] == a && all[|a|..|a| + |b|] == b && all[|a| + |b|..] == c && all[|a|..] == b + c
  {
  }

  lemma DeltaHead(flags: nat, mask: nat, body: seq<Byte>)
    requires flags < 32 && mask < 0x1_0000
    ensures var b := LeBytes(flags, 1) + LeBytes(mask, 2) + body; b[0] as nat == flags && Le(b[1..3]) == mask && b[3..] == body
  {
    Pieces(LeBytes(flags, 1), LeBytes(mask, 2), body);
    var b := LeBytes(flags, 1) + LeBytes(mask, 2) + body;
    assert b[0] == b[..1][0] == LeBytes(flags, 1)[0];
    Widths();
    LeRoundTrip(mask, 2);
  }

  lemma DeltaDecodes(now: Record, was: Record, head: seq<Byte>, tail: seq<Byte>)
    requires ValidRecord(now) && |was.regs| == REGS
    requires head == LeBytes(Flags(now, was), 1) + LeBytes(Bits(Changed(now.regs, was.regs)), 2)
    ensures ParseDelta(head + (WordsBytes(Payload(now, was)) + tail), Some(was)) == Next([Executed(now)], tail, Some(now))
  {
    FlagTests(now, was);
    MaskTests(now.regs, was.regs);
    DeltaHead(Flags(now, was), Bits(Changed(now.regs, was.regs)), WordsBytes(Payload(now, was)) + tail);
    DeltaRecordIs(now, was, Flags(now, was), Bits(Changed(now.regs, was.regs)), tail);
  }

  lemma TextDecodes(text: seq<Byte>, newline: bool, tail: seq<Byte>, prev: Option<Record>)
    requires |text| < U32
    ensures ParseText(LeBytes(|text|, 4) + text + ([if newline then 1 else 0] + tail), prev) == Next([Raw(text, newline)], tail, prev)
  {
    var n := |text|;
    var end := [if newline then 1 else 0] + tail;
    var b := LeBytes(n, 4) + text + end;
    Pieces(LeBytes(n, 4), text, end);
    assert b[4 + n] == b[4 + n..][0] && b[4 + n + 1..] == b[4 + n..][1..] == tail;
    Widths();
    LeRoundTrip(n, 4);
  }

  lemma MetaIs(kind: nat, code: nat)
    requires kind < 16 && code < 4
    ensures MemMeta(kind, code) as nat % 16 == kind && MemMeta(kind, code) as nat / 16 % 2 == 0 && MemMeta(kind, code) as nat / 32 % 4 == code
  {
    var m := kind + 32 * code;
    if code == 0 { assert m == kind; }
    else if code == 1 { assert m == kind + 32; }
    else if code == 2 { assert m == kind + 64; }
    else { assert m == kind + 96; }
  }

  lemma WidthFits(value: nat)
    requires value < U32
    ensures value < Pow256(Width(WidthCode(value)))
  {
    Widths();
    assert Pow256(0) == 1;
  }

  /** The five bytes every access starts with. */
  lemma MemHead(kind: nat, code: nat, addr: nat, body: seq<Byte>)
    requires kind < 16 && code < 4 && addr < U32
    ensures var b := [MemMeta(kind, code)] + LeBytes(addr, 4) + body;
            b[0] == MemMeta(kind, code) && Le(b[1..5]) == addr && b[5..] == body
  {
    var b := [MemMeta(kind, code)] + LeBytes(addr, 4) + body;
    assert b[1..5] == LeBytes(addr, 4);
    Widths();
    LeRoundTrip(addr, 4);
  }

  lemma AccessDecodes(kind: nat, addr: nat, value: nat, tail: seq<Byte>, prev: Option<Record>)
    requires kind < 7 && addr < U32 && value < U32
    ensures var code := WidthCode(value);
            ParseMem([MemMeta(kind, code)] + LeBytes(addr, 4) + (LeBytes(value, Width(code)) + tail), prev) ==
            Next([Mem(0, kind, addr, value)], tail, prev)
  {
    var code := WidthCode(value);
    var w := Width(code);
    var body := LeBytes(value, w) + tail;
    var b := [MemMeta(kind, code)] + LeBytes(addr, 4) + body;
    MemHead(kind, code, addr, body);
    MetaIs(kind, code);
    assert b[5..5 + w] == b[5..][..w] == LeBytes(value, w);
    assert b[5 + w..] == b[5..][w..] == tail;
    WidthFits(value);
    LeRoundTrip(value, w);
  }

  lemma {:induction false} ElementsDecode(values: seq<nat>, size: nat, tail: seq<Byte>)
    requires forall i :: 0 <= i < |values| ==> values[i] < Pow256(size)
    ensures TakeElements(ValuesBytes(values, size) + tail, size, |values|) == Elements(values, Some(tail))
    decreases |values|
  {
    var b := ValuesBytes(values, size) + tail;
    if values == [] {
      assert b == tail;
    } else {
      var rest := ValuesBytes(values[1..], size) + tail;
      assert b == LeBytes(values[0], size) + rest;
      assert b[..size] == LeBytes(values[0], size) && b[size..] == rest;
      LeRoundTrip(values[0], size);
      ElementsDecode(values[1..], size, tail);
    }
  }

  /** The element count and the elements of a slice record. */
  lemma SliceBody(b: seq<Byte>, head: seq<Byte>, count: seq<Byte>, values: seq<Byte>, tail: seq<Byte>)
    requires |head| == 5 && |count| == 4 && b == head + (count + values + tail)
    ensures b[5..] == count + values + tail && b[5..9] == count && b[9..] == values + tail
  {
    Pieces(count, values, tail);
    assert b[5..9] == b[5..][..4] && b[9..] == b[5..][4..];
  }

  lemma SliceDecodes(kind: nat, addr: nat, size: nat, values: seq<nat>, tail: seq<Byte>, prev: Option<Record>)
    requires ValidEntry(Slice(kind, addr, size, values))
    ensures ParseMem([MemMeta(kind, SizeCode(size))] + LeBytes(addr, 4) + (LeBytes(|values|, 4) + ValuesBytes(values, size) + tail), prev) ==
            Next(LinesOf(Slice(kind, addr, size, values)), tail, prev)
  {
    var code, n := SizeCode(size), |values|;
    var body := LeBytes(n, 4) + ValuesBytes(values, size) + tail;
    var b := [MemMeta(kind, code)] + LeBytes(addr, 4) + body;
    MemHead(kind, code, addr, body);
    MetaIs(kind, code);
    SliceBody(b, [MemMeta(kind, code)] + LeBytes(addr, 4), LeBytes(n, 4), ValuesBytes(values, size), tail);
    Widths();
    LeRoundTrip(n, 4);
    ElementsDecode(values, size, tail);
  }

  lemma InstDecodes(p: Prev, r: Record, padding: seq<Byte>, prev: Option<Record>, tail: seq<Byte>)
    requires ValidRecord(r) && |padding| == 3 && InSync(p, prev)
    ensures ParseOne(InstBytes(p, r, padding) + tail, prev) == Next([Executed(r)], tail, Some(r))
  {
    if NeedsKeyframe(p) {
      Tagged(TAG_INST, KeyframeBytes(r, padding), tail);
      KeyframeDecodes(r, padding, tail, prev);
    } else {
      var head := LeBytes(Flags(r, p.record), 1) + LeBytes(Bits(Changed(r.regs, p.record.regs)), 2);
      var words := WordsBytes(Payload(r, p.record));
      assert InstBytes(p, r, padding) + tail == [TAG_INST_DELTA] + head + (words + tail);
      Tagged(TAG_INST_DELTA, head, words + tail);
      DeltaDecodes(r, p.record, head, tail);
    }
  }

  /** One entry, whatever follows it. */
  lemma EntryDecodes(p: Prev, e: Entry, prev: Option<Record>, tail: seq<Byte>)
    requires ValidEntry(e) && InSync(p, prev) && EntryBytes(p, e) != []
    ensures ParseOne(EntryBytes(p, e) + tail, prev) == Next(LinesOf(e), tail, if e.Inst? then Some(e.record) else prev)
  {
    match e
    case Inst(r, padding) => InstDecodes(p, r, padding, prev, tail);
    case Text(text, newline) => TaggedText(text, newline, tail, prev);
    case Access(kind, addr, value) => TaggedAccess(kind, addr, value, tail, prev);
    case Slice(kind, addr, size, values) => TaggedSlice(kind, addr, size, values, tail, prev);
  }

  lemma ParseTagged(tag: Byte, x: seq<Byte>, tail: seq<Byte>, prev: Option<Record>)
    requires ValidPrev(prev)
    ensures tag == TAG_TEXT ==> ParseOne([tag] + x + tail, prev) == ParseText(x + tail, prev)
    ensures tag == TAG_MEM ==> ParseOne([tag] + x + tail, prev) == ParseMem(x + tail, prev)
  {
    Tagged(tag, x, tail);
  }

  lemma TaggedText(text: seq<Byte>, newline: bool, tail: seq<Byte>, prev: Option<Record>)
    requires |text| < U32 && ValidPrev(prev)
    ensures ParseOne([TAG_TEXT] + (LeBytes(|text|, 4) + (text + [if newline then 1 else 0])) + tail, prev) == Next([Raw(text, newline)], tail, prev)
  {
    var len, end := LeBytes(|text|, 4), [if newline then 1 else 0];
    ParseTagged(TAG_TEXT, len + (text + end), tail, prev);
    Append4(len, text, end, tail);
    TextDecodes(text, newline, tail, prev);
  }

  lemma TaggedAccess(kind: nat, addr: nat, value: nat, tail: seq<Byte>, prev: Option<Record>)
    requires kind < 7 && addr < U32 && value < U32 && ValidPrev(prev)
    ensures var code := WidthCode(value);
            ParseOne(MemRecord(kind, code, addr, LeBytes(value, Width(code))) + tail, prev) ==
            Next([Mem(0, kind, addr, value)], tail, prev)
  {
    var code := WidthCode(value);
    var head, body := [MemMeta(kind, code)] + LeBytes(addr, 4), LeBytes(value, Width(code));
    ParseTagged(TAG_MEM, head + body, tail, prev);
    Append3(head, body, tail);
    AccessDecodes(kind, addr, value, tail, prev);
  }

  lemma TaggedSlice(kind: nat, addr: nat, size: nat, values: seq<nat>, tail: seq<Byte>, prev: Option<Record>)
    requires ValidEntry(Slice(kind, addr, size, values)) && ValidPrev(prev)
    ensures ParseOne(MemRecord(kind, SizeCode(size), addr, LeBytes(|values|, 4) + ValuesBytes(values, size)) + tail, prev) ==
            Next(LinesOf(Slice(kind, addr, size, values)), tail, prev)
  {
    var head, body := [MemMeta(kind, SizeCode(size))] + LeBytes(addr, 4), LeBytes(|values|, 4) + ValuesBytes(values, size);
    ParseTagged(TAG_MEM, head + body, tail, prev);
    Append3(head, body, tail);
    SliceDecodes(kind, addr, size, values, tail, prev);
  }

  /** Any interleaving of entries is printed back, in order. */
  lemma {:induction false} DecodeEncode(p: Prev, es: seq<Entry>, prev: Option<Record>)
    requires InSync(p, prev) && forall i :: 0 <= i < |es| ==> ValidEntry(es[i])
    ensures Decode(Encode(p, es), prev) == AllLines(es)
    decreases |es|
  {
    if es != [] {
      var e := es[0];
      var tail := Encode(After(p, e), es[1..]);
      if EntryBytes(p, e) == [] {
        assert EntryBytes(p, e) + tail == tail;
        DecodeEncode(p, es[1..], prev);
        assert LinesOf(e) == [];
      } else {
        EntryDecodes(p, e, prev, tail);
        DecodeEncode(After(p, e), es[1..], if e.Inst? then Some(e.record) else prev);
      }
    }
  }

  // ---------------------------------------------------------------------------------------------
  // Cut streams

  predicate IsPrefix<T(==)>(a: seq<T>, b: seq<T>) { |a| <= |b| && a == b[..|a|] }

  /** `cut` is `full` without its last `missing` bytes. */
  predicate CutBy(cut: seq<Byte>, full: seq<Byte>, missing: nat) { |cut| + missing == |full| && cut == full[..|cut|] }

  lemma CutDrop(cut: seq<Byte>, full: seq<Byte>, missing: nat, n: nat)
    requires CutBy(cut, full, missing) && n <= |cut|
    ensures cut[..n] == full[..n] && CutBy(cut[n..], full[n..], missing)
  {
  }

  /** The same record from the cut stream: unchanged, or the end after some of its lines. */
  predicate StepCut(cut: Step, full: Step, missing: nat) {
    match cut
    case Stop(lines) => IsPrefix(lines, full.lines)
    case Next(lines, rest, prev) => full.Next? && lines == full.lines && prev == full.prev && CutBy(rest, full.rest, missing)
  }

  predicate StreamCut(cut: Stream, full: Stream, missing: nat) {
    cut.truncated || (!full.truncated && CutBy(cut.rest, full.rest, missing))
  }

  predicate GotCut<T(==)>(cut: Got<T>, full: Got<T>, missing: nat) {
    StreamCut(cut.s, full.s, missing) && (!cut.s.truncated ==> cut.value == full.value)
  }

  lemma TakeWordCut(present: bool, otherwise: nat, cut: Stream, full: Stream, missing: nat)
    requires StreamCut(cut, full, missing)
    ensures GotCut(TakeWord(present, otherwise, cut), TakeWord(present, otherwise, full), missing)
    ensures cut.truncated ==> TakeWord(present, otherwise, cut).s.truncated
  {
    if present && !cut.truncated && |cut.rest| >= 4 {
      CutDrop(cut.rest, full.rest, missing, 4);
    }
  }

  lemma {:induction false} TakeRegsCut(mask: nat, cutRegs: seq<nat>, fullRegs: seq<nat>, i: nat, cut: Stream, full: Stream, missing: nat)
    requires |cutRegs| == |fullRegs| == REGS && i <= REGS && StreamCut(cut, full, missing) && (!cut.truncated ==> cutRegs == fullRegs)
    ensures GotCut(TakeRegs(mask, cutRegs, i, cut), TakeRegs(mask, fullRegs, i, full), missing)
    ensures cut.truncated ==> TakeRegs(mask, cutRegs, i, cut).s.truncated
    decreases REGS - i
  {
    if i < REGS {
      if TestBit(mask, i) {
        TakeWordCut(true, 0, cut, full, missing);
        var c, f := NextWord(cut), NextWord(full);
        TakeRegsCut(mask, cutRegs[i := c.value], fullRegs[i := f.value], i + 1, c.s, f.s, missing);
      } else {
        TakeRegsCut(mask, cutRegs, fullRegs, i + 1, cut, full, missing);
      }
    }
  }

  lemma DeltaFieldsCut(flags: nat, was: Record, cut: Stream, full: Stream, missing: nat)
    requires StreamCut(cut, full, missing)
    ensures GotCut(DeltaFields(flags, was, cut), DeltaFields(flags, was, full), missing)
  {
    TakeWordCut(!TestBit(flags, 1), 0, cut, full, missing);
    var pc, fullPc := TakeWord(!TestBit(flags, 1), 0, cut), TakeWord(!TestBit(flags, 1), 0, full);
    TakeWordCut(!TestBit(flags, 4), was.cpsr, pc.s, fullPc.s, missing);
    var cpsr, fullCpsr := TakeWord(!TestBit(flags, 4), was.cpsr, pc.s), TakeWord(!TestBit(flags, 4), was.cpsr, fullPc.s);
    TakeWordCut(!TestBit(flags, 3), was.spsr, cpsr.s, fullCpsr.s, missing);
    var spsr, fullSpsr := TakeWord(!TestBit(flags, 3), was.spsr, cpsr.s), TakeWord(!TestBit(flags, 3), was.spsr, fullCpsr.s);
    TakeWordCut(!TestBit(flags, 2), was.opcode, spsr.s, fullSpsr.s, missing);
  }

  lemma DeltaCut(cut: seq<Byte>, full: seq<Byte>, missing: nat, prev: Option<Record>)
    requires CutBy(cut, full, missing) && ValidPrev(prev)
    ensures StepCut(ParseDelta(cut, prev), ParseDelta(full, prev), missing)
  {
    if |cut| >= 3 && prev.Some? {
      CutDrop(cut, full, missing, 3);
      assert cut[1..3] == cut[..3][1..3] == full[1..3] && cut[0] == cut[..3][0] == full[0];
      var flags, mask := cut[0] as nat, Le(cut[1..3]);
      var c, f := Stream(cut[3..], false), Stream(full[3..], false);
      DeltaFieldsCut(flags, prev.value, c, f, missing);
      var cf, ff := DeltaFields(flags, prev.value, c), DeltaFields(flags, prev.value, f);
      TakeRegsCut(mask, prev.value.regs, prev.value.regs, 0, cf.s, ff.s, missing);
    }
  }

  lemma KeyframeCut(cut: seq<Byte>, full: seq<Byte>, missing: nat, prev: Option<Record>)
    requires CutBy(cut, full, missing)
    ensures StepCut(ParseKeyframe(cut, prev), ParseKeyframe(full, prev), missing)
  {
    if |cut| >= RECORD_SIZE {
      CutDrop(cut, full, missing, RECORD_SIZE);
      assert cut[76] == cut[..RECORD_SIZE][76] == full[76];
    }
  }

  lemma TextCut(cut: seq<Byte>, full: seq<Byte>, missing: nat, prev: Option<Record>)
    requires CutBy(cut, full, missing)
    ensures StepCut(ParseText(cut, prev), ParseText(full, prev), missing)
  {
    if |cut| >= 4 {
      CutDrop(cut, full, missing, 4);
      var n := Le(cut[..4]);
      if |cut| >= 4 + n + 1 {
        CutDrop(cut, full, missing, 4 + n + 1);
        assert cut[4..4 + n] == cut[..4 + n + 1][4..4 + n] == full[4..4 + n];
        assert cut[4 + n] == cut[..4 + n + 1][4 + n] == full[4 + n];
      }
    }
  }

  lemma {:induction false} ElementsCut(cut: seq<Byte>, full: seq<Byte>, missing: nat, width: nat, count: nat)
    requires CutBy(cut, full, missing)
    ensures var c, f := TakeElements(cut, width, count), TakeElements(full, width, count);
            && IsPrefix(c.values, f.values)
            && (c.rest.Some? ==> f.rest.Some? && c.values == f.values && CutBy(c.rest.value, f.rest.value, missing))
    decreases count
  {
    if count > 0 && |cut| >= width {
      CutDrop(cut, full, missing, width);
      ElementsCut(cut[width..], full[width..], missing, width, count - 1);
    }
  }

  lemma {:induction false} SliceLinesPrefix(cpu: nat, kind: nat, addr: nat, stride: nat, a: seq<nat>, b: seq<nat>, i: nat)
    requires IsPrefix(a, b)
    ensures IsPrefix(SliceLines(cpu, kind, addr, stride, a, i), SliceLines(cpu, kind, addr, stride, b, i))
    decreases |a|
  {
    if a != [] {
      assert a[1..] == b[1..][..|a| - 1];
      SliceLinesPrefix(cpu, kind, addr, stride, a[1..], b[1..], i + 1);
    }
  }

  lemma MemCut(cut: seq<Byte>, full: seq<Byte>, missing: nat, prev: Option<Record>)
    requires CutBy(cut, full, missing)
    ensures StepCut(ParseMem(cut, prev), ParseMem(full, prev), missing)
  {
    if |cut| >= 5 {
      CutDrop(cut, full, missing, 5);
      assert cut[0] == cut[..5][0] == full[0] && cut[1..5] == cut[..5][1..5] == full[1..5];
      var kind, width := cut[0] as nat % 16, Width(cut[0] as nat / 32 % 4);
      if 7 <= kind <= 10 {
        if |cut| >= 9 {
          CutDrop(cut, full, missing, 9);
          assert cut[5..9] == cut[..9][5..9] == full[5..9];
          ElementsCut(cut[9..], full[9..], missing, width, Le(cut[5..9]));
          SliceLinesPrefix(cut[0] as nat / 16 % 2, kind, Le(cut[1..5]), Stride(kind, width),
                           TakeElements(cut[9..], width, Le(cut[5..9])).values, TakeElements(full[9..], width, Le(cut[5..9])).values, 0);
        }
      } else if |cut| >= 5 + width {
        CutDrop(cut, full, missing, 5 + width);
        assert cut[5..5 + width] == cut[..5 + width][5..5 + width] == full[5..5 + width];
      }
    }
  }

  lemma OneCut(cut: seq<Byte>, full: seq<Byte>, missing: nat, prev: Option<Record>)
    requires CutBy(cut, full, missing) && cut != [] && ValidPrev(prev)
    ensures StepCut(ParseOne(cut, prev), ParseOne(full, prev), missing)
  {
    CutDrop(cut, full, missing, 1);
    assert cut[0] == full[0];
    if cut[0] == TAG_INST { KeyframeCut(cut[1..], full[1..], missing, prev); }
    else if cut[0] == TAG_INST_DELTA { DeltaCut(cut[1..], full[1..], missing, prev); }
    else if cut[0] == TAG_TEXT { TextCut(cut[1..], full[1..], missing, prev); }
    else if cut[0] == TAG_MEM { MemCut(cut[1..], full[1..], missing, prev); }
  }

  lemma PrefixAppend<T>(lines: seq<T>, a: seq<T>, b: seq<T>, c: seq<T>)
    ensures IsPrefix(a, b) ==> IsPrefix(lines + a, lines + b)
    ensures IsPrefix(a, b) ==> IsPrefix(a, b + c)
  {
  }

  /** A cut stream, corrupt or not, prints a prefix of what the whole stream prints. */
  lemma {:induction false} CutIsPrefix(cut: seq<Byte>, full: seq<Byte>, missing: nat, prev: Option<Record>)
    requires CutBy(cut, full, missing) && ValidPrev(prev)
    ensures IsPrefix(Decode(cut, prev), Decode(full, prev))
    decreases |cut|
  {
    if cut != [] {
      OneCut(cut, full, missing, prev);
      var c, f := ParseOne(cut, prev), ParseOne(full, prev);
      if c.Next? {
        CutIsPrefix(c.rest, f.rest, missing, c.prev);
        PrefixAppend(c.lines, Decode(c.rest, c.prev), Decode(f.rest, c.prev), []);
      } else if f.Next? {
        PrefixAppend([], c.lines, f.lines, Decode(f.rest, f.prev));
      }
    }
  }

  /** Cutting the log of any entries prints a prefix of those entries. */
  lemma CutLogIsPrefix(p: Prev, es: seq<Entry>, prev: Option<Record>, k: nat)
    requires InSync(p, prev) && (forall i :: 0 <= i < |es| ==> ValidEntry(es[i])) && k <= |Encode(p, es)|
    ensures IsPrefix(Decode(Encode(p, es)[..k], prev), AllLines(es))
  {
    DecodeEncode(p, es, prev);
    CutIsPrefix(Encode(p, es)[..k], Encode(p, es), |Encode(p, es)| - k, prev);
  }
}
