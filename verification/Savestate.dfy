/**
 The savestate field walk: one walk that appends a value to the buffer or consumes one from it.

 - `LoadIs`: loading the saved bytes of any value, into any target of the same shape, restores every
   serialized field and consumes exactly those bytes, if and only if no vector is longer than the buffer
   (`RoundTripIff`); a vector whose elements take at least a byte never is (`SizedIsGuarded`), one of empty
   elements can be (`EmptyElementsFail`);
 - `PrefixRejected`, `ExtensionRejected`: every strict prefix and every strict extension is refused;
 - `RestoreSavesSame`: saving what was restored gives the same bytes again;
 - `SavestateContext.Walk`: the walk over the context's mutable buffer, position and error flag is exactly
   these two functions.
 */
module Savestate {
  import opened Bytes
  import opened Seqs

  /** How a type is serialized. `dflt` is the type's default value, which fields are loaded over. */
  datatype Shape =
    | Pod(size: nat)                          // raw copy: integers, floats, byte buffers
    | Word                                    // usize, stored as 64 bits
    | Flag
    | Array(elem: Shape, count: nat)          // per-element walk
    | Opt(elem: Shape, dflt: Value)
    | Many(elem: Shape, dflt: Value)          // Vec and VecDeque
    | Record(fields: Fields)
    | Enum(variants: seq<Fields>)

  /** The fields of a struct or variant, in declaration order; skipped ones are not serialized. */
  datatype Fields = End | Field(skip: bool, shape: Shape, initial: Value, rest: Fields)

  datatype Value =
    | Raw(bytes: seq<Byte>)
    | Size(n: nat)
    | Bool(b: bool)
    | Items(elems: seq<Value>)                // array, vector or struct
    | None
    | Some(value: Value)
    | Variant(tag: nat, args: seq<Value>)

  /** A usize of a 32-bit host. */
  const WORD := 0x1_0000_0000

  predicate Has(s: Shape, v: Value)
    decreases s, 0
  {
    match s
    case Pod(size) => v.Raw? && |v.bytes| == size
    case Word => v.Size? && v.n < WORD
    case Flag => v.Bool?
    case Array(e, count) => v.Items? && |v.elems| == count && HasMany(e, v.elems)
    case Opt(e, _) => v.None? || (v.Some? && Has(e, v.value))
    case Many(e, _) => v.Items? && |v.elems| < WORD && HasMany(e, v.elems)
    case Record(fs) => v.Items? && HasFields(fs, v.elems)
    case Enum(vs) => v.Variant? && v.tag < |vs| && HasFields(vs[v.tag], v.args)
  }

  predicate HasMany(e: Shape, vs: seq<Value>)
    decreases e, |vs| + 1
  {
    forall i :: 0 <= i < |vs| ==> Has(e, vs[i])
  }

  predicate HasFields(fs: Fields, vs: seq<Value>)
    decreases fs, 0
  {
    match fs
    case End => vs == []
    case Field(_, s, _, rest) => |vs| > 0 && Has(s, vs[0]) && HasFields(rest, vs[1..])
  }

  /** Defaults fit their shapes, and an enum has one to 256 variants. */
  predicate WellFormed(s: Shape)
    decreases s, 0
  {
    match s
    case Array(e, _) => WellFormed(e)
    case Opt(e, d) => WellFormed(e) && Has(e, d)
    case Many(e, d) => WellFormed(e) && Has(e, d)
    case Record(fs) => WellFormedFields(fs)
    case Enum(vs) => 0 < |vs| <= 256 && forall i :: 0 <= i < |vs| ==> WellFormedFields(vs[i])
    case _ => true
  }

  predicate WellFormedFields(fs: Fields)
    decreases fs, 0
  {
    fs.Field? ==> WellFormed(fs.shape) && Has(fs.shape, fs.initial) && WellFormedFields(fs.rest)
  }

  // ---------------------------------------------------------------------------------------------
  // Saving

  function Save(s: Shape, v: Value): seq<Byte>
    requires WellFormed(s) && Has(s, v)
    decreases s, 0
  {
    match s
    case Pod(_) => v.bytes
    case Word => LeBytes(v.n, 8)
    case Flag => [if v.b then 1 else 0]
    case Array(e, _) => SaveMany(e, v.elems)
    case Opt(e, _) => if v.None? then [0] else [1] + Save(e, v.value)
    case Many(e, _) => LeBytes(|v.elems|, 4) + SaveMany(e, v.elems)
    case Record(fs) => SaveFields(fs, v.elems)
    case Enum(vs) => [v.tag as Byte] + SaveFields(vs[v.tag], v.args)
  }

  function SaveMany(e: Shape, vs: seq<Value>): seq<Byte>
    requires WellFormed(e) && HasMany(e, vs)
    decreases e, |vs| + 1
  {
    if vs == [] then [] else Save(e, vs[0]) + SaveMany(e, vs[1..])
  }

  function SaveFields(fs: Fields, vs: seq<Value>): seq<Byte>
    requires WellFormedFields(fs) && HasFields(fs, vs)
    decreases fs, 0
  {
    match fs
    case End => []
    case Field(skip, s, _, rest) => (if skip then [] else Save(s, vs[0])) + SaveFields(rest, vs[1..])
  }

  // ---------------------------------------------------------------------------------------------
  // Loading

  datatype Cursor = Cursor(buf: seq<Byte>, pos: nat, error: bool)

  predicate InBounds(c: Cursor) { c.pos <= |c.buf| }

  function Fail(c: Cursor): Cursor { c.(error := true) }

  datatype Loaded<T> = Loaded(value: T, c: Cursor)

  function TakeU8(c: Cursor): (r: Loaded<Byte>)
    requires InBounds(c)
    ensures InBounds(r.c) && r.c.buf == c.buf
  {
    if c.error || c.pos >= |c.buf| then Loaded(0, Fail(c)) else Loaded(c.buf[c.pos], c.(pos := c.pos + 1))
  }

  /** A raw copy over `target`: all of it, or none and an error. */
  function TakeBytes(target: seq<Byte>, c: Cursor): (r: Loaded<seq<Byte>>)
    requires InBounds(c)
    ensures InBounds(r.c) && r.c.buf == c.buf && |r.value| == |target|
  {
    if c.error then Loaded(target, c)
    else if |c.buf| - c.pos < |target| then Loaded(target, Fail(c))
    else Loaded(c.buf[c.pos..c.pos + |target|], c.(pos := c.pos + |target|))
  }

  function Repeat(v: Value, n: nat): (r: seq<Value>)
    ensures |r| == n && forall i :: 0 <= i < n ==> r[i] == v
  {
    seq(n, _ => v)
  }

  function Defaults(fs: Fields): (r: seq<Value>)
    requires WellFormedFields(fs)
    ensures HasFields(fs, r)
    decreases fs
  {
    match fs
    case End => []
    case Field(_, _, d, rest) => [d] + Defaults(rest)
  }

  function Load(s: Shape, t: Value, c: Cursor): (r: Loaded<Value>)
    requires WellFormed(s) && Has(s, t) && InBounds(c)
    ensures InBounds(r.c) && r.c.buf == c.buf && Has(s, r.value)
    decreases s, 0
  {
    match s
    case Pod(_) => var r := TakeBytes(t.bytes, c); Loaded(Raw(r.value), r.c)
    case Word => var r := TakeBytes(LeBytes(t.n, 8), c); Loaded(Size(Le(r.value) % WORD), r.c)
    case Flag => var r := TakeU8(c); Loaded(Bool(r.value != 0), r.c)
    case Array(e, _) => var r := LoadMany(e, t.elems, c); Loaded(Items(r.value), r.c)
    case Opt(e, d) =>
      var tag := TakeU8(c);
      if tag.value != 0 then var r := Load(e, d, tag.c); Loaded(Some(r.value), r.c) else Loaded(None, tag.c)
    case Many(e, d) =>
      var len := TakeBytes(LeBytes(|t.elems|, 4), c);
      if len.c.error then Loaded(t, len.c)
      else
        var n := Le(len.value);
        if n > |c.buf| then Loaded(t, Fail(len.c))
        else
          LengthFits(len.value);
          var r := LoadMany(e, Repeat(d, n), len.c);
          Loaded(Items(r.value), r.c)
    case Record(fs) => var r := LoadFields(fs, t.elems, c); Loaded(Items(r.value), r.c)
    case Enum(vs) =>
      var tag := TakeU8(c);
      var k := tag.value as nat;
      if k < |vs| then var r := LoadFields(vs[k], Defaults(vs[k]), tag.c); Loaded(Variant(k, r.value), r.c)
      else Loaded(t, Fail(tag.c))
  }

  function LoadMany(e: Shape, ts: seq<Value>, c: Cursor): (r: Loaded<seq<Value>>)
    requires WellFormed(e) && HasMany(e, ts) && InBounds(c)
    ensures InBounds(r.c) && r.c.buf == c.buf && |r.value| == |ts| && HasMany(e, r.value)
    decreases e, |ts| + 1
  {
    if ts == [] then Loaded([], c)
    else
      var head := Load(e, ts[0], c);
      var tail := LoadMany(e, ts[1..], head.c);
      Loaded([head.value] + tail.value, tail.c)
  }

  function LoadFields(fs: Fields, ts: seq<Value>, c: Cursor): (r: Loaded<seq<Value>>)
    requires WellFormedFields(fs) && HasFields(fs, ts) && InBounds(c)
    ensures InBounds(r.c) && r.c.buf == c.buf && HasFields(fs, r.value)
    decreases fs, 0
  {
    match fs
    case End => Loaded([], c)
    case Field(skip, s, _, rest) =>
      var head := if skip then Loaded(ts[0], c) else Load(s, ts[0], c);
      var tail := LoadFields(rest, ts[1..], head.c);
      Loaded([head.value] + tail.value, tail.c)
  }

  lemma LengthFits(bytes: seq<Byte>)
    requires |bytes| == 4
    ensures Le(bytes) < WORD
  {
    LeInverse(bytes);
    Widths();
  }

  // ---------------------------------------------------------------------------------------------
  // What a load restores

  /** `v` with the fields that are not serialized taken from the target, or from the defaults of what load builds anew. */
  function Restore(s: Shape, v: Value, t: Value): (r: Value)
    requires WellFormed(s) && Has(s, v) && Has(s, t)
    ensures Has(s, r)
    decreases s, 0
  {
    match s
    case Array(e, _) => Items(RestoreMany(e, v.elems, t.elems))
    case Opt(e, d) => if v.None? then None else Some(Restore(e, v.value, d))
    case Many(e, d) => Items(RestoreMany(e, v.elems, Repeat(d, |v.elems|)))
    case Record(fs) => Items(RestoreFields(fs, v.elems, t.elems))
    case Enum(vs) => Variant(v.tag, RestoreFields(vs[v.tag], v.args, Defaults(vs[v.tag])))
    case _ => v
  }

  function RestoreMany(e: Shape, vs: seq<Value>, ts: seq<Value>): (r: seq<Value>)
    requires WellFormed(e) && HasMany(e, vs) && HasMany(e, ts) && |vs| == |ts|
    ensures HasMany(e, r) && |r| == |vs|
    decreases e, |vs| + 1
  {
    if vs == [] then [] else [Restore(e, vs[0], ts[0])] + RestoreMany(e, vs[1..], ts[1..])
  }

  function RestoreFields(fs: Fields, vs: seq<Value>, ts: seq<Value>): (r: seq<Value>)
    requires WellFormedFields(fs) && HasFields(fs, vs) && HasFields(fs, ts)
    ensures HasFields(fs, r)
    decreases fs, 0
  {
    match fs
    case End => []
    case Field(skip, s, _, rest) =>
      [if skip then ts[0] else Restore(s, vs[0], ts[0])] + RestoreFields(rest, vs[1..], ts[1..])
  }

  /** No serialized vector is longer than `total` bytes: what the corrupt-length guard lets through. */
  predicate Guarded(s: Shape, v: Value, total: nat)
    requires WellFormed(s) && Has(s, v)
    decreases s, 0
  {
    match s
    case Array(e, _) => GuardedMany(e, v.elems, total)
    case Opt(e, _) => v.Some? ==> Guarded(e, v.value, total)
    case Many(e, _) => |v.elems| <= total && GuardedMany(e, v.elems, total)
    case Record(fs) => GuardedFields(fs, v.elems, total)
    case Enum(vs) => GuardedFields(vs[v.tag], v.args, total)
    case _ => true
  }

  predicate GuardedMany(e: Shape, vs: seq<Value>, total: nat)
    requires WellFormed(e) && HasMany(e, vs)
    decreases e, |vs| + 1
  {
    vs != [] ==> Guarded(e, vs[0], total) && GuardedMany(e, vs[1..], total)
  }

  predicate GuardedFields(fs: Fields, vs: seq<Value>, total: nat)
    requires WellFormedFields(fs) && HasFields(fs, vs)
    decreases fs, 0
  {
    fs.Field? ==> (fs.skip || Guarded(fs.shape, vs[0], total)) && GuardedFields(fs.rest, vs[1..], total)
  }

  /** The cursor stands before `bytes`. */
  predicate Reads(c: Cursor, bytes: seq<Byte>) {
    !c.error && c.pos + |bytes| <= |c.buf| && c.buf[c.pos..c.pos + |bytes|] == bytes
  }

  function Advance(c: Cursor, n: nat): Cursor { c.(pos := c.pos + n) }

  lemma ReadsSplit(c: Cursor, a: seq<Byte>, b: seq<Byte>)
    requires Reads(c, a + b)
    ensures Reads(c, a) && Reads(Advance(c, |a|), b)
  {
    var ab := c.buf[c.pos..c.pos + |a + b|];
    assert ab[..|a|] == a && ab[|a|..] == b;
    assert c.buf[c.pos..c.pos + |a|] == ab[..|a|];
    assert c.buf[c.pos + |a|..c.pos + |a| + |b|] == ab[|a|..];
  }

  /** Exactly `bytes` was consumed, or the guard refused. */
  ghost predicate Outcome<T>(r: Loaded<T>, guarded: bool, want: T, c: Cursor, n: nat) {
    if guarded then r == Loaded(want, Advance(c, n)) else r.c.error
  }

  lemma {:induction false} ErrorSticks(s: Shape, t: Value, c: Cursor)
    requires WellFormed(s) && Has(s, t) && InBounds(c) && c.error
    ensures Load(s, t, c).c.error
    decreases s, 0
  {
    match s
    case Array(e, _) => ErrorSticksMany(e, t.elems, c);
    case Opt(e, d) =>
    case Many(e, d) =>
    case Record(fs) => ErrorSticksFields(fs, t.elems, c);
    case Enum(vs) =>
      var tag := TakeU8(c);
      if 0 < |vs| { ErrorSticksFields(vs[0], Defaults(vs[0]), tag.c); }
    case _ =>
  }

  lemma {:induction false} ErrorSticksMany(e: Shape, ts: seq<Value>, c: Cursor)
    requires WellFormed(e) && HasMany(e, ts) && InBounds(c) && c.error
    ensures LoadMany(e, ts, c).c.error
    decreases e, |ts| + 1
  {
    if ts != [] {
      ErrorSticks(e, ts[0], c);
      ErrorSticksMany(e, ts[1..], Load(e, ts[0], c).c);
    }
  }

  lemma {:induction false} ErrorSticksFields(fs: Fields, ts: seq<Value>, c: Cursor)
    requires WellFormedFields(fs) && HasFields(fs, ts) && InBounds(c) && c.error
    ensures LoadFields(fs, ts, c).c.error
    decreases fs, 0
  {
    if fs.Field? {
      if fs.skip {
        ErrorSticksFields(fs.rest, ts[1..], c);
      } else {
        ErrorSticks(fs.shape, ts[0], c);
        ErrorSticksFields(fs.rest, ts[1..], Load(fs.shape, ts[0], c).c);
      }
    }
  }

  lemma {:induction false} LoadIs(s: Shape, v: Value, t: Value, c: Cursor)
    requires WellFormed(s) && Has(s, v) && Has(s, t) && Reads(c, Save(s, v))
    ensures Outcome(Load(s, t, c), Guarded(s, v, |c.buf|), Restore(s, v, t), c, |Save(s, v)|)
    decreases s, 0
  {
    match s
    case Pod(_) =>
    case Word => LoadWordIs(v, t, c);
    case Flag => assert c.buf[c.pos] == Save(s, v)[0];
    case Array(e, _) => LoadManyIs(e, v.elems, t.elems, c);
    case Opt(e, d) => LoadOptIs(e, d, v, t, c);
    case Many(e, d) => LoadVecIs(e, d, v, t, c);
    case Record(fs) => LoadFieldsIs(fs, v.elems, t.elems, c);
    case Enum(vs) => LoadEnumIs(vs, v, t, c);
  }

  lemma LoadWordIs(v: Value, t: Value, c: Cursor)
    requires Has(Word, v) && Has(Word, t) && Reads(c, Save(Word, v))
    ensures Outcome(Load(Word, t, c), true, v, c, 8)
  {
    WordRoundTrip(v.n);
  }

  lemma WordRoundTrip(n: nat)
    requires n < WORD
    ensures Le(LeBytes(n, 8)) % WORD == n
  {
    Widths();
    LeRoundTrip(n, 8);
  }

  lemma {:induction false} LoadOptIs(e: Shape, d: Value, v: Value, t: Value, c: Cursor)
    requires WellFormed(Opt(e, d)) && Has(Opt(e, d), v) && Has(Opt(e, d), t) && Reads(c, Save(Opt(e, d), v))
    ensures Outcome(Load(Opt(e, d), t, c), Guarded(Opt(e, d), v, |c.buf|), Restore(Opt(e, d), v, t), c, |Save(Opt(e, d), v)|)
    decreases e, 1
  {
    if v.None? {
      assert c.buf[c.pos..c.pos + 1][0] == 0;
    } else {
      ReadsSplit(c, [1], Save(e, v.value));
      assert c.buf[c.pos..c.pos + 1][0] == 1;
      LoadIs(e, v.value, d, Advance(c, 1));
    }
  }

  lemma {:induction false} LoadVecIs(e: Shape, d: Value, v: Value, t: Value, c: Cursor)
    requires WellFormed(Many(e, d)) && Has(Many(e, d), v) && Has(Many(e, d), t) && Reads(c, Save(Many(e, d), v))
    ensures Outcome(Load(Many(e, d), t, c), Guarded(Many(e, d), v, |c.buf|), Restore(Many(e, d), v, t), c, |Save(Many(e, d), v)|)
    decreases e, |v.elems| + 2
  {
    var n := |v.elems|;
    ReadsSplit(c, LeBytes(n, 4), SaveMany(e, v.elems));
    Widths();
    LeRoundTrip(n, 4);
    if n <= |c.buf| {
      LoadManyIs(e, v.elems, Repeat(d, n), Advance(c, 4));
    }
  }

  lemma {:induction false} LoadEnumIs(vs: seq<Fields>, v: Value, t: Value, c: Cursor)
    requires WellFormed(Enum(vs)) && Has(Enum(vs), v) && Has(Enum(vs), t) && Reads(c, Save(Enum(vs), v))
    ensures Outcome(Load(Enum(vs), t, c), Guarded(Enum(vs), v, |c.buf|), Restore(Enum(vs), v, t), c, |Save(Enum(vs), v)|)
    decreases vs, 0
  {
    ReadsSplit(c, [v.tag as Byte], SaveFields(vs[v.tag], v.args));
    assert c.buf[c.pos..c.pos + 1][0] == v.tag as Byte;
    LoadFieldsIs(vs[v.tag], v.args, Defaults(vs[v.tag]), Advance(c, 1));
  }

  lemma {:induction false} LoadManyIs(e: Shape, vs: seq<Value>, ts: seq<Value>, c: Cursor)
    requires WellFormed(e) && HasMany(e, vs) && HasMany(e, ts) && |vs| == |ts| && Reads(c, SaveMany(e, vs))
    ensures Outcome(LoadMany(e, ts, c), GuardedMany(e, vs, |c.buf|), RestoreMany(e, vs, ts), c, |SaveMany(e, vs)|)
    decreases e, |vs| + 1
  {
    if vs != [] {
      ReadsSplit(c, Save(e, vs[0]), SaveMany(e, vs[1..]));
      LoadIs(e, vs[0], ts[0], c);
      if Guarded(e, vs[0], |c.buf|) {
        LoadManyIs(e, vs[1..], ts[1..], Advance(c, |Save(e, vs[0])|));
      } else {
        ErrorSticksMany(e, ts[1..], Load(e, ts[0], c).c);
      }
    }
  }

  lemma {:induction false} LoadFieldsIs(fs: Fields, vs: seq<Value>, ts: seq<Value>, c: Cursor)
    requires WellFormedFields(fs) && HasFields(fs, vs) && HasFields(fs, ts) && Reads(c, SaveFields(fs, vs))
    ensures Outcome(LoadFields(fs, ts, c), GuardedFields(fs, vs, |c.buf|), RestoreFields(fs, vs, ts), c, |SaveFields(fs, vs)|)
    decreases fs, 0
  {
    if fs.Field? {
      if fs.skip {
        assert SaveFields(fs, vs) == SaveFields(fs.rest, vs[1..]);
        LoadFieldsIs(fs.rest, vs[1..], ts[1..], c);
      } else {
        ReadsSplit(c, Save(fs.shape, vs[0]), SaveFields(fs.rest, vs[1..]));
        LoadIs(fs.shape, vs[0], ts[0], c);
        if Guarded(fs.shape, vs[0], |c.buf|) {
          LoadFieldsIs(fs.rest, vs[1..], ts[1..], Advance(c, |Save(fs.shape, vs[0])|));
        } else {
          ErrorSticksFields(fs.rest, ts[1..], Load(fs.shape, ts[0], c).c);
        }
      }
    }
  }

  // ---------------------------------------------------------------------------------------------
  // Damage

  /** The buffer ends inside `bytes`. */
  predicate Truncated(c: Cursor, bytes: seq<Byte>) {
    !c.error && c.pos <= |c.buf| < c.pos + |bytes| && c.buf[c.pos..] == bytes[..|c.buf| - c.pos]
  }

  /** A cut falls in the first part, or after it and in the second. */
  lemma TruncatedSplit(c: Cursor, a: seq<Byte>, b: seq<Byte>)
    requires Truncated(c, a + b)
    ensures Truncated(c, a) || (Reads(c, a) && Truncated(Advance(c, |a|), b))
  {
    var left := |c.buf| - c.pos;
    var here := c.buf[c.pos..];
    assert here == (a + b)[..left];
    if left < |a| {
      assert (a + b)[..left] == a[..left];
    } else {
      assert here[..|a|] == a && here[|a|..] == b[..left - |a|];
      assert c.buf[c.pos..c.pos + |a|] == here[..|a|];
      assert c.buf[c.pos + |a|..] == here[|a|..];
    }
  }

  lemma {:induction false} LoadTruncated(s: Shape, v: Value, t: Value, c: Cursor)
    requires WellFormed(s) && Has(s, v) && Has(s, t) && Truncated(c, Save(s, v))
    ensures Load(s, t, c).c.error
    decreases s, 0
  {
    match s
    case Array(e, _) => LoadManyTruncated(e, v.elems, t.elems, c);
    case Opt(e, d) =>
      if v.Some? {
        TruncatedSplit(c, [1], Save(e, v.value));
        if Reads(c, [1]) {
          assert c.buf[c.pos..c.pos + 1][0] == 1;
          LoadTruncated(e, v.value, d, Advance(c, 1));
        }
      }
    case Many(e, d) => LoadVecTruncated(e, d, v, t, c);
    case Record(fs) => LoadFieldsTruncated(fs, v.elems, t.elems, c);
    case Enum(vs) => LoadEnumTruncated(vs, v, t, c);
    case _ =>
  }

  lemma {:induction false} LoadVecTruncated(e: Shape, d: Value, v: Value, t: Value, c: Cursor)
    requires WellFormed(Many(e, d)) && Has(Many(e, d), v) && Has(Many(e, d), t) && Truncated(c, Save(Many(e, d), v))
    ensures Load(Many(e, d), t, c).c.error
    decreases e, |v.elems| + 2
  {
    var n := |v.elems|;
    TruncatedSplit(c, LeBytes(n, 4), SaveMany(e, v.elems));
    if Reads(c, LeBytes(n, 4)) {
      Widths();
      LeRoundTrip(n, 4);
      if n <= |c.buf| { LoadManyTruncated(e, v.elems, Repeat(d, n), Advance(c, 4)); }
    }
  }

  lemma {:induction false} LoadEnumTruncated(vs: seq<Fields>, v: Value, t: Value, c: Cursor)
    requires WellFormed(Enum(vs)) && Has(Enum(vs), v) && Has(Enum(vs), t) && Truncated(c, Save(Enum(vs), v))
    ensures Load(Enum(vs), t, c).c.error
    decreases vs, 0
  {
    TruncatedSplit(c, [v.tag as Byte], SaveFields(vs[v.tag], v.args));
    if Reads(c, [v.tag as Byte]) {
      assert c.buf[c.pos..c.pos + 1][0] == v.tag as Byte;
      LoadFieldsTruncated(vs[v.tag], v.args, Defaults(vs[v.tag]), Advance(c, 1));
    } else {
      ErrorSticksFields(vs[0], Defaults(vs[0]), Fail(c));
    }
  }

  lemma {:induction false} LoadManyTruncated(e: Shape, vs: seq<Value>, ts: seq<Value>, c: Cursor)
    requires WellFormed(e) && HasMany(e, vs) && HasMany(e, ts) && |vs| == |ts| && Truncated(c, SaveMany(e, vs))
    ensures LoadMany(e, ts, c).c.error
    decreases e, |vs| + 1
  {
    TruncatedSplit(c, Save(e, vs[0]), SaveMany(e, vs[1..]));
    if Truncated(c, Save(e, vs[0])) {
      LoadTruncated(e, vs[0], ts[0], c);
      ErrorSticksMany(e, ts[1..], Load(e, ts[0], c).c);
    } else {
      LoadIs(e, vs[0], ts[0], c);
      if Guarded(e, vs[0], |c.buf|) {
        LoadManyTruncated(e, vs[1..], ts[1..], Advance(c, |Save(e, vs[0])|));
      } else {
        ErrorSticksMany(e, ts[1..], Load(e, ts[0], c).c);
      }
    }
  }

  lemma {:induction false} LoadFieldsTruncated(fs: Fields, vs: seq<Value>, ts: seq<Value>, c: Cursor)
    requires WellFormedFields(fs) && HasFields(fs, vs) && HasFields(fs, ts) && Truncated(c, SaveFields(fs, vs))
    ensures LoadFields(fs, ts, c).c.error
    decreases fs, 0
  {
    if fs.skip {
      assert SaveFields(fs, vs) == SaveFields(fs.rest, vs[1..]);
      LoadFieldsTruncated(fs.rest, vs[1..], ts[1..], c);
    } else {
      TruncatedSplit(c, Save(fs.shape, vs[0]), SaveFields(fs.rest, vs[1..]));
      var after := Load(fs.shape, ts[0], c).c;
      if Truncated(c, Save(fs.shape, vs[0])) {
        LoadTruncated(fs.shape, vs[0], ts[0], c);
        ErrorSticksFields(fs.rest, ts[1..], after);
      } else {
        LoadIs(fs.shape, vs[0], ts[0], c);
        if Guarded(fs.shape, vs[0], |c.buf|) {
          LoadFieldsTruncated(fs.rest, vs[1..], ts[1..], after);
        } else {
          ErrorSticksFields(fs.rest, ts[1..], after);
        }
      }
    }
  }

  // ---------------------------------------------------------------------------------------------
  // The promises

  /** A load counts only if it consumed the buffer exactly. */
  predicate Successful(c: Cursor) { !c.error && c.pos == |c.buf| }

  function LoadFrom(s: Shape, t: Value, data: seq<Byte>): Loaded<Value>
    requires WellFormed(s) && Has(s, t)
  {
    Load(s, t, Cursor(data, 0, false))
  }

  /** Loading what was saved succeeds iff no vector outgrows the buffer, and then restores every serialized field. */
  lemma RoundTripIff(s: Shape, v: Value, t: Value)
    requires WellFormed(s) && Has(s, v) && Has(s, t)
    ensures var r := LoadFrom(s, t, Save(s, v));
            && (Successful(r.c) <==> Guarded(s, v, |Save(s, v)|))
            && (Successful(r.c) ==> r.value == Restore(s, v, t))
  {
    var bytes := Save(s, v);
    assert bytes[0..0 + |bytes|] == bytes;
    LoadIs(s, v, t, Cursor(bytes, 0, false));
  }

  lemma PrefixRejected(s: Shape, v: Value, t: Value, k: nat)
    requires WellFormed(s) && Has(s, v) && Has(s, t) && k < |Save(s, v)|
    ensures !Successful(LoadFrom(s, t, Save(s, v)[..k]).c)
  {
    var cut := Save(s, v)[..k];
    assert cut[0..] == cut;
    LoadTruncated(s, v, t, Cursor(cut, 0, false));
  }

  lemma ExtensionRejected(s: Shape, v: Value, t: Value, extra: seq<Byte>)
    requires WellFormed(s) && Has(s, v) && Has(s, t) && extra != []
    ensures !Successful(LoadFrom(s, t, Save(s, v) + extra).c)
  {
    var data := Save(s, v) + extra;
    assert data[0..0 + |Save(s, v)|] == Save(s, v);
    LoadIs(s, v, t, Cursor(data, 0, false));
  }

  /** Every value of the shape takes at least one byte. */
  predicate NonEmpty(s: Shape)
    decreases s
  {
    match s
    case Pod(size) => size > 0
    case Array(e, count) => count > 0 && NonEmpty(e)
    case Record(fs) => NonEmptyFields(fs)
    case _ => true
  }

  predicate NonEmptyFields(fs: Fields)
    decreases fs
  {
    fs.Field? && ((!fs.skip && NonEmpty(fs.shape)) || NonEmptyFields(fs.rest))
  }

  /** Every vector's elements take at least one byte each. */
  predicate Sized(s: Shape)
    decreases s
  {
    match s
    case Array(e, _) => Sized(e)
    case Opt(e, _) => Sized(e)
    case Many(e, _) => NonEmpty(e) && Sized(e)
    case Record(fs) => SizedFields(fs)
    case Enum(vs) => forall i :: 0 <= i < |vs| ==> SizedFields(vs[i])
    case _ => true
  }

  predicate SizedFields(fs: Fields)
    decreases fs
  {
    fs.Field? ==> (fs.skip || Sized(fs.shape)) && SizedFields(fs.rest)
  }

  lemma {:induction false} TakesAByte(s: Shape, v: Value)
    requires WellFormed(s) && Has(s, v) && NonEmpty(s)
    ensures |Save(s, v)| >= 1
    decreases s, 0
  {
    match s
    case Array(e, _) => TakesAByte(e, v.elems[0]);
    case Record(fs) => FieldsTakeAByte(fs, v.elems);
    case _ =>
  }

  lemma {:induction false} FieldsTakeAByte(fs: Fields, vs: seq<Value>)
    requires WellFormedFields(fs) && HasFields(fs, vs) && NonEmptyFields(fs)
    ensures |SaveFields(fs, vs)| >= 1
    decreases fs, 0
  {
    if !fs.skip && NonEmpty(fs.shape) {
      TakesAByte(fs.shape, vs[0]);
    } else {
      FieldsTakeAByte(fs.rest, vs[1..]);
    }
  }

  lemma {:induction false} ManyTakeBytes(e: Shape, vs: seq<Value>)
    requires WellFormed(e) && HasMany(e, vs) && NonEmpty(e)
    ensures |SaveMany(e, vs)| >= |vs|
    decreases |vs|
  {
    if vs != [] {
      TakesAByte(e, vs[0]);
      ManyTakeBytes(e, vs[1..]);
    }
  }

  /** With sized elements the guard never refuses a saved value. */
  lemma {:induction false} SizedIsGuarded(s: Shape, v: Value, total: nat)
    requires WellFormed(s) && Has(s, v) && Sized(s) && |Save(s, v)| <= total
    ensures Guarded(s, v, total)
    decreases s, 0
  {
    match s
    case Array(e, _) => SizedManyGuarded(e, v.elems, total);
    case Opt(e, _) => if v.Some? { SizedIsGuarded(e, v.value, total); }
    case Many(e, _) =>
      ManyTakeBytes(e, v.elems);
      SizedManyGuarded(e, v.elems, total);
    case Record(fs) => SizedFieldsGuarded(fs, v.elems, total);
    case Enum(vs) => SizedFieldsGuarded(vs[v.tag], v.args, total);
    case _ =>
  }

  lemma {:induction false} SizedManyGuarded(e: Shape, vs: seq<Value>, total: nat)
    requires WellFormed(e) && HasMany(e, vs) && Sized(e) && |SaveMany(e, vs)| <= total
    ensures GuardedMany(e, vs, total)
    decreases e, |vs| + 1
  {
    if vs != [] {
      SizedIsGuarded(e, vs[0], total);
      SizedManyGuarded(e, vs[1..], total);
    }
  }

  lemma {:induction false} SizedFieldsGuarded(fs: Fields, vs: seq<Value>, total: nat)
    requires WellFormedFields(fs) && HasFields(fs, vs) && SizedFields(fs) && |SaveFields(fs, vs)| <= total
    ensures GuardedFields(fs, vs, total)
    decreases fs, 0
  {
    if fs.Field? {
      if !fs.skip { SizedIsGuarded(fs.shape, vs[0], total); }
      SizedFieldsGuarded(fs.rest, vs[1..], total);
    }
  }

  /** The plain promise, for shapes whose vector elements take a byte each. */
  lemma RoundTrip(s: Shape, v: Value, t: Value)
    requires WellFormed(s) && Has(s, v) && Has(s, t) && Sized(s)
    ensures Successful(LoadFrom(s, t, Save(s, v)).c) && LoadFrom(s, t, Save(s, v)).value == Restore(s, v, t)
  {
    SizedIsGuarded(s, v, |Save(s, v)|);
    RoundTripIff(s, v, t);
  }

  /** Five elements that serialize to nothing: four bytes saved, and refused on load. */
  lemma EmptyElementsFail(t: Value)
    requires Has(Many(Record(End), Items([])), t)
    ensures var s := Many(Record(End), Items([]));
            var v := Items(Repeat(Items([]), 5));
            Has(s, v) && !Successful(LoadFrom(s, t, Save(s, v)).c)
  {
    var e := Record(End);
    var s, v := Many(e, Items([])), Items(Repeat(Items([]), 5));
    assert HasMany(e, v.elems);
    EmptySave(v.elems);
    RoundTripIff(s, v, t);
  }

  lemma {:induction false} EmptySave(vs: seq<Value>)
    requires HasMany(Record(End), vs)
    ensures SaveMany(Record(End), vs) == []
    decreases |vs|
  {
    if vs != [] { EmptySave(vs[1..]); }
  }

  /** Restoring changes nothing that is serialized: saving again gives the same bytes. */
  lemma {:induction false} RestoreSavesSame(s: Shape, v: Value, t: Value)
    requires WellFormed(s) && Has(s, v) && Has(s, t)
    ensures Save(s, Restore(s, v, t)) == Save(s, v)
    decreases s, 0
  {
    match s
    case Array(e, _) => RestoreManySavesSame(e, v.elems, t.elems);
    case Opt(e, d) => if v.Some? { RestoreSavesSame(e, v.value, d); }
    case Many(e, d) => RestoreManySavesSame(e, v.elems, Repeat(d, |v.elems|));
    case Record(fs) => RestoreFieldsSaveSame(fs, v.elems, t.elems);
    case Enum(vs) => RestoreFieldsSaveSame(vs[v.tag], v.args, Defaults(vs[v.tag]));
    case _ =>
  }

  lemma {:induction false} RestoreManySavesSame(e: Shape, vs: seq<Value>, ts: seq<Value>)
    requires WellFormed(e) && HasMany(e, vs) && HasMany(e, ts) && |vs| == |ts|
    ensures SaveMany(e, RestoreMany(e, vs, ts)) == SaveMany(e, vs)
    decreases e, |vs| + 1
  {
    if vs != [] {
      RestoreSavesSame(e, vs[0], ts[0]);
      RestoreManySavesSame(e, vs[1..], ts[1..]);
      assert RestoreMany(e, vs, ts)[1..] == RestoreMany(e, vs[1..], ts[1..]);
    }
  }

  lemma {:induction false} RestoreFieldsSaveSame(fs: Fields, vs: seq<Value>, ts: seq<Value>)
    requires WellFormedFields(fs) && HasFields(fs, vs) && HasFields(fs, ts)
    ensures SaveFields(fs, RestoreFields(fs, vs, ts)) == SaveFields(fs, vs)
    decreases fs, 0
  {
    if fs.Field? {
      if !fs.skip { RestoreSavesSame(fs.shape, vs[0], ts[0]); }
      RestoreFieldsSaveSame(fs.rest, vs[1..], ts[1..]);
      assert RestoreFields(fs, vs, ts)[1..] == RestoreFields(fs.rest, vs[1..], ts[1..]);
    }
  }

  /** Nothing is skipped anywhere. */
  predicate Whole(s: Shape)
    decreases s
  {
    match s
    case Array(e, _) => Whole(e)
    case Opt(e, _) => Whole(e)
    case Many(e, _) => Whole(e)
    case Record(fs) => WholeFields(fs)
    case Enum(vs) => forall i :: 0 <= i < |vs| ==> WholeFields(vs[i])
    case _ => true
  }

  predicate WholeFields(fs: Fields)
    decreases fs
  {
    fs.Field? ==> !fs.skip && Whole(fs.shape) && WholeFields(fs.rest)
  }

  /** Without skipped fields the whole value comes back, whatever the target held. */
  lemma {:induction false} WholeRestores(s: Shape, v: Value, t: Value)
    requires WellFormed(s) && Has(s, v) && Has(s, t) && Whole(s)
    ensures Restore(s, v, t) == v
    decreases s, 0
  {
    match s
    case Array(e, _) => WholeManyRestores(e, v.elems, t.elems);
    case Opt(e, d) => if v.Some? { WholeRestores(e, v.value, d); }
    case Many(e, d) => WholeManyRestores(e, v.elems, Repeat(d, |v.elems|));
    case Record(fs) => WholeFieldsRestore(fs, v.elems, t.elems);
    case Enum(vs) => WholeFieldsRestore(vs[v.tag], v.args, Defaults(vs[v.tag]));
    case _ =>
  }

  lemma {:induction false} WholeManyRestores(e: Shape, vs: seq<Value>, ts: seq<Value>)
    requires WellFormed(e) && HasMany(e, vs) && HasMany(e, ts) && |vs| == |ts| && Whole(e)
    ensures RestoreMany(e, vs, ts) == vs
    decreases e, |vs| + 1
  {
    if vs != [] {
      WholeRestores(e, vs[0], ts[0]);
      WholeManyRestores(e, vs[1..], ts[1..]);
    }
  }

  lemma {:induction false} WholeFieldsRestore(fs: Fields, vs: seq<Value>, ts: seq<Value>)
    requires WellFormedFields(fs) && HasFields(fs, vs) && HasFields(fs, ts) && WholeFields(fs)
    ensures RestoreFields(fs, vs, ts) == vs
    decreases fs, 0
  {
    if fs.Field? {
      WholeRestores(fs.shape, vs[0], ts[0]);
      WholeFieldsRestore(fs.rest, vs[1..], ts[1..]);
    }
  }

  // ---------------------------------------------------------------------------------------------
  // The context that drives both directions

  /** The element loop after `i` elements, saving. */
  ghost predicate Saving(e: Shape, vs: seq<Value>, i: nat, buf: seq<Byte>, start: seq<Byte>)
    requires WellFormed(e) && HasMany(e, vs) && i <= |vs|
  {
    buf + SaveMany(e, vs[i..]) == start + SaveMany(e, vs)
  }

  lemma SavingStep(e: Shape, vs: seq<Value>, i: nat, buf: seq<Byte>, start: seq<Byte>)
    requires WellFormed(e) && HasMany(e, vs) && i < |vs| && Saving(e, vs, i, buf, start)
    ensures Saving(e, vs, i + 1, buf + Save(e, vs[i]), start)
  {
    assert vs[i..][1..] == vs[i + 1..];
    Append3(buf, Save(e, vs[i]), SaveMany(e, vs[i + 1..]));
  }

  /** The element loop with `left` to go, loading towards `final`. */
  ghost predicate Loading(e: Shape, left: seq<Value>, r: seq<Value>, c: Cursor, final: Loaded<seq<Value>>)
    requires WellFormed(e) && HasMany(e, left) && InBounds(c)
  {
    var rest := LoadMany(e, left, c);
    r + rest.value == final.value && rest.c == final.c
  }

  lemma LoadingStep(e: Shape, left: seq<Value>, r: seq<Value>, c: Cursor, final: Loaded<seq<Value>>, x: Loaded<Value>)
    requires WellFormed(e) && HasMany(e, left) && left != [] && InBounds(c) && x == Load(e, left[0], c)
    requires Loading(e, left, r, c, final)
    ensures HasMany(e, left[1..]) && Loading(e, left[1..], r + [x.value], x.c, final)
  {
    var rest := LoadMany(e, left[1..], x.c).value;
    assert LoadMany(e, left, c).value == [x.value] + rest;
    assert r + [x.value] + rest == r + ([x.value] + rest);
  }

  lemma LoadingEnd(e: Shape, left: seq<Value>, r: seq<Value>, c: Cursor, final: Loaded<seq<Value>>)
    requires left == [] && WellFormed(e) && InBounds(c) && Loading(e, left, r, c, final)
    ensures Loaded(r, c) == final
  {
    assert r + [] == r;
  }

  lemma SavingEnd(e: Shape, vs: seq<Value>, buf: seq<Byte>, start: seq<Byte>)
    requires WellFormed(e) && HasMany(e, vs) && Saving(e, vs, |vs|, buf, start)
    ensures buf == start + SaveMany(e, vs)
  {
    assert vs[|vs|..] == [];
  }

  /** The element loop after `i` elements, either way. */
  ghost predicate Walked(save: bool, e: Shape, vs: seq<Value>, i: nat, r: seq<Value>, c: Cursor, start: Cursor,
                         final: Loaded<seq<Value>>)
    requires WellFormed(e) && HasMany(e, vs) && i <= |vs| && InBounds(c)
  {
    && |r| == i && HasMany(e, vs[i..])
    && (save ==> r == vs[..i] && Saving(e, vs, i, c.buf, start.buf) && c.pos == start.pos)
    && (!save ==> Loading(e, vs[i..], r, c, final))
  }

  lemma WalkedStart(save: bool, e: Shape, vs: seq<Value>, c: Cursor)
    requires WellFormed(e) && HasMany(e, vs) && InBounds(c)
    ensures Walked(save, e, vs, 0, [], c, c, LoadMany(e, vs, c))
  {
    var final := LoadMany(e, vs, c);
    assert vs[0..] == vs && [] + final.value == final.value;
  }

  lemma WalkedStep(save: bool, e: Shape, vs: seq<Value>, i: nat, r: seq<Value>, c: Cursor, start: Cursor,
                   final: Loaded<seq<Value>>, x: Value, after: Cursor)
    requires WellFormed(e) && HasMany(e, vs) && i < |vs| && InBounds(c) && InBounds(after)
    requires Walked(save, e, vs, i, r, c, start, final)
    requires save ==> x == vs[i] && after.buf == c.buf + Save(e, vs[i]) && after.pos == c.pos
    requires !save ==> Loaded(x, after) == Load(e, vs[i], c)
    ensures Walked(save, e, vs, i + 1, r + [x], after, start, final)
  {
    assert vs[i..][1..] == vs[i + 1..];
    if save {
      SavingStep(e, vs, i, c.buf, start.buf);
      assert vs[..i] + [vs[i]] == vs[..i + 1];
    } else {
      LoadingStep(e, vs[i..], r, c, final, Load(e, vs[i], c));
    }
  }

  lemma WalkedEnd(save: bool, e: Shape, vs: seq<Value>, r: seq<Value>, c: Cursor, start: Cursor, final: Loaded<seq<Value>>)
    requires WellFormed(e) && HasMany(e, vs) && InBounds(c) && Walked(save, e, vs, |vs|, r, c, start, final)
    ensures save ==> r == vs && c.buf == start.buf + SaveMany(e, vs) && c.pos == start.pos
    ensures !save ==> Loaded(r, c) == final
  {
    assert vs[..|vs|] == vs && vs[|vs|..] == [];
    if save {
      SavingEnd(e, vs, c.buf, start.buf);
    } else {
      LoadingEnd(e, vs[|vs|..], r, c, final);
    }
  }

  class SavestateContext {
    var buf: seq<Byte>
    var pos: nat
    var save: bool
    var error: bool

    function Cur(): Cursor reads this { Cursor(buf, pos, error) }

    /** Saving never fails: there is nothing to run out of. */
    ghost predicate Valid() reads this { pos <= |buf| && (save ==> !error) }

    constructor NewSave()
      ensures Valid() && save && buf == []
    {
      buf, pos, save, error := [], 0, true, false;
    }

    constructor NewLoad(data: seq<Byte>)
      ensures Valid() && !save && Cur() == Cursor(data, 0, false)
    {
      buf, pos, save, error := data, 0, false, false;
    }

    method PutU8(value: Byte)
      requires Valid() && save
      modifies this`buf
      ensures Valid() && buf == old(buf) + [value]
    {
      if error {
        return;
      }
      buf := buf + [value];
    }

    method DoTakeU8() returns (value: Byte)
      requires Valid() && !save
      modifies this`pos, this`error
      ensures Valid() && Loaded(value, Cur()) == TakeU8(old(Cur()))
    {
      if error || pos >= |buf| {
        error := true;
        return 0;
      }
      value := buf[pos];
      pos := pos + 1;
    }

    /** The raw copy, either way. */
    method BytesOf(value: seq<Byte>) returns (r: seq<Byte>)
      requires Valid()
      modifies this`buf, this`pos, this`error
      ensures Valid() && |r| == |value|
      ensures save ==> r == value && buf == old(buf) + value && pos == old(pos)
      ensures !save ==> Loaded(r, Cur()) == TakeBytes(value, old(Cur()))
    {
      r := value;
      if error {
        return;
      }
      if save {
        buf := buf + value;
      } else {
        if |buf| - pos < |value| {
          error := true;
          return;
        }
        r := buf[pos..pos + |value|];
        pos := pos + |value|;
      }
    }

    method Walk(s: Shape, v: Value) returns (r: Value)
      requires Valid() && WellFormed(s) && Has(s, v)
      modifies this`buf, this`pos, this`error
      ensures Valid() && Has(s, r)
      ensures save ==> r == v && buf == old(buf) + Save(s, v) && pos == old(pos)
      ensures !save ==> Loaded(r, Cur()) == Load(s, v, old(Cur()))
      decreases s, 0
    {
      match s
      case Pod(_) =>
        var bytes := BytesOf(v.bytes);
        r := Raw(bytes);
      case Word =>
        var bytes := BytesOf(LeBytes(v.n, 8));
        if save { WordRoundTrip(v.n); }
        r := Size(Le(bytes) % WORD);
      case Flag =>
        if save {
          PutU8(if v.b then 1 else 0);
          r := v;
        } else {
          var b := DoTakeU8();
          r := Bool(b != 0);
        }
      case Array(e, _) =>
        var elems := WalkMany(e, v.elems);
        r := Items(elems);
      case Opt(e, d) => r := WalkOpt(e, d, v);
      case Many(e, d) => r := WalkVec(e, d, v);
      case Record(fs) =>
        var elems := WalkFields(fs, v.elems);
        r := Items(elems);
      case Enum(vs) => r := WalkEnum(vs, v);
    }

    method WalkOpt(e: Shape, d: Value, v: Value) returns (r: Value)
      requires Valid() && WellFormed(Opt(e, d)) && Has(Opt(e, d), v)
      modifies this`buf, this`pos, this`error
      ensures Valid() && Has(Opt(e, d), r)
      ensures save ==> r == v && buf == old(buf) + Save(Opt(e, d), v) && pos == old(pos)
      ensures !save ==> Loaded(r, Cur()) == Load(Opt(e, d), v, old(Cur()))
      decreases e, 1
    {
      if save {
        if v.Some? {
          PutU8(1);
          var x := Walk(e, v.value);
          r := Some(x);
          Append3(old(buf), [1], Save(e, v.value));
        } else {
          PutU8(0);
          r := v;
        }
      } else {
        var tag := DoTakeU8();
        if tag != 0 {
          var x := Walk(e, d);
          r := Some(x);
        } else {
          r := None;
        }
      }
    }

    method WalkVec(e: Shape, d: Value, v: Value) returns (r: Value)
      requires Valid() && WellFormed(Many(e, d)) && Has(Many(e, d), v)
      modifies this`buf, this`pos, this`error
      ensures Valid() && Has(Many(e, d), r)
      ensures save ==> r == v && buf == old(buf) + Save(Many(e, d), v) && pos == old(pos)
      ensures !save ==> Loaded(r, Cur()) == Load(Many(e, d), v, old(Cur()))
      decreases e, 3
    {
      var bytes := BytesOf(LeBytes(|v.elems|, 4));
      if save {
        var elems := WalkMany(e, v.elems);
        r := Items(elems);
        Append3(old(buf), LeBytes(|v.elems|, 4), SaveMany(e, v.elems));
      } else {
        if error {
          return v;
        }
        var len := Le(bytes);
        if len > |buf| {
          error := true;
          return v;
        }
        LengthFits(bytes);
        var elems := WalkMany(e, Repeat(d, len));
        r := Items(elems);
      }
    }

    method WalkEnum(vs: seq<Fields>, v: Value) returns (r: Value)
      requires Valid() && WellFormed(Enum(vs)) && Has(Enum(vs), v)
      modifies this`buf, this`pos, this`error
      ensures Valid() && Has(Enum(vs), r)
      ensures save ==> r == v && buf == old(buf) + Save(Enum(vs), v) && pos == old(pos)
      ensures !save ==> Loaded(r, Cur()) == Load(Enum(vs), v, old(Cur()))
      decreases vs, 0
    {
      if save {
        PutU8(v.tag as Byte);
        var args := WalkFields(vs[v.tag], v.args);
        r := Variant(v.tag, args);
        Append3(old(buf), [v.tag as Byte], SaveFields(vs[v.tag], v.args));
      } else {
        var tag := DoTakeU8();
        var k := tag as nat;
        if k < |vs| {
          var args := WalkFields(vs[k], Defaults(vs[k]));
          r := Variant(k, args);
        } else {
          error := true;
          r := v;
        }
      }
    }

    /** The loop over the elements of an array or a vector. */
    method WalkMany(e: Shape, vs: seq<Value>) returns (r: seq<Value>)
      requires Valid() && WellFormed(e) && HasMany(e, vs)
      modifies this`buf, this`pos, this`error
      ensures Valid() && HasMany(e, r) && |r| == |vs|
      ensures save ==> r == vs && buf == old(buf) + SaveMany(e, vs) && pos == old(pos)
      ensures !save ==> Loaded(r, Cur()) == LoadMany(e, vs, old(Cur()))
      decreases e, 2
    {
      r := [];
      ghost var start, final := Cur(), LoadMany(e, vs, Cur());
      WalkedStart(save, e, vs, start);
      for i := 0 to |vs|
        invariant Valid() && Walked(save, e, vs, i, r, Cur(), start, final)
      {
        ghost var before := Cur();
        var x := Walk(e, vs[i]);
        WalkedStep(save, e, vs, i, r, before, start, final, x, Cur());
        r := r + [x];
      }
      WalkedEnd(save, e, vs, r, Cur(), start, final);
    }

    /** The generated calls, field after field; skipped ones are left alone. */
    method WalkFields(fs: Fields, vs: seq<Value>) returns (r: seq<Value>)
      requires Valid() && WellFormedFields(fs) && HasFields(fs, vs)
      modifies this`buf, this`pos, this`error
      ensures Valid() && HasFields(fs, r)
      ensures save ==> r == vs && buf == old(buf) + SaveFields(fs, vs) && pos == old(pos)
      ensures !save ==> Loaded(r, Cur()) == LoadFields(fs, vs, old(Cur()))
      decreases fs, 0
    {
      if fs.End? {
        return [];
      }
      var head := vs[0];
      if !fs.skip {
        head := Walk(fs.shape, vs[0]);
      }
      var tail := WalkFields(fs.rest, vs[1..]);
      r := [head] + tail;
      if save {
        Append3(old(buf), if fs.skip then [] else Save(fs.shape, vs[0]), SaveFields(fs.rest, vs[1..]));
      }
    }
  }

  /** Save a value, load it into any target: the walk undoes itself. */
  method SaveThenLoad(s: Shape, v: Value, t: Value) returns (r: Value, ok: bool)
    requires WellFormed(s) && Has(s, v) && Has(s, t) && Sized(s)
    ensures ok && r == Restore(s, v, t)
  {
    var out := new SavestateContext.NewSave();
    var same := out.Walk(s, v);
    assert out.buf == Save(s, v);
    RoundTrip(s, v, t);
    var inp := new SavestateContext.NewLoad(out.buf);
    r := inp.Walk(s, t);
    ok := !inp.error && inp.pos == |inp.buf|;
  }
}
