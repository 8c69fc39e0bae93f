/**
 The savestate file: a fixed header, a label, a screenshot and the compressed state.

 - `DecodeEncodeIff`: what was encoded decodes to the same state, for exactly the kind it was encoded for,
   and exactly when the screenshot and the state are within their limits;
 - `RelabelPreserves`: relabelling replaces the label and keeps kind, screenshot and payload, so every
   decode of the file is what it was before; `RelabelOkIff` says which files it accepts.
 Compression is a parameter: any codec whose inflate undoes its deflate up to the decompression limit.
 */
module StateFile {
  import opened Bytes
  import opened Wrappers

  const MAGIC := 0x504C_5341 // "ASLP"
  const VERSION := 5
  const HEADER_LEN := 12
  const MAX_LABEL_LEN := 40
  const MAX_SCREENSHOT := 16 * 1024 * 1024
  const DECOMPRESS_LIMIT := 64 * 1024 * 1024

  datatype Header = Header(version: nat, kind: Byte, labelLen: nat, shotLen: nat)

  /** Magic and framing only; the version is returned, not enforced. */
  function ParseFixedHeader(fixed: seq<Byte>): Option<Header>
    requires |fixed| == HEADER_LEN
  {
    if Le(fixed[0..4]) != MAGIC then None
    else if Le(fixed[8..12]) > MAX_SCREENSHOT then None
    else Some(Header(Le(fixed[4..6]), fixed[6], fixed[7] as nat, Le(fixed[8..12])))
  }

  function FixedHeader(kind: Byte, labelLen: nat, shotLen: nat): (r: seq<Byte>)
    ensures |r| == HEADER_LEN
  {
    LeBytes(MAGIC, 4) + LeBytes(VERSION, 2) + [kind] + LeBytes(labelLen, 1) + LeBytes(shotLen, 4)
  }

  /** Header, name, screenshot and payload, as written by both encode and relabel. */
  function Assemble(kind: Byte, name: seq<Byte>, shot: seq<Byte>, payload: seq<Byte>): seq<Byte> {
    FixedHeader(kind, |name|, |shot|) + name + shot + payload
  }

  datatype Codec = Codec(deflate: seq<Byte> -> seq<Byte>, inflate: seq<Byte> -> Option<seq<Byte>>)

  /** Inflate undoes deflate, up to the limit it is given. */
  ghost predicate Undoes(z: Codec) {
    forall s :: z.inflate(z.deflate(s)) == if |s| <= DECOMPRESS_LIMIT then Some(s) else None
  }

  function Encode(z: Codec, kind: Byte, name: seq<Byte>, shot: seq<Byte>, state: seq<Byte>): seq<Byte> {
    Assemble(kind, name, shot, z.deflate(state))
  }

  function Decode(z: Codec, data: seq<Byte>, expected: Byte): Option<seq<Byte>> {
    if |data| < HEADER_LEN then None
    else
      match ParseFixedHeader(data[..HEADER_LEN])
      case None => None
      case Some(h) =>
        if h.version != VERSION || h.kind != expected then None
        else if HEADER_LEN + h.labelLen + h.shotLen > |data| then None
        else z.inflate(data[HEADER_LEN + h.labelLen + h.shotLen..])
  }

  datatype Peek = Ok(name: seq<Byte>, shot: seq<Byte>) | VersionMismatch(version: nat) | Unreadable

  /** The header-only read of the list. */
  function PeekAt(data: seq<Byte>): Peek {
    if |data| < HEADER_LEN then Unreadable
    else
      match ParseFixedHeader(data[..HEADER_LEN])
      case None => Unreadable
      case Some(h) =>
        if h.version != VERSION then VersionMismatch(h.version)
        else if HEADER_LEN + h.labelLen + h.shotLen > |data| then Unreadable
        else Ok(data[HEADER_LEN..HEADER_LEN + h.labelLen], data[HEADER_LEN + h.labelLen..HEADER_LEN + h.labelLen + h.shotLen])
  }

  /** The rewritten file, or nothing for a file that is not a savestate of this version. */
  function Relabel(data: seq<Byte>, name: seq<Byte>): Option<seq<Byte>>
    requires |name| <= MAX_LABEL_LEN
  {
    if |data| < HEADER_LEN then None
    else
      match ParseFixedHeader(data[..HEADER_LEN])
      case None => None
      case Some(h) =>
        var rest := HEADER_LEN + h.labelLen;
        if h.version != VERSION || rest + h.shotLen > |data| then None
        else Some(Assemble(h.kind, name, data[rest..rest + h.shotLen], data[rest + h.shotLen..]))
  }

  // ---------------------------------------------------------------------------------------------
  // Reading back what was assembled

  lemma HeaderRoundTrip(kind: Byte, labelLen: nat, shotLen: nat)
    requires labelLen < 0x100 && shotLen < 0x1_0000_0000
    ensures ParseFixedHeader(FixedHeader(kind, labelLen, shotLen)) ==
            if shotLen <= MAX_SCREENSHOT then Some(Header(VERSION, kind, labelLen, shotLen)) else None
  {
    var f := FixedHeader(kind, labelLen, shotLen);
    assert f[0..4] == LeBytes(MAGIC, 4) && f[4..6] == LeBytes(VERSION, 2) && f[8..12] == LeBytes(shotLen, 4);
    assert f[7..8] == LeBytes(labelLen, 1) && f[6] == kind;
    Widths();
    LeRoundTrip(MAGIC, 4);
    LeRoundTrip(VERSION, 2);
    LeRoundTrip(shotLen, 4);
    OneByte(labelLen);
    assert f[7] == f[7..8][0];
  }

  lemma OneByte(n: nat)
    requires n < 0x100
    ensures LeBytes(n, 1) == [n as Byte]
  {
    assert LeBytes(n / 256, 0) == [];
  }

  /** The three parts behind the header are where the lengths say. */
  lemma AssembledParts(kind: Byte, name: seq<Byte>, shot: seq<Byte>, payload: seq<Byte>)
    ensures var d, rest := Assemble(kind, name, shot, payload), HEADER_LEN + |name|;
            && |d| == rest + |shot| + |payload|
            && d[..HEADER_LEN] == FixedHeader(kind, |name|, |shot|) && d[HEADER_LEN..rest] == name
            && d[rest..rest + |shot|] == shot && d[rest + |shot|..] == payload
  {
  }

  /** Encoded for one kind, with everything within its limit: that and only that decodes, to the same state. */
  lemma DecodeEncodeIff(z: Codec, kind: Byte, name: seq<Byte>, shot: seq<Byte>, state: seq<Byte>, expected: Byte)
    requires Undoes(z) && |name| < 0x100 && |shot| < 0x1_0000_0000
    ensures Decode(z, Encode(z, kind, name, shot, state), expected) ==
            if kind == expected && |shot| <= MAX_SCREENSHOT && |state| <= DECOMPRESS_LIMIT then Some(state) else None
  {
    AssembledParts(kind, name, shot, z.deflate(state));
    HeaderRoundTrip(kind, |name|, |shot|);
  }

  /** A state with an in-limit screenshot is listed with its own name and screenshot. */
  lemma PeekAssembled(kind: Byte, name: seq<Byte>, shot: seq<Byte>, payload: seq<Byte>)
    requires |name| < 0x100 && |shot| <= MAX_SCREENSHOT
    ensures PeekAt(Assemble(kind, name, shot, payload)) == Ok(name, shot)
  {
    AssembledParts(kind, name, shot, payload);
    HeaderRoundTrip(kind, |name|, |shot|);
  }

  /** Relabelling accepts exactly the files the list can read. */
  lemma RelabelOkIff(data: seq<Byte>, name: seq<Byte>)
    requires |name| <= MAX_LABEL_LEN
    ensures Relabel(data, name).Some? <==> PeekAt(data).Ok?
  {
  }

  /** The new name, the old screenshot, and the same state under every decode. */
  lemma RelabelPreserves(z: Codec, data: seq<Byte>, name: seq<Byte>, expected: Byte)
    requires |name| <= MAX_LABEL_LEN && PeekAt(data).Ok?
    ensures Relabel(data, name).Some?
    ensures PeekAt(Relabel(data, name).value) == Ok(name, PeekAt(data).shot)
    ensures Decode(z, Relabel(data, name).value, expected) == Decode(z, data, expected)
  {
    var h := ParseFixedHeader(data[..HEADER_LEN]).value;
    var rest := HEADER_LEN + h.labelLen;
    var shot, payload := data[rest..rest + h.shotLen], data[rest + h.shotLen..];
    AssembledParts(h.kind, name, shot, payload);
    HeaderRoundTrip(h.kind, |name|, |shot|);
  }

  /** Relabelling twice is relabelling once. */
  lemma RelabelTwice(data: seq<Byte>, first: seq<Byte>, second: seq<Byte>)
    requires |first| <= MAX_LABEL_LEN && |second| <= MAX_LABEL_LEN && PeekAt(data).Ok?
    ensures Relabel(data, first).Some? && Relabel(Relabel(data, first).value, second) == Relabel(data, second)
  {
    var h := ParseFixedHeader(data[..HEADER_LEN]).value;
    var rest := HEADER_LEN + h.labelLen;
    var shot, payload := data[rest..rest + h.shotLen], data[rest + h.shotLen..];
    AssembledParts(h.kind, first, shot, payload);
    HeaderRoundTrip(h.kind, |first|, |shot|);
  }
}
