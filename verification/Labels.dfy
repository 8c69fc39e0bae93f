/**
 The label of a renamed state: trimmed text, cut on a character boundary.

 `TruncateLabel` returns the UTF-8 encoding of the longest prefix of the trimmed label that fits, so the label stays
 well-formed whatever characters the cut falls between; `TrimIs` says what trimming leaves.
 */
module Labels {
  import opened Bytes
  import opened StateFile

  type CodePoint = c: nat | c < 0x11_0000 witness 0

  // ---------------------------------------------------------------------------------------------
  // UTF-8

  /** A byte that does not continue a character. */
  predicate Leads(b: Byte) { b < 0x80 || b >= 0xC0 }

  /** Byte `k` of a continuation. */
  function Continuation(bits: nat): (b: Byte)
    ensures !Leads(b)
  {
    (0x80 + bits % 64) as Byte
  }

  function Utf8(c: CodePoint): (r: seq<Byte>)
    ensures 1 <= |r| <= 4 && Leads(r[0]) && forall i :: 1 <= i < |r| ==> !Leads(r[i])
  {
    if c < 0x80 then [c as Byte]
    else if c < 0x800 then [(0xC0 + c / 64) as Byte, Continuation(c)]
    else if c < 0x1_0000 then [(0xE0 + c / 4096) as Byte, Continuation(c / 64), Continuation(c)]
    else [(0xF0 + c / 262144) as Byte, Continuation(c / 4096), Continuation(c / 64), Continuation(c)]
  }

  function Encoded(text: seq<CodePoint>): seq<Byte>
    decreases |text|
  {
    if text == [] then [] else Utf8(text[0]) + Encoded(text[1..])
  }

  predicate IsBoundary(name: seq<Byte>, i: nat) { i == 0 || i >= |name| || Leads(name[i]) }

  /** `floor_char_boundary`. */
  function FloorBoundary(name: seq<Byte>, i: nat): (r: nat)
    ensures r <= i && IsBoundary(name, r) && forall j :: r < j <= i ==> !IsBoundary(name, j)
    decreases i
  {
    if IsBoundary(name, i) then i else FloorBoundary(name, i - 1)
  }

  /** Where a prefix of the text ends there is a boundary... */
  lemma {:induction false} PrefixEnds(text: seq<CodePoint>, k: nat)
    requires k <= |text|
    ensures |Encoded(text[..k])| <= |Encoded(text)| && IsBoundary(Encoded(text), |Encoded(text[..k])|)
    ensures Encoded(text)[..|Encoded(text[..k])|] == Encoded(text[..k])
    decreases |text|
  {
    if k > 0 {
      assert text[..k][1..] == text[1..][..k - 1];
      PrefixEnds(text[1..], k - 1);
    }
  }

  /** ... and every boundary is where one ends. */
  lemma {:induction false} BoundaryEnds(text: seq<CodePoint>, i: nat) returns (k: nat)
    requires i <= |Encoded(text)| && IsBoundary(Encoded(text), i)
    ensures k <= |text| && |Encoded(text[..k])| == i
    decreases |text|
  {
    if i == 0 {
      k := 0;
    } else {
      var first := Utf8(text[0]);
      assert forall j :: 0 <= j < |first| ==> Encoded(text)[j] == first[j];
      var m := BoundaryEnds(text[1..], i - |first|);
      k := m + 1;
      assert text[..k][1..] == text[1..][..m];
    }
  }

  lemma {:induction false} PrefixesGrow(text: seq<CodePoint>, k: nat)
    requires k < |text|
    ensures |Encoded(text[..k])| < |Encoded(text[..k + 1])|
    decreases |text|
  {
    if k > 0 {
      assert text[..k][1..] == text[1..][..k - 1] && text[..k + 1][1..] == text[1..][..k];
      PrefixesGrow(text[1..], k - 1);
    }
  }

  // ---------------------------------------------------------------------------------------------
  // Trimming

  /** The White_Space property of the Unicode Standard. */
  predicate White(c: CodePoint) {
    || 0x9 <= c <= 0xD || c == 0x20 || c == 0x85 || c == 0xA0 || c == 0x1680 || 0x2000 <= c <= 0x200A
    || c == 0x2028 || c == 0x2029 || c == 0x202F || c == 0x205F || c == 0x3000
  }

  function TrimStart(text: seq<CodePoint>): seq<CodePoint>
    decreases |text|
  {
    if text != [] && White(text[0]) then TrimStart(text[1..]) else text
  }

  function TrimEnd(text: seq<CodePoint>): seq<CodePoint>
    decreases |text|
  {
    if text != [] && White(text[|text| - 1]) then TrimEnd(text[..|text| - 1]) else text
  }

  function Trim(text: seq<CodePoint>): seq<CodePoint> { TrimEnd(TrimStart(text)) }

  lemma {:induction false} TrimStartIs(text: seq<CodePoint>) returns (lo: nat)
    ensures lo <= |text| && TrimStart(text) == text[lo..] && (forall i :: 0 <= i < lo ==> White(text[i]))
    ensures lo < |text| ==> !White(text[lo])
    decreases |text|
  {
    if text != [] && White(text[0]) {
      var m := TrimStartIs(text[1..]);
      lo := m + 1;
      assert text[1..][m..] == text[lo..];
    } else {
      lo := 0;
    }
  }

  lemma {:induction false} TrimEndIs(text: seq<CodePoint>) returns (hi: nat)
    ensures hi <= |text| && TrimEnd(text) == text[..hi] && (forall i :: hi <= i < |text| ==> White(text[i]))
    ensures hi > 0 ==> !White(text[hi - 1])
    decreases |text|
  {
    var n := |text|;
    if text != [] && White(text[n - 1]) {
      hi := TrimEndIs(text[..n - 1]);
      assert text[..n - 1][..hi] == text[..hi];
    } else {
      hi := n;
    }
  }

  /** Trimming drops white space at both ends, all of it and nothing else. */
  lemma TrimIs(text: seq<CodePoint>) returns (lo: nat, hi: nat)
    ensures lo <= hi <= |text| && Trim(text) == text[lo..hi]
    ensures forall i :: 0 <= i < lo || hi <= i < |text| ==> White(text[i])
    ensures lo < hi ==> !White(text[lo]) && !White(text[hi - 1])
  {
    lo := TrimStartIs(text);
    var m := TrimEndIs(text[lo..]);
    hi := lo + m;
    assert text[lo..][..m] == text[lo..hi];
    forall i | 0 <= i < lo || hi <= i < |text| ensures White(text[i]) {
      if hi <= i { assert text[i] == text[lo..][i - lo]; }
    }
  }

  // ---------------------------------------------------------------------------------------------
  // The label

  /** `name` is the text up to character `n`, the last one that fits. */
  ghost predicate LongestFit(text: seq<CodePoint>, n: nat, name: seq<Byte>) {
    && n <= |text| && name == Encoded(text[..n]) && |name| <= MAX_LABEL_LEN
    && (n < |text| ==> |Encoded(text[..n + 1])| > MAX_LABEL_LEN)
  }

  lemma CutFits(text: seq<CodePoint>, cut: nat) returns (n: nat)
    requires |Encoded(text)| > MAX_LABEL_LEN && cut == FloorBoundary(Encoded(text), MAX_LABEL_LEN)
    ensures LongestFit(text, n, Encoded(text)[..cut])
  {
    n := BoundaryEnds(text, cut);
    PrefixEnds(text, n);
    if n < |text| {
      PrefixEnds(text, n + 1);
      PrefixesGrow(text, n);
    } else {
      assert text[..n] == text;
    }
  }

  /** The trimmed label, cut on character boundaries until it fits. */
  method TruncateLabel(text: seq<CodePoint>) returns (name: seq<Byte>)
    ensures |name| <= MAX_LABEL_LEN && exists n :: LongestFit(Trim(text), n, name)
  {
    var trimmed := Trim(text);
    name := Encoded(trimmed);
    assert trimmed[..|trimmed|] == trimmed;
    while |name| > MAX_LABEL_LEN
      invariant name == Encoded(trimmed) || exists n :: LongestFit(trimmed, n, name)
      decreases |name|
    {
      var cut := FloorBoundary(name, MAX_LABEL_LEN);
      ghost var n := CutFits(trimmed, cut);
      name := name[..cut];
    }
    if name == Encoded(trimmed) { assert LongestFit(trimmed, |trimmed|, name); }
  }
}
