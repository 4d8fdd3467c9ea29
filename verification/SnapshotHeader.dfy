/** The snapshot header: where its parser looks, and the layout that a successful parse stands for. */
module SnapshotHeader {
  import opened Collections
  import opened Compatibility

  /** Bytes, least significant first where they spell a number. */
  type Bytes = seq<nat>

  const MAGIC: Bytes := [0xf5, 0xf5, 0xdc, 0xdc]
  const FEATURES_LIMIT: nat := 1024

  predicate AreBytes(s: Bytes) {
    forall i :: 0 <= i < |s| ==> s[i] < 256
  }

  // ---------- Little-endian numbers ----------

  function Power256(n: nat): nat {
    if n == 0 then 1 else 256 * Power256(n - 1)
  }

  function Decode(s: Bytes): nat {
    if s == [] then 0 else s[0] + 256 * Decode(s[1..])
  }

  function Encode(v: nat, n: nat): (s: Bytes)
    ensures |s| == n && AreBytes(s)
  {
    if n == 0 then [] else [v % 256] + Encode(v / 256, n - 1)
  }

  lemma {:induction false} DecodingUndoesEncoding(v: nat, n: nat)
    requires v < Power256(n)
    ensures Decode(Encode(v, n)) == v
  {
    if n > 0 {
      DecodingUndoesEncoding(v / 256, n - 1);
      assert Encode(v, n)[1..] == Encode(v / 256, n - 1);
    }
  }

  lemma {:induction false} EncodingUndoesDecoding(s: Bytes)
    requires AreBytes(s)
    ensures Decode(s) < Power256(|s|) && Encode(Decode(s), |s|) == s
  {
    if s != [] {
      EncodingUndoesDecoding(s[1..]);
      assert Decode(s) % 256 == s[0] && Decode(s) / 256 == Decode(s[1..]);
    }
  }

  const HALF: int := 0x8000_0000_0000_0000

  /** `i64::from_le_bytes`. */
  function SignedOf(s: Bytes): int {
    var u := Decode(s);
    if u < HALF then u else u - 2 * HALF
  }

  function BytesOf(v: int): Bytes
    requires -HALF <= v < HALF
  {
    Encode(if v >= 0 then v else v + 2 * HALF, 8)
  }

  lemma EightBytes()
    ensures Power256(8) == 2 * HALF
  {
    assert Power256(2) == 0x1_0000;
    assert Power256(4) == 0x1_0000_0000;
    assert Power256(6) == 0x1_0000_0000_0000;
  }

  lemma SignedRoundTrip(v: int)
    requires -HALF <= v < HALF
    ensures SignedOf(BytesOf(v)) == v
  {
    EightBytes();
    DecodingUndoesEncoding(if v >= 0 then v else v + 2 * HALF, 8);
  }

  lemma SignedBytesRoundTrip(s: Bytes)
    requires |s| == 8 && AreBytes(s)
    ensures -HALF <= SignedOf(s) < HALF && BytesOf(SignedOf(s)) == s
  {
    EightBytes();
    EncodingUndoesDecoding(s);
  }

  // ---------- The parser ----------

  datatype Header = Header(hash: Bytes, kind: SnapshotKind, features: Bytes)

  function KindOf(value: int): SnapshotKind {
    if value == 0 then Full
    else if value == 1 then FullCore
    else if value == 2 then FullJit
    else if value == 3 then FullAot
    else Unrecognized
  }

  /** The kinds by their codes, every other code being none of them. */
  lemma KindsByCode(value: int)
    ensures KindOf(value) == Full <==> value == 0
    ensures KindOf(value) == FullCore <==> value == 1
    ensures KindOf(value) == FullJit <==> value == 2
    ensures KindOf(value) == FullAot <==> value == 3
    ensures KindOf(value) == Unrecognized <==> value < 0 || value > 3
  {
  }

  predicate IsHexDigit(b: nat) {
    0x30 <= b <= 0x39 || 0x41 <= b <= 0x46 || 0x61 <= b <= 0x66
  }

  predicate IsPrintable(b: nat) {
    0x20 <= b <= 0x7e
  }

  predicate AllHex(s: Bytes) {
    forall i :: 0 <= i < |s| ==> IsHexDigit(s[i])
  }

  predicate AllPrintable(s: Bytes) {
    forall i :: 0 <= i < |s| ==> IsPrintable(s[i])
  }

  function LowerByte(b: nat): nat {
    if 0x41 <= b <= 0x5a then b + 0x20 else b
  }

  function LowerBytes(s: Bytes): (r: Bytes)
    ensures |r| == |s|
  {
    seq(|s|, i requires 0 <= i < |s| => LowerByte(s[i]))
  }

  /** What a hexadecimal digit is worth. */
  function DigitValue(b: nat): nat
    requires IsHexDigit(b)
  {
    if b <= 0x39 then b - 0x30 else if b <= 0x46 then b - 0x41 + 10 else b - 0x61 + 10
  }

  /** A lowered hash has the same digits, none of them in upper case. */
  lemma LoweredHashesKeepTheirDigits(s: Bytes)
    requires AllHex(s)
    ensures AllHex(LowerBytes(s))
    ensures forall i :: 0 <= i < |s| ==>
              DigitValue(LowerBytes(s)[i]) == DigitValue(s[i]) && !(0x41 <= LowerBytes(s)[i] <= 0x46)
  {
  }

  /** How far the first occurrence of the magic is. */
  function FindMagic(s: Bytes): (r: Option<nat>)
    ensures r.Some? ==> r.value + 4 <= |s|
  {
    if |s| < 4 then None
    else if MAGIC <= s then Some(0)
    else
      var rest := FindMagic(s[1..]);
      if rest.Some? then Some(rest.value + 1) else None
  }

  /** How far the first NUL is. */
  function FindNul(s: Bytes): (r: Option<nat>)
    ensures r.Some? ==> r.value < |s| && s[r.value] == 0 && forall i :: 0 <= i < r.value ==> s[i] != 0
    ensures r.None? ==> forall i :: 0 <= i < |s| ==> s[i] != 0
  {
    if s == [] then None
    else if s[0] == 0 then Some(0)
    else
      var rest := FindNul(s[1..]);
      if rest.Some? then Some(rest.value + 1) else None
  }

  /** The part of the parser behind the magic: `s` starts with it. */
  function ParseAt(s: Bytes): Option<Header> {
    if |s| < 12 then None
    else
      var length := SignedOf(s[4..12]);
      if length <= 0 || length > |s| then None
      else if |s| < 20 then None
      else
        var kind := KindOf(SignedOf(s[12..20]));
        if |s| < 52 then None
        else
          var hash := s[20..52];
          if !AllHex(hash) then None
          else
            var limit := if 52 + FEATURES_LIMIT < |s| then 52 + FEATURES_LIMIT else |s|;
            match FindNul(s[52..limit])
            case None => None
            case Some(end) =>
              var features := s[52..52 + end];
              if !AllPrintable(features) then None
              else Some(Header(LowerBytes(hash), kind, features))
  }

  function ParseSnapshotHeader(s: Bytes): Option<Header> {
    match FindMagic(s)
    case None => None
    case Some(start) => ParseAt(s[start..])
  }

  // ---------- The layout ----------

  datatype Layout = Layout(length: int, kind: int, hash: Bytes, features: Bytes, rest: Bytes)

  predicate WellFormed(p: Layout) {
    && 0 < p.length < HALF && -HALF <= p.kind < HALF
    && |p.hash| == 32 && AllHex(p.hash)
    && |p.features| < FEATURES_LIMIT && AllPrintable(p.features)
    && p.length <= 53 + |p.features| + |p.rest|
  }

  /** The bytes of a header, from its magic on. */
  function Write(p: Layout): Bytes
    requires WellFormed(p)
  {
    MAGIC + BytesOf(p.length) + BytesOf(p.kind) + p.hash + (p.features + [0] + p.rest)
  }

  lemma WrittenFields(p: Layout)
    requires WellFormed(p)
    ensures var s := Write(p);
            && |s| == 53 + |p.features| + |p.rest| && s[..4] == MAGIC && s[4..12] == BytesOf(p.length) &&
              s[12..20] == BytesOf(p.kind)
            && s[20..52] == p.hash && s[52..] == p.features + [0] + p.rest
  {
  }

  lemma FeaturesEndAtTheNul(features: Bytes, rest: Bytes, limit: nat)
    requires forall i :: 0 <= i < |features| ==> features[i] != 0
    requires |features| < limit <= |features| + 1 + |rest|
    ensures FindNul((features + [0] + rest)[..limit]) == Some(|features|)
  {
    var s := (features + [0] + rest)[..limit];
    assert s[|features|] == 0;
    var r := FindNul(s);
    assert r.Some? && r.value <= |features|;
    assert forall i :: 0 <= i < |features| ==> s[i] == features[i];
  }

  /** What is written is read back. */
  lemma WrittenHeadersParse(p: Layout)
    requires WellFormed(p)
    ensures ParseAt(Write(p)) == Some(Header(LowerBytes(p.hash), KindOf(p.kind), p.features))
  {
    var s := Write(p);
    WrittenFields(p);
    SignedRoundTrip(p.length);
    SignedRoundTrip(p.kind);
    var limit := if 52 + FEATURES_LIMIT < |s| then 52 + FEATURES_LIMIT else |s|;
    assert s[52..limit] == s[52..][..limit - 52];
    FeaturesEndAtTheNul(p.features, p.rest, limit - 52);
    assert s[52..52 + |p.features|] == s[52..][..|p.features|] == p.features;
  }

  /** Behind any padding that makes no earlier magic. */
  lemma HeaderRoundTrip(padding: Bytes, p: Layout)
    requires WellFormed(p) && FindMagic(padding + Write(p)) == Some(|padding|)
    ensures ParseSnapshotHeader(padding + Write(p)) == Some(Header(LowerBytes(p.hash), KindOf(p.kind), p.features))
  {
    assert (padding + Write(p))[|padding|..] == Write(p);
    WrittenHeadersParse(p);
  }

  /** The layout a parsed header has. */
  function LayoutOf(s: Bytes, end: nat): Layout
    requires 52 + end < |s|
  {
    Layout(SignedOf(s[4..12]), SignedOf(s[12..20]), s[20..52], s[52..52 + end], s[53 + end..])
  }

  lemma PiecesJoin(s: Bytes, end: nat)
    requires 52 + end < |s| && s[52 + end] == 0 && MAGIC <= s
    ensures s == MAGIC + s[4..12] + s[12..20] + s[20..52] + (s[52..52 + end] + [0] + s[53 + end..])
  {
    assert s == s[..4] + s[4..12] + s[12..20] + s[20..52] + s[52..];
    assert s[52..] == s[52..52 + end] + [s[52 + end]] + s[53 + end..];
  }

  /** Only what was laid out so parses: a successful parse is of a written header. */
  lemma ParsedHeadersWereWritten(s: Bytes) returns (p: Layout)
    requires AreBytes(s) && MAGIC <= s && ParseAt(s).Some? && |s| < HALF
    ensures WellFormed(p) && s == Write(p)
  {
    var limit := if 52 + FEATURES_LIMIT < |s| then 52 + FEATURES_LIMIT else |s|;
    var end := FindNul(s[52..limit]).value;
    assert s[52 + end] == s[52..limit][end];
    p := LayoutOf(s, end);
    SignedBytesRoundTrip(s[4..12]);
    SignedBytesRoundTrip(s[12..20]);
    PiecesJoin(s, end);
  }

  lemma {:induction false} MagicIsThere(s: Bytes)
    requires FindMagic(s).Some?
    ensures MAGIC <= s[FindMagic(s).value..]
  {
    if !(MAGIC <= s) {
      MagicIsThere(s[1..]);
      assert s[1..][FindMagic(s[1..]).value..] == s[FindMagic(s).value..];
    }
  }

  /** The magic that is found is the first there is. */
  lemma {:induction false} MagicIsTheFirst(s: Bytes, n: nat)
    requires n <= |s| && MAGIC <= s[n..]
    ensures FindMagic(s).Some? && FindMagic(s).value <= n
    decreases |s|
  {
    if n > 0 && !(MAGIC <= s) {
      assert s[1..][n - 1..] == s[n..];
      MagicIsTheFirst(s[1..], n - 1);
    } else {
      assert s[0..] == s;
    }
  }

  /** A parse succeeds exactly on a written header at the first magic. */
  lemma ParsesExactlyWrittenHeaders(s: Bytes)
    requires AreBytes(s) && |s| < HALF
    ensures ParseSnapshotHeader(s).Some? <==>
              exists n: nat, p :: n <= |s| && FindMagic(s) == Some(n) && WellFormed(p) && s[n..] == Write(p)
  {
    if ParseSnapshotHeader(s).Some? {
      var n := FindMagic(s).value;
      MagicIsThere(s);
      var p := ParsedHeadersWereWritten(s[n..]);
    }
    if n: nat, p :| n <= |s| && FindMagic(s) == Some(n) && WellFormed(p) && s[n..] == Write(p) {
      WrittenHeadersParse(p);
    }
  }
}
