// The SSH wire encodings of section 5 of RFC 4251 (uint32, uint64,
// string, mpint) as total encoders and decoders over byte sequences.
// The buffer primitives of the repository (buffer.c, bufbn.c, bufec.c)
// are not part of this model; this module states what they do.
module Wire {
  import opened Wrappers

  type byte = x: int | 0 <= x < 256

  const TWO32: nat := 0x1_0000_0000
  const TWO64: nat := 0x1_0000_0000_0000_0000

  // ---------------------------------------------------------------
  // C strings: text without an embedded NUL, one byte per character.

  predicate NoNul(b: seq<byte>) {
    forall i :: 0 <= i < |b| ==> b[i] != 0
  }

  predicate IsCStr(s: string) {
    forall i :: 0 <= i < |s| ==> 0 < s[i] as int < 256
  }

  type CStr = s: string | IsCStr(s)

  function ToBytes(s: CStr): (r: seq<byte>)
    ensures |r| == |s| && NoNul(r)
    ensures forall i :: 0 <= i < |s| ==> r[i] == s[i] as int
  {
    seq(|s|, i requires 0 <= i < |s| => s[i] as int)
  }

  function FromBytes(b: seq<byte>): (r: CStr)
    requires NoNul(b)
    ensures |r| == |b|
    ensures forall i :: 0 <= i < |b| ==> r[i] as int == b[i]
  {
    seq(|b|, i requires 0 <= i < |b| => b[i] as char)
  }

  lemma CStrBytesRoundTrip(s: CStr)
    ensures FromBytes(ToBytes(s)) == s
  {
  }

  lemma BytesCStrRoundTrip(b: seq<byte>)
    requires NoNul(b)
    ensures ToBytes(FromBytes(b)) == b
  {
  }

  lemma ToBytesInjective(s: CStr, t: CStr)
    requires ToBytes(s) == ToBytes(t)
    ensures s == t
  {
    CStrBytesRoundTrip(s);
    CStrBytesRoundTrip(t);
  }

  /** What strcmp and the other C string functions see of a byte string
      read with buffer_get_string: the bytes before the first NUL. */
  function CPrefix(b: seq<byte>): (r: CStr)
    ensures |r| <= |b|
  {
    if b == [] || b[0] == 0 then [] else [b[0] as char] + CPrefix(b[1..])
  }

  lemma {:induction false} CPrefixOfCStr(s: CStr)
    ensures CPrefix(ToBytes(s)) == s
  {
    if s != [] {
      assert ToBytes(s)[1..] == ToBytes(s[1..]);
      CPrefixOfCStr(s[1..]);
    }
  }

  // ---------------------------------------------------------------
  // Big-endian integers.

  function Pow256(k: nat): (r: nat)
    ensures r > 0
  {
    if k == 0 then 1 else 256 * Pow256(k - 1)
  }

  /** The value of a big-endian byte string (BN_bin2bn). */
  function FromBE(b: seq<byte>): nat {
    if b == [] then 0 else FromBE(b[..|b| - 1]) * 256 + b[|b| - 1]
  }

  /** The low `width` bytes of `n`, most significant first. */
  function BEFixed(n: nat, width: nat): (r: seq<byte>)
    ensures |r| == width
  {
    if width == 0 then [] else BEFixed(n / 256, width - 1) + [n % 256]
  }

  lemma {:induction false} FromBEBound(b: seq<byte>)
    ensures FromBE(b) < Pow256(|b|)
  {
    if b != [] {
      FromBEBound(b[..|b| - 1]);
    }
  }

  lemma {:induction false} FromBEFixed(n: nat, width: nat)
    requires n < Pow256(width)
    ensures FromBE(BEFixed(n, width)) == n
  {
    if width > 0 {
      var r := BEFixed(n, width);
      assert r[..width - 1] == BEFixed(n / 256, width - 1);
      FromBEFixed(n / 256, width - 1);
    }
  }

  lemma {:induction false} BEFixedFromBE(b: seq<byte>)
    ensures BEFixed(FromBE(b), |b|) == b
  {
    if b != [] {
      var init := b[..|b| - 1];
      BEFixedFromBE(init);
      assert FromBE(b) / 256 == FromBE(init);
      assert FromBE(b) % 256 == b[|b| - 1];
      assert b == init + [b[|b| - 1]];
    }
  }

  lemma {:induction false} FromBELeadingZero(b: seq<byte>)
    ensures FromBE([0] + b) == FromBE(b)
  {
    if b != [] {
      var init := b[..|b| - 1];
      assert ([0] + b)[..|b|] == [0] + init;
      FromBELeadingZero(init);
    }
  }

  /** The shortest big-endian encoding of `n` (BN_bn2bin): empty for zero. */
  function MinBE(n: nat): seq<byte>
    decreases n
  {
    if n == 0 then [] else MinBE(n / 256) + [n % 256]
  }

  lemma {:induction false} MinBEValue(n: nat)
    ensures FromBE(MinBE(n)) == n
    ensures (MinBE(n) == []) == (n == 0)
    ensures n > 0 ==> MinBE(n)[0] != 0
    decreases n
  {
    if n > 0 {
      var m := MinBE(n);
      assert m[..|m| - 1] == MinBE(n / 256);
      MinBEValue(n / 256);
    }
  }

  /** BN_num_bits: the number of significant bits of `n`. */
  function Bits(n: nat): nat {
    if n == 0 then 0 else 1 + Bits(n / 2)
  }

  function Pow2(k: nat): (r: nat)
    ensures r > 0
  {
    if k == 0 then 1 else 2 * Pow2(k - 1)
  }

  lemma {:induction false} BitsBounds(n: nat)
    ensures n < Pow2(Bits(n))
    ensures n > 0 ==> Pow2(Bits(n) - 1) <= n
  {
    if n > 0 {
      BitsBounds(n / 2);
    }
  }

  // ---------------------------------------------------------------
  // Encoders (buffer_put_*). Lengths are written as a u_int, so a
  // length of 2^32 or more would be truncated, as BEFixed does.

  function EncU32(x: nat): seq<byte> {
    BEFixed(x, 4)
  }

  function EncU64(x: nat): seq<byte> {
    BEFixed(x, 8)
  }

  function EncString(s: seq<byte>): seq<byte> {
    EncU32(|s|) + s
  }

  function EncCString(s: CStr): seq<byte> {
    EncString(ToBytes(s))
  }

  /** The mpint body: minimal magnitude, with a zero byte prepended when
      the high bit is set, so that the value reads as non-negative. */
  function MpintBody(n: nat): (r: seq<byte>)
    ensures FromBE(r) == n
    ensures r == [] || r[0] < 0x80
    ensures (r == []) == (n == 0)
  {
    MinBEValue(n);
    var m := MinBE(n);
    if m != [] && m[0] >= 0x80 then
      FromBELeadingZero(m);
      [0] + m
    else
      m
  }

  function EncMpint(n: nat): seq<byte> {
    EncString(MpintBody(n))
  }

  // ---------------------------------------------------------------
  // Decoders (buffer_get_*_ret): a value and the unread rest, or None.

  datatype Read<T> = Read(value: T, rest: seq<byte>)

  /** The value a read produced, dropping the unread rest. */
  function ValueOf<T>(r: Option<Read<T>>): Option<T> {
    if r.Some? then Some(r.value.value) else None
  }

  /** What is left after a read; a failed read leaves `b` as it was. */
  function RestAfter<T>(r: Option<Read<T>>, b: seq<byte>): seq<byte> {
    if r.Some? then r.value.rest else b
  }

  function ReadU32(b: seq<byte>): (r: Option<Read<nat>>)
    ensures r.Some? <==> |b| >= 4
    ensures r.Some? ==> r.value.value < TWO32 && b == EncU32(r.value.value) + r.value.rest
  {
    if |b| < 4 then None
    else
      FromBEBound(b[..4]);
      BEFixedFromBE(b[..4]);
      assert b == b[..4] + b[4..];
      Some(Read(FromBE(b[..4]), b[4..]))
  }

  function ReadU64(b: seq<byte>): (r: Option<Read<nat>>)
    ensures r.Some? <==> |b| >= 8
    ensures r.Some? ==> r.value.value < TWO64 && b == EncU64(r.value.value) + r.value.rest
  {
    if |b| < 8 then None
    else
      FromBEBound(b[..8]);
      BEFixedFromBE(b[..8]);
      assert b == b[..8] + b[8..];
      Some(Read(FromBE(b[..8]), b[8..]))
  }

  function ReadString(b: seq<byte>): (r: Option<Read<seq<byte>>>)
    ensures r.Some? <==> |b| >= 4 && FromBE(b[..4]) <= |b| - 4
    ensures r.Some? ==> |r.value.value| < TWO32 && b == EncString(r.value.value) + r.value.rest
  {
    var len :- ReadU32(b);
    if len.value > |len.rest| then None
    else
      var s := len.rest[..len.value];
      assert len.rest == s + len.rest[len.value..];
      Some(Read(s, len.rest[len.value..]))
  }

  /** buffer_get_cstring_ret: a string without embedded NUL. */
  function ReadCString(b: seq<byte>): (r: Option<Read<CStr>>)
    ensures r.Some? <==> ReadString(b).Some? && NoNul(ReadString(b).value.value)
    ensures r.Some? ==> |r.value.value| < TWO32 && b == EncCString(r.value.value) + r.value.rest
  {
    var s :- ReadString(b);
    if NoNul(s.value) then
      BytesCStrRoundTrip(s.value);
      Some(Read(FromBytes(s.value), s.rest))
    else
      None
  }

  /** buffer_get_bignum2_ret: a string whose high bit is clear (a
      negative mpint is refused), read as a big-endian magnitude. */
  function ReadMpint(b: seq<byte>): (r: Option<Read<nat>>)
    ensures r.Some? <==>
      (ReadString(b).Some? && (ReadString(b).value.value == [] || ReadString(b).value.value[0] < 0x80))
    ensures r.Some? ==> r.value.rest == ReadString(b).value.rest
  {
    var s :- ReadString(b);
    if s.value != [] && s.value[0] >= 0x80 then None
    else Some(Read(FromBE(s.value), s.rest))
  }

  /** buffer_get_ecpoint_ret: a non-empty string in uncompressed form
      (leading octet 0x04, section 2.3.3 of SEC 1). Whether the octets
      name a point on the curve is left to the caller's validity check. */
  function ReadEcPoint(b: seq<byte>): (r: Option<Read<seq<byte>>>)
    ensures r.Some? <==> ReadString(b).Some? && IsUncompressedPoint(ReadString(b).value.value)
    ensures r.Some? ==> r.value == ReadString(b).value
  {
    var s :- ReadString(b);
    if IsUncompressedPoint(s.value) then Some(s) else None
  }

  predicate IsUncompressedPoint(p: seq<byte>) {
    |p| > 0 && p[0] == 4
  }

  // ---------------------------------------------------------------
  // Regrouping concatenations, stated once so that the proofs about
  // encoders need not unfold them.

  lemma EmptyConcat<T>(a: seq<T>)
    ensures [] + a == a && a + [] == a
  {
  }

  lemma ConcatAssoc<T>(a: seq<T>, b: seq<T>, c: seq<T>)
    ensures (a + b) + c == a + (b + c)
  {
  }

  lemma ConcatAssoc4<T>(a: seq<T>, b: seq<T>, c: seq<T>, d: seq<T>)
    ensures a + b + c + d == a + (b + (c + d))
  {
  }

  lemma ConcatAssoc5<T>(a: seq<T>, b: seq<T>, c: seq<T>, d: seq<T>, e: seq<T>)
    ensures a + b + c + d + e == a + (b + (c + (d + e)))
  {
  }

  // ---------------------------------------------------------------
  // Round trips: each decoder reads back what its encoder wrote.

  lemma ReadU32Enc(x: nat, rest: seq<byte>)
    requires x < TWO32
    ensures ReadU32(EncU32(x) + rest) == Some(Read(x, rest))
  {
    var b := EncU32(x) + rest;
    assert b[..4] == BEFixed(x, 4);
    FromBEFixed(x, 4);
  }

  lemma ReadU64Enc(x: nat, rest: seq<byte>)
    requires x < TWO64
    ensures ReadU64(EncU64(x) + rest) == Some(Read(x, rest))
  {
    var b := EncU64(x) + rest;
    assert b[..8] == BEFixed(x, 8);
    FromBEFixed(x, 8);
  }

  lemma ReadStringEnc(s: seq<byte>, rest: seq<byte>)
    requires |s| < TWO32
    ensures ReadString(EncString(s) + rest) == Some(Read(s, rest))
  {
    var b := EncString(s) + rest;
    assert b == EncU32(|s|) + (s + rest);
    ReadU32Enc(|s|, s + rest);
    assert (s + rest)[..|s|] == s;
    assert (s + rest)[|s|..] == rest;
  }

  lemma ReadCStringEnc(s: CStr, rest: seq<byte>)
    requires |s| < TWO32
    ensures ReadCString(EncCString(s) + rest) == Some(Read(s, rest))
  {
    ReadStringEnc(ToBytes(s), rest);
    CStrBytesRoundTrip(s);
  }

  lemma ReadMpintEnc(n: nat, rest: seq<byte>)
    requires |MpintBody(n)| < TWO32
    ensures ReadMpint(EncMpint(n) + rest) == Some(Read(n, rest))
  {
    ReadStringEnc(MpintBody(n), rest);
  }

  lemma ReadEcPointEnc(p: seq<byte>, rest: seq<byte>)
    requires |p| < TWO32 && IsUncompressedPoint(p)
    ensures ReadEcPoint(EncString(p) + rest) == Some(Read(p, rest))
  {
    ReadStringEnc(p, rest);
  }
}
