// What key_write writes, key_read reads back, and the ways key_read
// refuses a line.
module TextProps {
  import opened Wrappers
  import opened Wire
  import opened KeyTypes
  import opened Keys
  import opened Primitives
  import opened Strings
  import opened BlobSpec
  import opened BlobProps
  import opened TextFormat

  predicate NoBlank(s: string) {
    forall i :: 0 <= i < |s| ==> !IsBlank(s[i])
  }

  lemma NoBlankConcat(a: string, b: string)
    requires NoBlank(a) && NoBlank(b)
    ensures NoBlank(a + b)
  {
    forall i | 0 <= i < |a + b|
      ensures !IsBlank((a + b)[i])
    {
      if i >= |a| {
        assert (a + b)[i] == b[i - |a|];
      }
    }
  }

  /** The parts the wire names are made of hold no blank. */
  lemma NamePartsHaveNoBlank()
    ensures NoBlank(NAME_RSA) && NoBlank(NAME_DSA) && NoBlank(NAME_ED25519)
    ensures NoBlank(ECDSA_PREFIX) && NoBlank(CURVE_NISTP256) && NoBlank(CURVE_NISTP384) && NoBlank(CURVE_NISTP521)
    ensures NoBlank(CERT_V01) && NoBlank(CERT_V00) && NoBlank(OPENSSH_DOMAIN) && NoBlank(SSH_UNKNOWN)
  {
    PlainPartsHaveNoBlank();
    CurvePartsHaveNoBlank();
    SuffixPartsHaveNoBlank();
  }

  lemma PlainPartsHaveNoBlank()
    ensures NoBlank(NAME_RSA) && NoBlank(NAME_DSA) && NoBlank(NAME_ED25519) && NoBlank(SSH_UNKNOWN)
  {
  }

  lemma CurvePartsHaveNoBlank()
    ensures NoBlank(ECDSA_PREFIX) && NoBlank(CURVE_NISTP256) && NoBlank(CURVE_NISTP384) && NoBlank(CURVE_NISTP521)
  {
  }

  lemma SuffixPartsHaveNoBlank()
    ensures NoBlank(CERT_V01) && NoBlank(CERT_V00) && NoBlank(OPENSSH_DOMAIN)
  {
  }

  /** Every name in the table is one of those parts joined. */
  lemma TableNamesHaveNoBlank(j: nat)
    requires j < |KeyTable| && KeyTable[j].name.Some?
    ensures NoBlank(KeyTable[j].name.value)
  {
    NamePartsHaveNoBlank();
    NoBlankConcat(ECDSA_PREFIX, CURVE_NISTP256);
    NoBlankConcat(ECDSA_PREFIX, CURVE_NISTP384);
    NoBlankConcat(ECDSA_PREFIX, CURVE_NISTP521);
    var tails := [NAME_RSA, NAME_DSA, NAME_ECDSA_P256, NAME_ECDSA_P384, NAME_ECDSA_P521, NAME_ED25519];
    forall a | a in tails
      ensures NoBlank(a + CERT_V01 + OPENSSH_DOMAIN) && NoBlank(a + CERT_V00 + OPENSSH_DOMAIN)
    {
      NoBlankConcat(a, CERT_V01);
      NoBlankConcat(a + CERT_V01, OPENSSH_DOMAIN);
      NoBlankConcat(a, CERT_V00);
      NoBlankConcat(a + CERT_V00, OPENSSH_DOMAIN);
    }
    assert NAME_RSA in tails && NAME_DSA in tails && NAME_ED25519 in tails;
    assert NAME_ECDSA_P256 in tails && NAME_ECDSA_P384 in tails && NAME_ECDSA_P521 in tails;
  }

  /** No wire name holds a space or a tab, so the first space of a
      key_write line ends the name. */
  lemma WireNamesHaveNoBlank(t: KeyType, nid: int)
    ensures SshNameFromTypeNid(t, nid).Some? ==> NoBlank(SshNameFromTypeNid(t, nid).value)
  {
    var i := Find(ByTypeNid(t, nid));
    if i < |KeyTable| && KeyTable[i].name.Some? {
      TableNamesHaveNoBlank(i);
    } else {
      NamePartsHaveNoBlank();
    }
  }

  // ---------------------------------------------------------------
  // RSA1 lines.

  /** The RSA1 line "c e n" followed by anything but a digit: where
      the parts are. */
  lemma Rsa1Layout(s: CStr, dc: string, de: string, dn: string, rest: string, p1: nat, p2: nat, p3: nat)
    requires s == dc + " " + de + " " + dn + rest
    requires rest == [] || !IsDigit(rest[0])
    requires p1 == |dc| && p2 == p1 + 1 + |de| && p3 == p2 + 1 + |dn|
    ensures p3 <= |s| && p3 == |s| - |rest|
    ensures s[0..p1] == dc && s[p1] == ' ' && s[p1 + 1..p2] == de && s[p2] == ' ' && s[p2 + 1..p3] == dn
    ensures !IsDigit(At(s, p3))
  {
    assert s[p3..] == rest;
    if rest != [] {
      assert s[p3] == rest[0];
    }
  }

  /** The RSA1 case once the three parts are known to read as they do. */
  lemma Rsa1LineOf(ret: Key, s: CStr, p1: nat, bits: nat, e: Number, n: Number)
    requires ret.rsa.Some? && 0 < p1 <= |s|
    requires IsDigit(At(s, 0)) && SkipDigits(s, 0) == p1 && WrappedDecimal(s[0..p1]) == bits
    requires NumberAt(s, p1) == Some(e) && NumberAt(s, e.end) == Some(n)
    ensures bits == 0 ==> Rsa1Line(ret, s, 0) == TextRead(-1, ret, 0)
    ensures bits != 0 ==> (Rsa1Line(ret, s, 0) ==
      TextRead(if Bits(n.value) % TWO32 == bits then 1 else -1,
               ret.(rsa := Some(ret.rsa.value.(e := e.value, n := n.value))), n.end))
  {
  }

  /** The RSA1 case on a line of that shape. */
  lemma Rsa1Parts(ret: Key, s: CStr, dc: string, de: string, dn: string, p1: nat, p2: nat, p3: nat)
    requires ret.rsa.Some?
    requires p1 == |dc| && p2 == p1 + 1 + |de| && p3 == p2 + 1 + |dn| && p3 <= |s|
    requires |dc| >= 1 && |de| >= 1 && |dn| >= 1 && AllDigits(dc) && AllDigits(de) && AllDigits(dn)
    requires s[0..p1] == dc && s[p1] == ' ' && s[p1 + 1..p2] == de && s[p2] == ' ' && s[p2 + 1..p3] == dn
    requires !IsDigit(At(s, p3))
    ensures var bits := WrappedDecimal(dc);
      && (bits == 0 ==> Rsa1Line(ret, s, 0) == TextRead(-1, ret, 0))
      && (bits != 0 ==> (Rsa1Line(ret, s, 0) ==
          TextRead(if Bits(DecimalValue(dn)) % TWO32 == bits then 1 else -1,
                   ret.(rsa := Some(ret.rsa.value.(e := DecimalValue(de), n := DecimalValue(dn)))), p3)))
  {
    DigitsRun(s, 0, dc);
    NumberAfterSpace(s, p1, de);
    NumberAfterSpace(s, p2, dn);
    Rsa1LineOf(ret, s, p1, WrappedDecimal(dc), Number(DecimalValue(de), p2), Number(DecimalValue(dn), p3));
  }

  /** A number after one space. */
  lemma NumberAfterSpace(s: CStr, i: nat, d: string)
    requires i + 1 + |d| <= |s| && |d| >= 1 && AllDigits(d) && s[i] == ' '
    requires s[i + 1..i + 1 + |d|] == d
    requires !IsDigit(At(s, i + 1 + |d|))
    ensures NumberAt(s, i) == Some(Number(DecimalValue(d), i + 1 + |d|))
  {
    NumberAtDigits(s, i, 1, d);
  }

  /** Reading "c e n" followed by anything but a digit: a count that is
      0 modulo 2^32 is refused before anything is read; otherwise e and
      n are read into `ret`, the cursor stops after n, and the line is
      accepted exactly when the count matches the bits of n modulo 2^32
      (the count is a u_int, so 2^32 more bits than n has is accepted
      too). */
  lemma Rsa1LineReads(ret: Key, s: CStr, c: nat, e: nat, n: nat, rest: string)
    requires ret.rsa.Some?
    requires s == Decimal(c) + " " + Decimal(e) + " " + Decimal(n) + rest
    requires rest == [] || !IsDigit(rest[0])
    ensures c % TWO32 == 0 ==> Rsa1Line(ret, s, 0) == TextRead(-1, ret, 0)
    ensures c % TWO32 != 0 ==> (Rsa1Line(ret, s, 0) ==
      TextRead(if Bits(n) % TWO32 == c % TWO32 then 1 else -1,
               ret.(rsa := Some(ret.rsa.value.(e := e, n := n))), |s| - |rest|))
  {
    DecimalRoundTrip(c);
    DecimalRoundTrip(e);
    DecimalRoundTrip(n);
    WrappedDecimalValue(Decimal(c));
    var dc, de, dn := Decimal(c), Decimal(e), Decimal(n);
    var p1 := |dc|;
    var p2 := p1 + 1 + |de|;
    var p3 := p2 + 1 + |dn|;
    Rsa1Layout(s, dc, de, dn, rest, p1, p2, p3);
    Rsa1Parts(ret, s, dc, de, dn, p1, p2, p3);
  }

  lemma CStrConcat(a: string, b: string)
    requires IsCStr(a) && IsCStr(b)
    ensures IsCStr(a + b)
  {
    forall i | 0 <= i < |a + b|
      ensures 0 < (a + b)[i] as int < 256
    {
      if i >= |a| {
        assert (a + b)[i] == b[i - |a|];
      }
    }
  }

  lemma DigitsAreCStr(d: string)
    requires AllDigits(d)
    ensures IsCStr(d)
  {
  }

  /** An RSA1 line is a C string. */
  lemma Rsa1TextIsCStr(c: nat, e: nat, n: nat)
    ensures IsCStr(Decimal(c) + " " + Decimal(e) + " " + Decimal(n))
  {
    DecimalRoundTrip(c);
    DecimalRoundTrip(e);
    DecimalRoundTrip(n);
    DigitsAreCStr(Decimal(c));
    DigitsAreCStr(Decimal(e));
    DigitsAreCStr(Decimal(n));
    CStrConcat(Decimal(c), " ");
    CStrConcat(Decimal(c) + " ", Decimal(e));
    CStrConcat(Decimal(c) + " " + Decimal(e), " ");
    CStrConcat(Decimal(c) + " " + Decimal(e) + " ", Decimal(n));
  }

  /** What key_write writes for an RSA1 key. */
  lemma Rsa1Written(ext: Externals, k: Key)
    requires k.kind == Rsa1 && k.rsa.Some?
    ensures WriteSafe(k)
    ensures KeyWrite(ext, k) == Written(1, Decimal(Bits(k.rsa.value.n) % TWO32) + " " + Decimal(k.rsa.value.e) + " " + Decimal(k.rsa.value.n))
  {
    TypeIsCertExactly(k.kind);
  }

  /** key_read reads an RSA1 `ret` by the RSA1 case alone. */
  lemma ReadLineRsa1(ext: Externals, ret: Key, s: CStr, cp: nat)
    requires cp <= |s| && ret.kind == Rsa1 && ret.rsa.Some?
    ensures ReadLine(ext, ret, s, cp) == Rsa1Line(ret, s, cp)
  {
  }

  /** Rsa1LineReads for a line that is all of s. */
  lemma Rsa1WholeLineReads(ret: Key, s: CStr, c: nat, e: nat, n: nat)
    requires ret.rsa.Some?
    requires s == Decimal(c) + " " + Decimal(e) + " " + Decimal(n)
    ensures c % TWO32 == 0 ==> Rsa1Line(ret, s, 0) == TextRead(-1, ret, 0)
    ensures c % TWO32 != 0 ==> (Rsa1Line(ret, s, 0) ==
      TextRead(if Bits(n) % TWO32 == c % TWO32 then 1 else -1,
               ret.(rsa := Some(ret.rsa.value.(e := e, n := n))), |s|))
  {
    assert s == Decimal(c) + " " + Decimal(e) + " " + Decimal(n) + [];
    Rsa1LineReads(ret, s, c, e, n, []);
  }

  /** The RSA1 line of a key, with its bit count, read back. */
  lemma Rsa1ReadBack(ret: Key, s: CStr, rk: RsaKey, rest: string)
    requires ret.rsa.Some? && Bits(rk.n) % TWO32 != 0
    requires s == Decimal(Bits(rk.n) % TWO32) + " " + Decimal(rk.e) + " " + Decimal(rk.n) + rest
    requires rest == [] || !IsDigit(rest[0])
    ensures Rsa1Line(ret, s, 0) == TextRead(1, ret.(rsa := Some(ret.rsa.value.(e := rk.e, n := rk.n))), |s| - |rest|)
  {
    var c := Bits(rk.n) % TWO32;
    assert c % TWO32 == c;
    Rsa1LineReads(ret, s, c, rk.e, rk.n, rest);
  }

  /** key_write then key_read for RSA1: the line key_write writes for an
      RSA1 key, followed by anything that does not start with a digit
      and read into an RSA1 `ret` (see ReadLineRsa1), is accepted, the
      cursor stops at the end of the line, and `ret` ends with the key's
      e and n, so the two keys are equal in their public parts. The bit
      count is written as a u_int, so the key must not have a multiple of
      2^32 bits (n = 0 among them). */
  lemma Rsa1RoundTrip(ext: Externals, k: Key, ret: Key, s: CStr, rest: string)
    requires k.kind == Rsa1 && k.rsa.Some? && Bits(k.rsa.value.n) % TWO32 != 0
    requires ret.kind == Rsa1 && ret.rsa.Some?
    requires WriteSafe(k) && s == KeyWrite(ext, k).text + rest
    requires rest == [] || !IsDigit(rest[0])
    ensures KeyWrite(ext, k).rc == 1
    ensures var r := Rsa1Line(ret, s, 0);
      && r.rc == 1 && r.cursor == |s| - |rest|
      && r.key == ret.(rsa := Some(ret.rsa.value.(e := k.rsa.value.e, n := k.rsa.value.n)))
      && EqualPublic(r.key, k)
  {
    var rk := k.rsa.value;
    Rsa1Written(ext, k);
    Rsa1ReadBack(ret, s, rk, rest);
  }

  /** The line key_write writes is a C string. */
  lemma Rsa1WrittenIsCStr(ext: Externals, k: Key)
    requires k.kind == Rsa1 && k.rsa.Some?
    ensures WriteSafe(k) && IsCStr(KeyWrite(ext, k).text)
  {
    Rsa1Written(ext, k);
    Rsa1TextIsCStr(Bits(k.rsa.value.n) % TWO32, k.rsa.value.e, k.rsa.value.n);
  }

  /** A zero modulus writes a zero bit count, which key_read refuses
      before reading anything. */
  lemma Rsa1ZeroModulusRefused(ext: Externals, k: Key, ret: Key, s: CStr)
    requires k.kind == Rsa1 && k.rsa.Some? && k.rsa.value.n == 0
    requires ret.rsa.Some? && WriteSafe(k) && s == KeyWrite(ext, k).text
    ensures KeyWrite(ext, k).rc == 1
    ensures Rsa1Line(ret, s, 0) == TextRead(-1, ret, 0)
  {
    Rsa1Written(ext, k);
    Rsa1WholeLineReads(ret, s, 0, k.rsa.value.e, 0);
  }

  /** The count is compared as a u_int: a line claiming 2^32 more bits
      than n has is accepted like the exact count. */
  lemma Rsa1CountWraps(ret: Key, s: CStr, e: nat, n: nat)
    requires ret.rsa.Some? && Bits(n) % TWO32 != 0
    requires s == Decimal(Bits(n) + TWO32) + " " + Decimal(e) + " " + Decimal(n)
    ensures Rsa1Line(ret, s, 0).rc == 1
  {
    var c := Bits(n) + TWO32;
    assert c % TWO32 == Bits(n) % TWO32;
    Rsa1WholeLineReads(ret, s, c, e, n);
  }

  /** A count that does not match the bits of n is refused, but `ret`
      keeps the e and n that were read and the cursor has moved past n. */
  lemma Rsa1MismatchKeepsParts(ret: Key, s: CStr, c: nat, e: nat, n: nat)
    requires ret.rsa.Some?
    requires c % TWO32 != 0 && c % TWO32 != Bits(n) % TWO32
    requires s == Decimal(c) + " " + Decimal(e) + " " + Decimal(n)
    ensures Rsa1Line(ret, s, 0) == TextRead(-1, ret.(rsa := Some(ret.rsa.value.(e := e, n := n))), |s|)
  {
    Rsa1WholeLineReads(ret, s, c, e, n);
  }

  // ---------------------------------------------------------------
  // Named-blob lines.

  /** The line "name uu" followed by nothing or a blank, for a name and
      a base64 token without blanks: where key_read's scans stop. */
  lemma BlobLayout(s: CStr, name: string, uu: string, rest: string, sp: nat, e: nat)
    requires s == name + " " + uu + rest
    requires NoBlank(name) && NoBlank(uu) && |uu| > 0
    requires rest == [] || IsBlank(rest[0])
    requires sp == |name| && e == sp + 1 + |uu|
    ensures sp + 1 < |s| && e == |s| - |rest|
    ensures s[0..sp] == name && s[sp + 1..] == uu + rest
    ensures FindSpace(s, 0) == Some(sp)
    ensures At(s, sp + 1) != '\0'
    ensures SkipBlanks(s, sp + 1) == sp + 1
    ensures SkipToken(s, sp + 1) == e
  {
    assert s[0..sp] == name;
    assert s[sp + 1..] == uu + rest;
    assert forall k :: 0 <= k < sp ==> s[k] == name[k];
    FindSpaceAt(s, 0, sp);
    assert s[sp + 1] == uu[0];
    SkipBlanksAt(s, sp + 1, sp + 1);
    assert forall k :: sp + 1 <= k < e ==> s[k] == uu[k - sp - 1];
    if rest != [] {
      assert s[e] == rest[0];
    }
    SkipTokenAt(s, sp + 1, e);
  }

  /** NamedLine when every check passes. */
  lemma NamedLineAccepts(ext: Externals, ret: Key, s: CStr, sp: nat, t: KeyType, nid: int, blob: seq<byte>, k: Key)
    requires sp + 1 < |s| && t != Unspec && (TypePlain(t) == Ecdsa ==> nid != -1 && nid == k.ecdsaNid)
    requires ret.kind == Unspec || ret.kind == t
    requires ext.uudecode(s[sp + 1..]) == Some(blob) && DecodeBlob(ext, blob, true) == Some(k) && k.kind == t
    ensures NamedLine(ext, ret, s, 0, sp, t, nid) ==
      TextRead(1, Transfer(ret.(kind := t), k), SkipToken(s, SkipBlanks(s, sp + 1)))
  {
  }

  /** A line "name uu" whose name gives type t (and curve nid) and whose
      token decodes to a key k of that type and curve is accepted, `ret`
      gets k's parts, and the cursor stops after the token. */
  lemma BlobLineAccepts(ext: Externals, ret: Key, s: CStr, name: string, uu: string, rest: string,
                        t: KeyType, nid: int, blob: seq<byte>, k: Key)
    requires s == name + " " + uu + rest
    requires NoBlank(name) && NoBlank(uu) && |uu| > 0
    requires rest == [] || IsBlank(rest[0])
    requires IsCStr(name) && TypeFromName(name) == t && t != Unspec
    requires TypePlain(t) == Ecdsa ==> EcdsaNidFromName(name) == nid && nid != -1 && nid == k.ecdsaNid
    requires ret.kind == Unspec || ret.kind == t
    requires ext.uudecode(uu + rest) == Some(blob) && DecodeBlob(ext, blob, true) == Some(k) && k.kind == t
    ensures BlobLine(ext, ret, s, 0) == TextRead(1, Transfer(ret.(kind := t), k), |s| - |rest|)
  {
    var sp := |name|;
    var e := sp + 1 + |uu|;
    BlobLayout(s, name, uu, rest, sp, e);
    var n: CStr := name;
    assert s[0..sp] == n;
    NamedLineAccepts(ext, ret, s, sp, t, if TypePlain(t) == Ecdsa then nid else -1, blob, k);
  }

  /** What the uuencode and uudecode of the system do with a blob: the
      encoding is a non-empty token without blanks, and decoding it,
      followed by what follows it on the line, gives the blob back. */
  predicate TokenFor(ext: Externals, k: Key, uu: string, rest: string) {
    && CanBlob(k, false) && BlobOf(k, false).Some?
    && ext.uuencode(BlobOf(k, false).value) == Some(uu)
    && |uu| > 0 && NoBlank(uu)
    && ext.uudecode(uu + rest) == Some(BlobOf(k, false).value)
  }

  /** What key_write writes for a plain key: its wire name, a space, the
      base64 of its blob. */
  lemma PlainWritten(ext: Externals, k: Key, uu: string, rest: string)
    requires IsValidCa(k.kind) && HasWireFields(k) && TokenFor(ext, k, uu, rest)
    ensures WriteSafe(k) && SshNameFromTypeNid(k.kind, k.ecdsaNid).Some?
    ensures KeyWrite(ext, k) == Written(1, SshNameFromTypeNid(k.kind, k.ecdsaNid).value + " " + uu)
  {
    TypeIsCertExactly(k.kind);
  }

  /** The moves into `ret` give it the public parts of the decoded key. */
  lemma TransferEqualPublic(ret: Key, d: Key, k: Key)
    requires IsValidCa(ret.kind) && ret.kind == d.kind
    requires k.kind != Unspec && EqualPublic(d, k)
    ensures EqualPublic(Transfer(ret, d), k)
  {
    TypeIsCertExactly(ret.kind);
    ValidCaIsPlainNamed(ret.kind);
    TypePlainIdempotent(ret.kind);
  }

  /** The name of a plain key's line gives back its type and curve. */
  lemma PlainLineName(k: Key)
    requires IsValidCa(k.kind) && HasWireFields(k)
    ensures SshNameFromTypeNid(k.kind, k.ecdsaNid).Some?
    ensures var name := SshNameFromTypeNid(k.kind, k.ecdsaNid).value;
      && NoBlank(name) && TypeFromName(name) == k.kind
      && (TypePlain(k.kind) == Ecdsa ==> EcdsaNidFromName(name) == k.ecdsaNid && k.ecdsaNid != -1)
  {
    ValidCaIsPlainNamed(k.kind);
    TypePlainIdempotent(k.kind);
    SshNameRoundTrip(k.kind, k.ecdsaNid);
    WireNamesHaveNoBlank(k.kind, k.ecdsaNid);
  }

  /** What the blob of a plain key decodes to. */
  lemma PlainLineBlob(ext: Externals, k: Key)
    requires IsValidCa(k.kind) && HasWireFields(k) && FieldsFit(k) && PointAccepted(ext, k) && Copyable(k)
    ensures CanBlob(k, false) && BlobOf(k, false).Some?
    ensures DecodeBlob(ext, BlobOf(k, false).value, true) == Some(FromPrivate(k))
    ensures EqualPublic(k, FromPrivate(k))
  {
    PlainRoundTripEqual(ext, k);
  }

  /** key_from_private keeps the type and the curve. */
  lemma FromPrivateKeepsCurve(k: Key)
    requires IsValidCa(k.kind) && Copyable(k)
    ensures FromPrivate(k).kind == k.kind
    ensures TypePlain(k.kind) == Ecdsa ==> FromPrivate(k).ecdsaNid == k.ecdsaNid
    ensures EqualPublic(k, FromPrivate(k)) ==> EqualPublic(FromPrivate(k), k)
  {
    ValidCaIsPlainNamed(k.kind);
    TypeIsCertExactly(k.kind);
    EqualPublicSymmetric(k, FromPrivate(k));
  }

  /** key_write then key_read for a plain key: the line key_write writes,
      followed by nothing or a blank, read into a `ret` of no type or of
      the key's type, is accepted; `ret` takes the key's type and the
      public parts of the decoded key, which equal the key's, and the
      cursor stops at the end of the line. This holds when uuencode and
      uudecode are inverse on the blob (TokenFor). */
  lemma PlainLineRoundTrip(ext: Externals, k: Key, ret: Key, s: CStr, uu: string, rest: string)
    requires IsValidCa(k.kind) && HasWireFields(k) && FieldsFit(k) && PointAccepted(ext, k) && Copyable(k)
    requires ret.kind == Unspec || ret.kind == k.kind
    requires TokenFor(ext, k, uu, rest)
    requires WriteSafe(k) && s == KeyWrite(ext, k).text + rest
    requires rest == [] || IsBlank(rest[0])
    ensures KeyWrite(ext, k).rc == 1
    ensures ReadLine(ext, ret, s, 0) == TextRead(1, Transfer(ret.(kind := k.kind), FromPrivate(k)), |s| - |rest|)
    ensures EqualPublic(ReadLine(ext, ret, s, 0).key, k)
  {
    PlainWritten(ext, k, uu, rest);
    PlainLineName(k);
    PlainLineBlob(ext, k);
    FromPrivateKeepsCurve(k);
    var name := SshNameFromTypeNid(k.kind, k.ecdsaNid).value;
    assert s == name + " " + uu + rest;
    BlobLineAccepts(ext, ret, s, name, uu, rest, k.kind, k.ecdsaNid, BlobOf(k, false).value, FromPrivate(k));
    TransferEqualPublic(ret.(kind := k.kind), FromPrivate(k), k);
  }

  // ---------------------------------------------------------------
  // How key_read refuses a named-blob line.

  /** key_read reads a `ret` of any other type than RSA1 by the
      named-blob case. */
  lemma ReadLineBlob(ext: Externals, ret: Key, s: CStr, cp: nat)
    requires cp <= |s| && ret.kind != Rsa1
    ensures ReadLine(ext, ret, s, cp) == BlobLine(ext, ret, s, cp)
  {
  }

  /** No space after the cursor: refused, nothing changed. */
  lemma NoSpaceRefused(ext: Externals, ret: Key, s: CStr, cp: nat)
    requires cp <= |s| && forall k :: cp <= k < |s| ==> s[k] != ' '
    ensures BlobLine(ext, ret, s, cp) == TextRead(-1, ret, cp)
  {
  }

  /** A name that is no key type: refused, nothing changed. */
  lemma UnknownNameRefused(ext: Externals, ret: Key, s: CStr, cp: nat, sp: nat)
    requires cp <= |s| && FindSpace(s, cp) == Some(sp)
    requires TypeFromName(s[cp..sp]) == Unspec
    ensures BlobLine(ext, ret, s, cp) == TextRead(-1, ret, cp)
  {
  }

  /** The short name "ECDSA", in any case, is an ECDSA type without a
      curve: refused, nothing changed. */
  lemma EcdsaShortNameRefused(ext: Externals, ret: Key, s: CStr, cp: nat, sp: nat)
    requires cp <= |s| && FindSpace(s, cp) == Some(sp)
    requires EqualsIgnoreCase(s[cp..sp], SHORT_ECDSA)
    ensures BlobLine(ext, ret, s, cp) == TextRead(-1, ret, cp)
  {
    EcdsaShortNameHasNoCurve(s[cp..sp]);
  }

  /** Nothing after the space: refused, nothing changed. */
  lemma ShortLineRefused(ext: Externals, ret: Key, s: CStr, cp: nat, sp: nat)
    requires cp <= |s| && FindSpace(s, cp) == Some(sp) && sp + 1 == |s|
    ensures BlobLine(ext, ret, s, cp) == TextRead(-1, ret, cp)
  {
  }

  /** A `ret` of another type than the line's: refused, nothing changed. */
  lemma TypeMismatchRefused(ext: Externals, ret: Key, s: CStr, cp: nat, sp: nat, t: KeyType, nid: int)
    requires cp <= sp < |s| && ret.kind != Unspec && ret.kind != t
    ensures NamedLine(ext, ret, s, cp, sp, t, nid) == TextRead(-1, ret, cp)
  {
  }

  /** Once the checks on the name pass, a `ret` of no type takes the
      line's type even when the base64 then fails to decode. */
  lemma FailedDecodeKeepsType(ext: Externals, ret: Key, s: CStr, cp: nat, sp: nat, t: KeyType, nid: int)
    requires cp <= sp && sp + 1 < |s| && ret.kind == Unspec && t != Unspec
    requires TypePlain(t) == Ecdsa ==> nid != -1
    requires ext.uudecode(s[sp + 1..]).None?
    ensures NamedLine(ext, ret, s, cp, sp, t, nid) == TextRead(-1, ret.(kind := t), cp)
  {
  }

  /** A blob of another type than the name's, or of another curve: the
      line is refused and the decoded key is not moved into `ret`, though
      a `ret` of no type keeps the name's type. */
  lemma DecodedMismatchRefused(ext: Externals, ret: Key, s: CStr, cp: nat, sp: nat, t: KeyType, nid: int,
                               blob: seq<byte>, k: Key)
    requires cp <= sp && sp + 1 < |s| && t != Unspec && (TypePlain(t) == Ecdsa ==> nid != -1)
    requires ret.kind == Unspec || ret.kind == t
    requires ext.uudecode(s[sp + 1..]) == Some(blob) && DecodeBlob(ext, blob, true) == Some(k)
    requires k.kind != t || (TypePlain(t) == Ecdsa && k.ecdsaNid != nid)
    ensures NamedLine(ext, ret, s, cp, sp, t, nid) == TextRead(-1, ret.(kind := t), cp)
  {
  }
}
