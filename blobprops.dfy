// Properties of the public key blob: decoding what to_blob wrote gives
// the public half of the key back, with the trailing bytes untouched,
// and key_from_blob2 answers NULL in each of its error cases.
module BlobProps {
  import opened Wrappers
  import opened Wire
  import opened KeyTypes
  import opened Keys
  import opened Primitives
  import opened BlobSpec

  /** Every key field fits the 32-bit length of its string. */
  predicate FieldsFit(k: Key)
    requires HasWireFields(k)
  {
    (IsRsaFamily(k.kind) ==> |MpintBody(k.rsa.value.e)| < TWO32 && |MpintBody(k.rsa.value.n)| < TWO32) &&
    (IsDsaFamily(k.kind) ==>
      |MpintBody(k.dsa.value.p)| < TWO32 && |MpintBody(k.dsa.value.q)| < TWO32 &&
      |MpintBody(k.dsa.value.g)| < TWO32 && |MpintBody(k.dsa.value.pubKey)| < TWO32) &&
    (IsEcdsaFamily(k.kind) ==> |k.ecdsa.value.pub.value| < TWO32)
  }

  /** The EC point is one key_from_blob2 accepts: uncompressed, and on
      the curve by the external validity check. */
  predicate PointAccepted(ext: Externals, k: Key)
    requires HasWireFields(k)
  {
    IsEcdsaFamily(k.kind) ==>
      IsUncompressedPoint(k.ecdsa.value.pub.value) && ext.ecPublicValid(k.ecdsaNid, k.ecdsa.value.pub.value)
  }

  /** The nonce that a -v01 certificate carries before its key fields. */
  function NonceField(t: KeyType, nonce: seq<byte>): seq<byte> {
    if t == RsaCert || t == DsaCert || t == EcdsaCert || t == Ed25519Cert then EncString(nonce) else []
  }

  /** The key key_from_blob2 builds from the key fields of `k`. */
  function Decoded(k: Key): Key
    requires HasWireFields(k)
  {
    PublicParts(k, KeyNew(k.kind))
  }

  /** Plain types carry no nonce. */
  lemma NoNonceField(t: KeyType, a: seq<byte>, b: seq<byte>)
    requires !IsCertType(t)
    ensures NonceField(t, []) + a + b == a + b
  {
    assert NonceField(t, []) == [];
  }

  lemma SkipNonceField(t: KeyType, nonce: seq<byte>, c: seq<byte>)
    requires |nonce| < TWO32
    ensures SkipNonce(t, NonceField(t, nonce) + c) == c
  {
    if NonceField(t, nonce) != [] {
      ReadStringEnc(nonce, c);
    } else {
      assert [] + c == c;
    }
  }

  lemma DecodeRsaFields(k: Key, rest: seq<byte>)
    requires k.kind == Rsa || k.kind == RsaCert || k.kind == RsaCertV00
    requires HasWireFields(k) && FieldsFit(k)
    ensures DecodeRsa(k.kind, PublicFields(k) + rest) == Some(Read(Decoded(k), rest))
  {
    var r := k.rsa.value;
    assert PublicFields(k) + rest == EncMpint(r.e) + (EncMpint(r.n) + rest);
    ReadMpintEnc(r.e, EncMpint(r.n) + rest);
    ReadMpintEnc(r.n, rest);
  }

  lemma DecodeDsaFields(k: Key, rest: seq<byte>)
    requires IsDsaFamily(k.kind)
    requires HasWireFields(k) && FieldsFit(k)
    ensures DecodeDsa(k.kind, PublicFields(k) + rest) == Some(Read(Decoded(k), rest))
  {
    var d := k.dsa.value;
    assert PublicFields(k) == EncMpint(d.p) + EncMpint(d.q) + EncMpint(d.g) + EncMpint(d.pubKey);
    ConcatAssoc5(EncMpint(d.p), EncMpint(d.q), EncMpint(d.g), EncMpint(d.pubKey), rest);
    ReadMpintEnc(d.p, EncMpint(d.q) + (EncMpint(d.g) + (EncMpint(d.pubKey) + rest)));
    ReadMpintEnc(d.q, EncMpint(d.g) + (EncMpint(d.pubKey) + rest));
    ReadMpintEnc(d.g, EncMpint(d.pubKey) + rest);
    ReadMpintEnc(d.pubKey, rest);
  }

  lemma DecodeEcdsaFields(ext: Externals, k: Key, rest: seq<byte>)
    requires IsEcdsaFamily(k.kind)
    requires HasWireFields(k) && FieldsFit(k) && PointAccepted(ext, k)
    ensures DecodeEcdsa(ext, k.kind, k.ecdsaNid, PublicFields(k) + rest) == Some(Read(Decoded(k), rest))
  {
    var name := CurveNidToName(k.ecdsaNid).value;
    var q := k.ecdsa.value.pub.value;
    assert PublicFields(k) + rest == EncString(ToBytes(name)) + (EncString(q) + rest);
    ReadStringEnc(ToBytes(name), EncString(q) + rest);
    CPrefixOfCStr(name);
    CurveTablesAgree(k.ecdsaNid);
    assert CurveAccepted(k.ecdsaNid, ToBytes(name));
    ReadEcPointEnc(q, rest);
  }

  lemma DecodeEd25519Fields(k: Key, rest: seq<byte>)
    requires IsEd25519Family(k.kind)
    requires HasWireFields(k)
    ensures DecodeEd25519(k.kind, PublicFields(k) + rest) == Some(Read(Decoded(k), rest))
  {
    ReadStringEnc(k.ed25519Pk.value, rest);
  }

  /** The key fields of every type with a wire name read back as the
      public half of the key, with or without the -v01 nonce, and the
      bytes after them are left unread. */
  lemma DecodeFieldsOf(ext: Externals, k: Key, nid: int, nonce: seq<byte>, rest: seq<byte>)
    requires k.kind != Rsa1 && k.kind != Unspec
    requires HasWireFields(k) && FieldsFit(k) && PointAccepted(ext, k) && |nonce| < TWO32
    requires IsEcdsaFamily(k.kind) ==> nid == k.ecdsaNid
    ensures DecodeFields(ext, k.kind, nid, NonceField(k.kind, nonce) + PublicFields(k) + rest) == Some(Read(Decoded(k), rest))
  {
    var c := PublicFields(k) + rest;
    assert NonceField(k.kind, nonce) + PublicFields(k) + rest == NonceField(k.kind, nonce) + c;
    SkipNonceField(k.kind, nonce, c);
    if IsRsaFamily(k.kind) {
      DecodeRsaFields(k, rest);
    } else if IsDsaFamily(k.kind) {
      DecodeDsaFields(k, rest);
    } else if IsEcdsaFamily(k.kind) {
      DecodeEcdsaFields(ext, k, rest);
    } else {
      DecodeEd25519Fields(k, rest);
    }
  }

  /** key_from_blob2 on a blob whose type name is not a certificate
      type: just the key fields after the name. */
  lemma ParseBlobPlainName(ext: Externals, name: CStr, x: seq<byte>, allowCert: bool)
    requires |name| < TWO32 && !TypeIsCert(TypeFromName(name))
    ensures ParseBlob(ext, EncCString(name) + x, allowCert) ==
      DecodeFields(ext, TypeFromName(name), NidOfName(TypeFromName(name), name), x)
  {
    ReadCStringEnc(name, x);
  }

  /** Plain round trip: for plain RSA, DSA, ECDSA and Ed25519 keys,
      key_from_blob2 reads what to_blob wrote back as a key of the same
      type with the same public part, and leaves any bytes after the
      blob unread. */
  lemma PlainRoundTrip(ext: Externals, k: Key, rest: seq<byte>, allowCert: bool)
    requires IsValidCa(k.kind) && HasWireFields(k) && FieldsFit(k) && PointAccepted(ext, k)
    ensures CanBlob(k, false) && BlobOf(k, false).Some?
    ensures ParseBlob(ext, BlobOf(k, false).value + rest, allowCert) == Some(Read(Decoded(k), rest))
  {
    var t := k.kind;
    SshNameRoundTrip(t, k.ecdsaNid);
    SshNameShort(t, k.ecdsaNid);
    ValidCaIsPlainNamed(t);
    TypePlainIdempotent(t);
    var name := SshNameFromTypeNid(t, k.ecdsaNid).value;
    var fields := PublicFields(k);
    var x := fields + rest;
    assert BlobOf(k, false).value == EncCString(name) + fields;
    ConcatAssoc(EncCString(name), fields, rest);
    NoNonceField(t, fields, rest);
    ParseBlobPlainName(ext, name, x, allowCert);
    assert NidOfName(t, name) == k.ecdsaNid || !IsEcdsaFamily(t);
    DecodeFieldsOf(ext, k, NidOfName(t, name), [], rest);
  }

  /** Hence the decoded key is key_from_private of the original, and
      key_equal to it. */
  lemma PlainRoundTripEqual(ext: Externals, k: Key)
    requires IsValidCa(k.kind) && HasWireFields(k) && FieldsFit(k) && PointAccepted(ext, k)
    requires Copyable(k)
    ensures CanBlob(k, false) && BlobOf(k, false).Some?
    ensures DecodeBlob(ext, BlobOf(k, false).value, true) == Some(FromPrivate(k))
    ensures DecodeBlob(ext, BlobOf(k, false).value, false) == Some(FromPrivate(k))
    ensures Equal(k, FromPrivate(k)) && EqualPublic(k, FromPrivate(k))
  {
    TypeIsCertExactly(k.kind);
    PlainRoundTrip(ext, k, [], true);
    PlainRoundTrip(ext, k, [], false);
    assert BlobOf(k, false).value + [] == BlobOf(k, false).value;
    FromPrivateEqual(k);
  }

  // ---------------------------------------------------------------
  // The NULL answers of key_from_blob2, and the KEY_UNSPEC key.

  /** An unreadable type string gives NULL. */
  lemma UnreadableTypeName(ext: Externals, blob: seq<byte>, allowCert: bool)
    requires ReadCString(blob).None?
    ensures ParseBlob(ext, blob, allowCert).None?
  {
  }

  /** A certificate type name is refused when certificates are not
      allowed, whatever follows it. */
  lemma CertificateNotAllowed(ext: Externals, name: CStr, x: seq<byte>)
    requires |name| < TWO32 && TypeIsCert(TypeFromName(name))
    ensures ParseBlob(ext, EncCString(name) + x, false).None?
  {
    ReadCStringEnc(name, x);
  }

  /** "RSA1", in any case, is the short name of the table's first row,
      which reaches the default case of the switch: NULL. */
  lemma Rsa1NameRefused(ext: Externals, name: CStr, x: seq<byte>, allowCert: bool)
    requires EqualsIgnoreCase(name, SHORT_RSA1)
    ensures TypeFromName(name) == Rsa1
    ensures ParseBlob(ext, EncCString(name) + x, allowCert).None?
  {
    FindIs(ByName(name), 0);
    TypeIsCertExactly(Rsa1);
    ParseBlobPlainName(ext, name, x, allowCert);
  }

  /** A name key_type_from_name does not know (by TypeFromNameUnspec,
      one that matches no row, exactly or by short name) decodes as a
      KEY_UNSPEC key that reads nothing further. */
  lemma UnknownNameIsUnspec(ext: Externals, name: CStr, x: seq<byte>, allowCert: bool)
    requires |name| < TWO32 && TypeFromName(name) == Unspec
    ensures ParseBlob(ext, EncCString(name) + x, allowCert) == Some(Read(KeyNew(Unspec), x))
  {
    TypeIsCertExactly(Unspec);
    ParseBlobPlainName(ext, name, x, allowCert);
  }

  /** A missing first number of an RSA or DSA key gives NULL. */
  lemma MissingNumber(ext: Externals, name: CStr, x: seq<byte>, allowCert: bool)
    requires |name| < TWO32
    requires TypeFromName(name) == Rsa || TypeFromName(name) == Dsa
    requires ReadMpint(x).None?
    ensures ParseBlob(ext, EncCString(name) + x, allowCert).None?
  {
    TypeIsCertExactly(TypeFromName(name));
    ParseBlobPlainName(ext, name, x, allowCert);
  }

  /** A missing modulus after a readable exponent gives NULL as well. */
  lemma MissingModulus(ext: Externals, name: CStr, e: nat, x: seq<byte>, allowCert: bool)
    requires |name| < TWO32 && |MpintBody(e)| < TWO32
    requires TypeFromName(name) == Rsa
    requires ReadMpint(x).None?
    ensures ParseBlob(ext, EncCString(name) + (EncMpint(e) + x), allowCert).None?
  {
    TypeIsCertExactly(Rsa);
    ParseBlobPlainName(ext, name, EncMpint(e) + x, allowCert);
    ReadMpintEnc(e, x);
  }

  /** An Ed25519 key string of any length but ED25519_PK_SZ gives NULL
      in the corrected decoder; key.c is fatal there (Ed25519FieldsAsWritten). */
  lemma Ed25519WrongLength(ext: Externals, name: CStr, pk: seq<byte>, x: seq<byte>, allowCert: bool)
    requires |name| < TWO32 && |pk| < TWO32 && |pk| != ED25519_PK_SZ
    requires TypeFromName(name) == Ed25519
    ensures ParseBlob(ext, EncCString(name) + (EncString(pk) + x), allowCert).None?
  {
    TypeIsCertExactly(Ed25519);
    ParseBlobPlainName(ext, name, EncString(pk) + x, allowCert);
    ReadStringEnc(pk, x);
  }

  /** An ECDSA blob whose curve string is not the curve of its type
      name gives NULL. */
  lemma EcdsaCurveMismatch(ext: Externals, name: CStr, curve: seq<byte>, x: seq<byte>, allowCert: bool)
    requires |name| < TWO32 && |curve| < TWO32
    requires TypeFromName(name) == Ecdsa
    requires CurveNameToNid(CPrefix(curve)) != EcdsaNidFromName(name)
    ensures ParseBlob(ext, EncCString(name) + (EncString(curve) + x), allowCert).None?
  {
    TypeIsCertExactly(Ecdsa);
    TypePlainIdempotent(Ecdsa);
    ParseBlobPlainName(ext, name, EncString(curve) + x, allowCert);
    ReadStringEnc(curve, x);
  }

  /** Short names match in any case, so a blob named "rsa" holding RSA
      fields decodes as an RSA key. */
  lemma ShortRsaNameDecodes(ext: Externals, name: CStr, k: Key, rest: seq<byte>, allowCert: bool)
    requires EqualsIgnoreCase(name, SHORT_RSA)
    requires k.kind == Rsa && HasWireFields(k) && FieldsFit(k)
    ensures ParseBlob(ext, EncCString(name) + (PublicFields(k) + rest), allowCert) == Some(Read(Decoded(k), rest))
  {
    ShortNameAnyCase(name);
    TypeIsCertExactly(Rsa);
    ParseBlobPlainName(ext, name, PublicFields(k) + rest, allowCert);
    NoNonceField(Rsa, PublicFields(k), rest);
    DecodeFieldsOf(ext, k, NidOfName(Rsa, name), [], rest);
  }

  /** Whatever key_from_blob2 returns, other than a KEY_UNSPEC key,
      carries the fields to_blob needs to write it again; an ECDSA key
      has a known curve, for its nid and its group alike. */
  lemma DecodedKeysAreComplete(ext: Externals, blob: seq<byte>, allowCert: bool)
    requires ParseBlob(ext, blob, allowCert).Some?
    ensures var k := ParseBlob(ext, blob, allowCert).value.value;
      k.kind != Unspec ==> HasWireFields(k) && (IsEcdsaFamily(k.kind) ==> k.ecdsa.value.group == k.ecdsaNid)
    ensures var k := ParseBlob(ext, blob, allowCert).value.value;
      TypeIsCert(k.kind) ==> k.cert.Some? && k.cert.value.certblob == blob
  {
    var ktype := ReadCString(blob).value;
    var t := TypeFromName(ktype.value);
    var body := DecodeFields(ext, t, NidOfName(t, ktype.value), ktype.rest).value;
    assert body.value.kind == t;
    if TypeIsCert(t) {
      var cr := ReadCert(IsLegacy(t), blob, body.rest).value;
      var ca := DecodeBlob(ext, cr.value.fields.sigKey, false);
      var k := CheckCert(ext, body.value, blob, cr.value.fields, cr.value.signedLen, cr.value.sig, ca).value;
      assert ParseBlob(ext, blob, allowCert).value.value == k;
    } else {
      assert ParseBlob(ext, blob, allowCert).value == body;
    }
  }

  // ---------------------------------------------------------------
  // The principals list and the option lists of cert_parse.

  /** The principals as key_certify writes them: one C string each. */
  function EncPrincipals(ps: seq<CStr>): seq<byte> {
    if ps == [] then [] else EncCString(ps[0]) + EncPrincipals(ps[1..])
  }

  predicate ShortStrings(ps: seq<CStr>) {
    forall i :: 0 <= i < |ps| ==> |ps[i]| < TWO32
  }

  /** The principals loop reads back the written list, and refuses it
      exactly when it would collect more than CERT_MAX_PRINCIPALS. */
  lemma {:induction false} PrincipalsEnc(ps: seq<CStr>, acc: seq<CStr>)
    requires ShortStrings(ps)
    ensures Principals(EncPrincipals(ps), acc) ==
      if ps == [] || |acc| + |ps| <= CERT_MAX_PRINCIPALS then Some(acc + ps) else None
  {
    if ps == [] {
      assert acc + [] == acc;
    } else {
      var b := EncPrincipals(ps);
      assert b == EncCString(ps[0]) + EncPrincipals(ps[1..]);
      assert |b| > 0;
      if |acc| < CERT_MAX_PRINCIPALS {
        ReadCStringEnc(ps[0], EncPrincipals(ps[1..]));
        PrincipalsEnc(ps[1..], acc + [ps[0]]);
        assert acc + [ps[0]] + ps[1..] == acc + ps;
      }
    }
  }

  /** Hence a certificate carries at most CERT_MAX_PRINCIPALS principals:
      256 are accepted and the 257th is refused. */
  lemma PrincipalsLimit(ps: seq<CStr>)
    requires ShortStrings(ps)
    ensures Principals(EncPrincipals(ps), []).Some? <==> |ps| <= CERT_MAX_PRINCIPALS
    ensures |ps| <= CERT_MAX_PRINCIPALS ==> Principals(EncPrincipals(ps), []) == Some(ps)
  {
    PrincipalsEnc(ps, []);
    assert [] + ps == ps;
  }

  /** Whatever the principals loop accepts has at most
      CERT_MAX_PRINCIPALS entries. */
  lemma {:induction false} PrincipalsBound(b: seq<byte>, acc: seq<CStr>)
    requires |acc| <= CERT_MAX_PRINCIPALS
    ensures Principals(b, acc).Some? ==> |Principals(b, acc).value| <= CERT_MAX_PRINCIPALS
    ensures Principals(b, acc).Some? ==> acc <= Principals(b, acc).value
    decreases |b|
  {
    if b != [] && |acc| < CERT_MAX_PRINCIPALS {
      var p := ReadCString(b);
      if p.Some? {
        PrincipalsBound(p.value.rest, acc + [p.value.value]);
        if Principals(b, acc).Some? {
          assert acc <= acc + [p.value.value];
        }
      }
    }
  }

  /** Critical options and extensions as key_certify copies them: name
      and data strings. */
  function EncPairs(ps: seq<(seq<byte>, seq<byte>)>): seq<byte> {
    if ps == [] then [] else EncString(ps[0].0) + EncString(ps[0].1) + EncPairs(ps[1..])
  }

  predicate ShortPairs(ps: seq<(seq<byte>, seq<byte>)>) {
    forall i :: 0 <= i < |ps| ==> |ps[i].0| < TWO32 && |ps[i].1| < TWO32
  }

  /** A list of name and data strings passes the structure check. */
  lemma {:induction false} StringPairsEnc(ps: seq<(seq<byte>, seq<byte>)>)
    requires ShortPairs(ps)
    ensures StringPairs(EncPairs(ps))
  {
    if ps != [] {
      var tail := EncPairs(ps[1..]);
      assert EncPairs(ps) == EncString(ps[0].0) + (EncString(ps[0].1) + tail);
      ReadStringEnc(ps[0].0, EncString(ps[0].1) + tail);
      ReadStringEnc(ps[0].1, tail);
      StringPairsEnc(ps[1..]);
    }
  }

  /** A single name without its data string fails it. */
  lemma StringPairsOdd(name: seq<byte>)
    requires |name| < TWO32
    ensures !StringPairs(EncString(name))
  {
    ReadStringEnc(name, []);
    assert EncString(name) + [] == EncString(name);
  }

  // ---------------------------------------------------------------
  // The curve check of key_from_blob2, as written.

  datatype CurveCheck = CurveMismatch | CurveFatal | CurveOk

  /** key_from_blob2 as written (key.c:1610-1618): only the mismatch of
      the curve string with the name's nid is an error; an equal but
      unknown nid reaches EC_KEY_new_by_curve_name, whose NULL is fatal.
      The model's DecodeEcdsa rejects that case instead (CurveAccepted). */
  function CurveCheckAsWritten(nid: int, curve: seq<byte>): (r: CurveCheck)
    ensures r == CurveOk <==> CurveAccepted(nid, curve)
    ensures r == CurveFatal <==> nid == CurveNameToNid(CPrefix(curve)) && nid == -1
  {
    CurveNameToNidInverse(CPrefix(curve));
    if nid != CurveNameToNid(CPrefix(curve)) then CurveMismatch
    else if !IsCurveNid(nid) then CurveFatal
    else CurveOk
  }

  /** Any spelling of "ECDSA" as the type name, followed by a curve
      string naming no known curve, passes the curve check as written
      and reaches the fatal error; the corrected decoder refuses it. */
  lemma EcdsaShortNameReachesFatal(ext: Externals, name: CStr, curve: seq<byte>, x: seq<byte>, allowCert: bool)
    requires EqualsIgnoreCase(name, SHORT_ECDSA) && |curve| < TWO32
    requires CurveNameToNid(CPrefix(curve)) == -1
    ensures ReadCString(EncCString(name) + (EncString(curve) + x)) == Some(Read(name, EncString(curve) + x))
    ensures TypeFromName(name) == Ecdsa && NidOfName(TypeFromName(name), name) == -1
    ensures ReadString(EncString(curve) + x) == Some(Read(curve, x))
    ensures CurveCheckAsWritten(NidOfName(TypeFromName(name), name), curve) == CurveFatal
    ensures ParseBlob(ext, EncCString(name) + (EncString(curve) + x), allowCert).None?
  {
    EcdsaShortNameHasNoCurve(name);
    TypeIsCertExactly(Ecdsa);
    TypePlainIdempotent(Ecdsa);
    ReadCStringEnc(name, EncString(curve) + x);
    ReadStringEnc(curve, x);
    ParseBlobPlainName(ext, name, EncString(curve) + x, allowCert);
  }

  /** The concrete blob: the name "ECDSA" and the curve "x". */
  lemma EcdsaFatalExample(ext: Externals)
    ensures CurveCheckAsWritten(NidOfName(TypeFromName(SHORT_ECDSA), SHORT_ECDSA), [120]) == CurveFatal
    ensures ParseBlob(ext, EncCString(SHORT_ECDSA) + (EncString([120]) + []), true).None?
  {
    assert EqualsIgnoreCase(SHORT_ECDSA, SHORT_ECDSA);
    assert CPrefix([120]) == ['x'];
    EcdsaShortNameReachesFatal(ext, SHORT_ECDSA, [120], [], true);
  }

  // ---------------------------------------------------------------
  // The Ed25519 case of key_from_blob2, as written.

  datatype Ed25519Step = Ed25519Fatal | Ed25519Read(pk: Read<seq<byte>>)

  /** key_from_blob2 as written (key.c:1639-1651): an unreadable key
      string, or one whose length is not ED25519_PK_SZ, jumps to badkey
      before key_new has run, and badkey's key_free(NULL) is fatal
      (key.c:221-222). The model's DecodeEd25519 answers NULL instead. */
  function Ed25519FieldsAsWritten(c: seq<byte>): (r: Ed25519Step)
    ensures r.Ed25519Fatal? <==> ReadString(c).None? || |ReadString(c).value.value| != ED25519_PK_SZ
    ensures r.Ed25519Read? ==> ReadString(c) == Some(r.pk) && |r.pk.value| == ED25519_PK_SZ
  {
    match ReadString(c)
    case None => Ed25519Fatal
    case Some(pk) => if |pk.value| != ED25519_PK_SZ then Ed25519Fatal else Ed25519Read(pk)
  }

  /** The corrected decoder differs from key.c only where key.c is fatal:
      there it answers NULL, elsewhere it builds the key from the same
      string. */
  lemma Ed25519FatalBecomesNull(t: KeyType, c: seq<byte>)
    requires IsEd25519Family(t)
    ensures Ed25519FieldsAsWritten(c).Ed25519Fatal? <==> DecodeEd25519(t, c).None?
    ensures var w := Ed25519FieldsAsWritten(c);
      w.Ed25519Read? ==> DecodeEd25519(t, c) == Some(Read(KeyNew(t).(ed25519Pk := Some(w.pk.value)), w.pk.rest))
  {
  }

  /** A plain Ed25519 blob whose key string is missing or of the wrong
      length reaches the fatal error as written; the corrected decoder
      refuses it. */
  lemma Ed25519ShortBlobReachesFatal(ext: Externals, name: CStr, x: seq<byte>, allowCert: bool)
    requires |name| < TWO32 && TypeFromName(name) == Ed25519
    requires ReadString(x).None? || |ReadString(x).value.value| != ED25519_PK_SZ
    ensures ReadCString(EncCString(name) + x) == Some(Read(name, x))
    ensures Ed25519FieldsAsWritten(x) == Ed25519Fatal
    ensures ParseBlob(ext, EncCString(name) + x, allowCert).None?
  {
    TypeIsCertExactly(Ed25519);
    ReadCStringEnc(name, x);
    ParseBlobPlainName(ext, name, x, allowCert);
  }

  /** The concrete blob: the name "ssh-ed25519" and nothing after it. */
  lemma Ed25519FatalExample(ext: Externals)
    ensures Ed25519FieldsAsWritten([]) == Ed25519Fatal
    ensures ParseBlob(ext, EncCString(NAME_ED25519) + [], true).None?
  {
    assert TypeFromName(NAME_ED25519) == Ed25519 by {
      TypeFromNameOfTableName(3);
    }
    Ed25519ShortBlobReachesFatal(ext, NAME_ED25519, [], true);
  }
}
