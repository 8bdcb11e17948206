// What key_certify writes, cert_parse reads back: the fields come back
// in the order they were written, the signed span cert_parse computes
// is exactly the bytes the CA signed, and key_from_blob2 returns the
// certified key with its CA. Also the error cases of key_certify.
module CertProps {
  import opened Wrappers
  import opened Wire
  import opened KeyTypes
  import opened Keys
  import opened Primitives
  import opened BlobSpec
  import opened BlobProps
  import opened Certificates

  /** Every certificate field fits its wire width. */
  predicate FieldsFitWire(f: CertFields) {
    f.serial < TWO64 && f.certType < TWO32 && |f.keyId| < TWO32 && |f.principals| < TWO32 &&
    f.validAfter < TWO64 && f.validBefore < TWO64 &&
    |f.critical| < TWO32 && |f.extensions| < TWO32 && |f.sigKey| < TWO32
  }

  /** The fields a legacy certificate cannot carry are absent. */
  predicate LegacyShape(legacy: bool, f: CertFields) {
    legacy ==> f.serial == 0 && f.extensions == []
  }

  lemma ReadCertTailEnc(legacy: bool, c: CertFields, f: CertFields, nonce: seq<byte>, rest: seq<byte>)
    requires FieldsFitWire(f) && LegacyShape(legacy, f) && |nonce| < TWO32
    ensures ReadCertTail(legacy, c, EncCertTail(legacy, f, nonce) + rest) ==
      Some(Read(c.(extensions := f.extensions, sigKey := f.sigKey), rest))
  {
    var first := if legacy then EncString(nonce) else EncString(f.extensions);
    var tail := EncString([]) + EncString(f.sigKey);
    ConcatAssoc(first, tail, rest);
    ConcatAssoc(EncString([]), EncString(f.sigKey), rest);
    if legacy {
      ReadStringEnc(nonce, tail + rest);
    } else {
      ReadStringEnc(f.extensions, tail + rest);
    }
    ReadStringEnc([], EncString(f.sigKey) + rest);
    ReadStringEnc(f.sigKey, rest);
  }

  lemma ReadCertValidityEnc(legacy: bool, c: CertFields, f: CertFields, nonce: seq<byte>, rest: seq<byte>)
    requires FieldsFitWire(f) && LegacyShape(legacy, f) && |nonce| < TWO32
    ensures ReadCertValidity(legacy, c, EncCertValidity(f) + (EncCertTail(legacy, f, nonce) + rest)) ==
      Some(Read(c.(validAfter := f.validAfter, validBefore := f.validBefore, critical := f.critical,
                   extensions := f.extensions, sigKey := f.sigKey), rest))
  {
    var t := EncCertTail(legacy, f, nonce) + rest;
    ConcatAssoc(EncU64(f.validAfter), EncU64(f.validBefore) + EncString(f.critical), t);
    ConcatAssoc(EncU64(f.validBefore), EncString(f.critical), t);
    ReadU64Enc(f.validAfter, EncU64(f.validBefore) + (EncString(f.critical) + t));
    ReadU64Enc(f.validBefore, EncString(f.critical) + t);
    ReadStringEnc(f.critical, t);
    ReadCertTailEnc(legacy, c.(validAfter := f.validAfter, validBefore := f.validBefore, critical := f.critical),
      f, nonce, rest);
  }

  /** cert_parse reads the certificate fields key_certify wrote. */
  lemma ReadCertFieldsEnc(legacy: bool, f: CertFields, nonce: seq<byte>, rest: seq<byte>)
    requires FieldsFitWire(f) && LegacyShape(legacy, f) && |nonce| < TWO32
    ensures ReadCertFields(legacy, EncCertHead(legacy, f) + (EncCertValidity(f) + (EncCertTail(legacy, f, nonce) + rest))) ==
      Some(Read(f, rest))
  {
    var t := EncCertValidity(f) + (EncCertTail(legacy, f, nonce) + rest);
    var serial := if legacy then [] else EncU64(f.serial);
    var ids := EncU32(f.certType) + (EncCString(f.keyId) + EncString(f.principals));
    ConcatAssoc(serial, ids, t);
    ConcatAssoc(EncU32(f.certType), EncCString(f.keyId) + EncString(f.principals), t);
    ConcatAssoc(EncCString(f.keyId), EncString(f.principals), t);
    var afterSerial := ids + t;
    if legacy {
      EmptyConcat(afterSerial);
    } else {
      ReadU64Enc(f.serial, afterSerial);
    }
    ReadU32Enc(f.certType, EncCString(f.keyId) + (EncString(f.principals) + t));
    ReadCStringEnc(f.keyId, EncString(f.principals) + t);
    ReadStringEnc(f.principals, t);
    var c := CertFields(f.serial, f.certType, f.keyId, f.principals, 0, 0, [], [], []);
    ReadCertValidityEnc(legacy, c, f, nonce, rest);
  }

  /** The certificate fields that follow the key fields. */
  function EncCertFields(legacy: bool, f: CertFields, nonce: seq<byte>): seq<byte> {
    EncCertHead(legacy, f) + (EncCertValidity(f) + EncCertTail(legacy, f, nonce))
  }

  /** signed_len: whatever precedes the certificate fields (the name,
      the nonce and the key fields), cert_parse's signed span is the
      whole blob up to the signature string, that is, exactly the bytes
      key_certify signed. */
  lemma SignedSpanIsSigned(legacy: bool, f: CertFields, nonce: seq<byte>, sig: seq<byte>, pre: seq<byte>)
    requires FieldsFitWire(f) && LegacyShape(legacy, f) && |nonce| < TWO32 && |sig| < TWO32
    ensures |EncCertFields(legacy, f, nonce) + EncString(sig)| <= |pre + EncCertFields(legacy, f, nonce) + EncString(sig)|
    ensures ReadCert(legacy, pre + EncCertFields(legacy, f, nonce) + EncString(sig), EncCertFields(legacy, f, nonce) + EncString(sig)) ==
      Some(Read(CertRead(f, |pre + EncCertFields(legacy, f, nonce)|, sig), []))
  {
    var fields := EncCertFields(legacy, f, nonce);
    var s := EncString(sig);
    var blob := pre + fields + s;
    var h := EncCertHead(legacy, f);
    var v := EncCertValidity(f);
    var t := EncCertTail(legacy, f, nonce);
    ConcatAssoc(h, v + t, s);
    ConcatAssoc(v, t, s);
    ReadCertFieldsEnc(legacy, f, nonce, s);
    ReadStringEnc(sig, []);
    EmptyConcat(s);
    var r := ReadCert(legacy, blob, fields + s);
    assert r.Some? && r.value.rest == [];
    assert r.value.value.fields == f && r.value.value.sig == sig;
    assert r.value.value.signedLen == |pre + fields|;
  }

  /** key_from_blob2 on a blob with a certificate type name: the key
      fields, then cert_parse's reads and checks. */
  lemma ParseBlobCertName(ext: Externals, name: CStr, x: seq<byte>, key: Key, rest: seq<byte>,
                          cr: CertRead, rest2: seq<byte>, k: Key)
    requires |name| < TWO32 && TypeIsCert(TypeFromName(name))
    requires DecodeFields(ext, TypeFromName(name), NidOfName(TypeFromName(name), name), x) == Some(Read(key, rest))
    requires |rest| <= |EncCString(name) + x|
    requires ReadCert(IsLegacy(TypeFromName(name)), EncCString(name) + x, rest) == Some(Read(cr, rest2))
    requires CheckCert(ext, key, EncCString(name) + x, cr.fields, cr.signedLen, cr.sig, DecodeBlob(ext, cr.fields.sigKey, false)) == Some(k)
    ensures ParseBlob(ext, EncCString(name) + x, true) == Some(Read(k, rest2))
  {
    ReadCStringEnc(name, x);
  }

  /** cert_parse's checks pass for what key_certify wrote when the type
      is USER or HOST, the principals are at most CERT_MAX_PRINCIPALS,
      the option lists are pairs of strings, the CA blob decodes to a
      valid CA key and its signature verifies. */
  lemma CheckCertPasses(ext: Externals, key: Key, blob: seq<byte>, f: CertFields, ps: seq<CStr>,
                        signedLen: nat, sig: seq<byte>, ca: Key)
    requires signedLen <= |blob|
    requires f.certType == SSH2_CERT_TYPE_USER || f.certType == SSH2_CERT_TYPE_HOST
    requires ShortStrings(ps) && |ps| <= CERT_MAX_PRINCIPALS && f.principals == EncPrincipals(ps)
    requires StringPairs(f.critical) && StringPairs(f.extensions)
    requires IsValidCa(ca.kind) && KeyVerify(ext, ca, sig, blob[..signedLen]) == 1
    ensures CheckCert(ext, key, blob, f, signedLen, sig, Some(ca)) ==
      Some(key.(cert := Some(Cert(blob, f.certType, f.serial, Some(f.keyId), ps, f.validAfter, f.validBefore,
                                  f.critical, f.extensions, Some(ca)))))
  {
    PrincipalsLimit(ps);
  }

  // ---------------------------------------------------------------
  // The round trip.

  /** A certificate key key_certify can work with, whose fields fit
      their wire widths once signed by the CA with blob caBlob, and which
      cert_parse will accept: a USER or HOST certificate with at most
      CERT_MAX_PRINCIPALS principals and option lists made of pairs of
      strings. */
  predicate CertShape(ext: Externals, k: Key, nonce: seq<byte>, caBlob: seq<byte>) {
    IsCertType(k.kind) && k.cert.Some? && k.cert.value.keyId.Some? &&
    HasWireFields(k) && FieldsFit(k) && PointAccepted(ext, k) && |nonce| == 32 &&
    var c := k.cert.value;
    var f := FieldsOf(IsLegacy(k.kind), c, caBlob);
    FieldsFitWire(f) && ShortStrings(c.principals) && |c.principals| <= CERT_MAX_PRINCIPALS &&
    (c.certType == SSH2_CERT_TYPE_USER || c.certType == SSH2_CERT_TYPE_HOST) &&
    StringPairs(f.critical) && StringPairs(f.extensions)
  }

  /** A CA key that can sign certificates and whose blob decodes. */
  predicate CaShape(ext: Externals, ca: Key) {
    IsValidCa(ca.kind) && HasWireFields(ca) && FieldsFit(ca) && PointAccepted(ext, ca)
  }

  /** A certificate key and a CA key, as above. */
  predicate Certifiable(ext: Externals, k: Key, ca: Key, nonce: seq<byte>) {
    CaShape(ext, ca) && CertShape(ext, k, nonce, BlobOf(ca, false).value)
  }

  /** The CA signs the certificate body, and the public half of the CA
      key verifies that signature. */
  predicate SignatureVerifies(ext: Externals, k: Key, ca: Key, nonce: seq<byte>)
    requires Certifiable(ext, k, ca, nonce)
  {
    var tbs := CertTbs(k, nonce, BlobOf(ca, false).value);
    var sig := KeySign(ext, ca, tbs);
    sig.Some? && |sig.value| < TWO32 && KeyVerify(ext, Decoded(ca), sig.value, tbs) == 1
  }

  /** The key key_from_blob2 builds from a certificate blob: the public
      part of the key, and the certificate with its CA's public part;
      the legacy format has no serial and no extensions to read. */
  function ParsedCertified(k: Key, ca: Key, blob: seq<byte>): Key
    requires HasWireFields(k) && HasWireFields(ca) && k.cert.Some? && k.cert.value.keyId.Some?
  {
    var c := k.cert.value;
    var legacy := IsLegacy(k.kind);
    Decoded(k).(cert := Some(Cert(blob, c.certType, if legacy then 0 else c.serial, c.keyId, c.principals,
      c.validAfter, c.validBefore, c.critical, if legacy then [] else c.extensions, Some(Decoded(ca)))))
  }
}
