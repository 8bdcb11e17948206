// key_certify: the to-be-signed certificate blob as a function of the
// key, the CA blob and the nonce, and the method that writes it into
// the certificate's buffer and appends the CA's signature.
module Certificates {
  import opened Wrappers
  import opened Wire
  import opened KeyTypes
  import opened Keys
  import opened Primitives
  import opened Buffers
  import opened BlobSpec
  import opened BlobProps
  import opened BlobCodec

  // ---------------------------------------------------------------
  // What key_certify writes.

  /** The certificate fields in the form cert_parse reads them back:
      the legacy format carries no serial and no extensions, which read
      as 0 and empty. */
  function FieldsOf(legacy: bool, c: Cert, caBlob: seq<byte>): (f: CertFields)
    requires c.keyId.Some?
    ensures f.certType == c.certType && f.keyId == c.keyId.value && f.sigKey == caBlob
    ensures f.principals == EncPrincipals(c.principals)
    ensures f.serial == (if legacy then 0 else c.serial)
    ensures f.extensions == (if legacy then [] else c.extensions)
  {
    CertFields(if legacy then 0 else c.serial, c.certType, c.keyId.value, EncPrincipals(c.principals),
      c.validAfter, c.validBefore, c.critical, if legacy then [] else c.extensions, caBlob)
  }

  /** The serial (-v01 only), the certificate type, the key id and the
      principals string. */
  function EncCertHead(legacy: bool, f: CertFields): seq<byte> {
    (if legacy then [] else EncU64(f.serial)) + (EncU32(f.certType) + (EncCString(f.keyId) + EncString(f.principals)))
  }

  /** The validity interval and the critical options. */
  function EncCertValidity(f: CertFields): seq<byte> {
    EncU64(f.validAfter) + (EncU64(f.validBefore) + EncString(f.critical))
  }

  /** The extensions (-v01) or the nonce (-v00), the empty reserved
      string and the CA key blob. */
  function EncCertTail(legacy: bool, f: CertFields, nonce: seq<byte>): seq<byte> {
    (if legacy then EncString(nonce) else EncString(f.extensions)) + (EncString([]) + EncString(f.sigKey))
  }

  /** What key_certify hands to the CA to sign: the wire name, the nonce
      (-v01 only, first), the key fields as to_blob writes them, then
      the certificate fields. */
  function CertTbs(k: Key, nonce: seq<byte>, caBlob: seq<byte>): seq<byte>
    requires IsCertType(k.kind) && HasWireFields(k) && k.cert.Some? && k.cert.value.keyId.Some?
  {
    var legacy := IsLegacy(k.kind);
    var f := FieldsOf(legacy, k.cert.value, caBlob);
    EncCString(SshNameFromTypeNid(k.kind, k.ecdsaNid).value) + (if legacy then [] else EncString(nonce)) +
      PublicFields(k) + EncCertHead(legacy, f) + EncCertValidity(f) + EncCertTail(legacy, f, nonce)
  }

  /** What key_certify dereferences once its checks have passed: the
      key fields of both keys and the key id. */
  predicate CanCertify(k: Key, ca: Key) {
    k.cert.Some? && TypeIsCert(k.kind) && IsValidCa(ca.kind) ==>
      HasWireFields(k) && HasWireFields(ca) && k.cert.value.keyId.Some?
  }

  /** The key with its certblob replaced. */
  function WithCertblob(k: Key, blob: seq<byte>): (r: Key)
    requires k.cert.Some?
    ensures r.cert.Some? && r.cert.value.certblob == blob
  {
    k.(cert := Some(k.cert.value.(certblob := blob)))
  }

  /** key_certify's return code and the key afterwards. */
  datatype Certified = Certified(rc: int, key: Key)

  /** key_certify: -1 with the key untouched without a certificate, for
      a key that is not a certificate type or a CA type that cannot
      sign certificates; -1 with an empty certblob when the signature
      fails; otherwise 0, and the certblob is the signed bytes followed
      by the signature string. */
  function Certify(ext: Externals, k: Key, ca: Key, nonce: seq<byte>): (r: Certified)
    requires CanCertify(k, ca)
    ensures r.rc == 0 || r.rc == -1
    ensures r.key == k || (k.cert.Some? && r.key.cert.Some? && r.key == WithCertblob(k, r.key.cert.value.certblob))
  {
    if k.cert.None? || !TypeIsCert(k.kind) || !IsValidCa(ca.kind) then Certified(-1, k)
    else
      TypeIsCertExactly(k.kind);
      var tbs := CertTbs(k, nonce, BlobOf(ca, false).value);
      match KeySign(ext, ca, tbs)
      case None => Certified(-1, WithCertblob(k, []))
      case Some(sig) => Certified(0, WithCertblob(k, tbs + EncString(sig)))
  }

  // ---------------------------------------------------------------
  // The C code.

  /** key_certify. The certblob is rebuilt in a cleared buffer; the
      nonce is what arc4random_buf would have produced. The default
      case of the key-field switch cannot be reached once key_is_cert
      has held (CertTypeHasFields). */
  method KeyCertify(ext: Externals, k: Key, ca: Key, nonce: seq<byte>) returns (rc: int, certified: Key)
    requires CanCertify(k, ca) && |nonce| == 32
    ensures Certified(rc, certified) == Certify(ext, k, ca, nonce)
  {
    if k.cert.None? {
      return -1, k;
    }
    if !IsCert(k) {
      return -1, k;
    }
    if !IsValidCa(ca.kind) {
      return -1, k;
    }
    TypeIsCertExactly(k.kind);
    ValidCaIsPlainNamed(ca.kind);
    var caBlob := ToBlob(ca, false);
    var cert := k.cert.value;
    var b := new Buffer();
    var legacy := IsLegacy(k.kind);
    ghost var f := FieldsOf(legacy, cert, caBlob.value);
    var name := SshNameFromTypeNid(k.kind, k.ecdsaNid).value;
    ghost var nonceField: seq<byte> := if legacy then [] else EncString(nonce);
    b.PutCString(name);
    EmptyConcat(EncCString(name));
    // -v01 certificates put the nonce first.
    if !legacy {
      b.PutString(nonce);
    } else {
      EmptyConcat(EncCString(name));
    }
    ghost var named := b.Contents();
    assert named == EncCString(name) + nonceField;
    CertTypeHasFields(k.kind);
    PutKeyFields(k, b);
    assert b.Contents() == named + PublicFields(k);
    PutCertHead(legacy, cert, caBlob.value, b);
    PutCertValidity(legacy, cert, caBlob.value, b);
    PutCertTail(legacy, cert, nonce, caBlob.value, b);
    var tbs := b.Contents();
    assert tbs == named + PublicFields(k) + EncCertHead(legacy, f) + EncCertValidity(f) + EncCertTail(legacy, f, nonce);
    assert tbs == CertTbs(k, nonce, caBlob.value);
    var sig := KeySign(ext, ca, tbs);
    if sig.None? {
      b.Clear();
      return -1, WithCertblob(k, b.Contents());
    }
    b.PutString(sig.value);
    return 0, WithCertblob(k, b.Contents());
  }

  /** Every type key_is_cert admits has a case in the key-field switch. */
  lemma CertTypeHasFields(t: KeyType)
    requires TypeIsCert(t)
    ensures IsRsaFamily(t) || IsDsaFamily(t) || IsEcdsaFamily(t) || IsEd25519Family(t)
    ensures t != Rsa1 && t != Unspec
  {
    TypeIsCertExactly(t);
  }

  method PutCertHead(legacy: bool, c: Cert, caBlob: seq<byte>, b: Buffer)
    requires b.Valid() && c.keyId.Some?
    modifies b
    ensures b.Valid()
    ensures b.Contents() == old(b.Contents()) + EncCertHead(legacy, FieldsOf(legacy, c, caBlob))
  {
    ghost var b0 := b.Contents();
    ghost var f := FieldsOf(legacy, c, caBlob);
    // -v01 certificates have a serial number next.
    if !legacy {
      b.PutU64(c.serial);
    }
    ghost var s := if legacy then [] else EncU64(c.serial);
    assert b.Contents() == b0 + s;
    b.PutU32(c.certType);
    b.PutCString(c.keyId.value);
    var principals := EncodePrincipals(c.principals);
    b.PutString(principals);
    ConcatAssoc5(b0, s, EncU32(f.certType), EncCString(f.keyId), EncString(f.principals));
  }

  method PutCertValidity(legacy: bool, c: Cert, caBlob: seq<byte>, b: Buffer)
    requires b.Valid() && c.keyId.Some?
    modifies b
    ensures b.Valid()
    ensures b.Contents() == old(b.Contents()) + EncCertValidity(FieldsOf(legacy, c, caBlob))
  {
    ghost var b0 := b.Contents();
    b.PutU64(c.validAfter);
    b.PutU64(c.validBefore);
    b.PutString(c.critical);
    ConcatAssoc4(b0, EncU64(c.validAfter), EncU64(c.validBefore), EncString(c.critical));
  }

  method PutCertTail(legacy: bool, c: Cert, nonce: seq<byte>, caBlob: seq<byte>, b: Buffer)
    requires b.Valid() && c.keyId.Some?
    modifies b
    ensures b.Valid()
    ensures b.Contents() == old(b.Contents()) + EncCertTail(legacy, FieldsOf(legacy, c, caBlob), nonce)
  {
    ghost var b0 := b.Contents();
    // -v01 certificates have the extensions here, -v00 ones the nonce.
    if !legacy {
      b.PutString(c.extensions);
    }
    if legacy {
      b.PutString(nonce);
    }
    ghost var s := if legacy then EncString(nonce) else EncString(c.extensions);
    assert b.Contents() == b0 + s;
    // The reserved string.
    b.PutString([]);
    b.PutString(caBlob);
    ConcatAssoc4(b0, s, EncString([]), EncString(caBlob));
  }

  /** The principals loop: one C string each, into a scratch buffer. */
  method EncodePrincipals(ps: seq<CStr>) returns (data: seq<byte>)
    ensures data == EncPrincipals(ps)
  {
    var pb := new Buffer();
    for i := 0 to |ps|
      invariant pb.Valid() && pb.Contents() == EncPrincipals(ps[..i])
    {
      EncPrincipalsAppend(ps[..i], [ps[i]]);
      assert ps[..i] + [ps[i]] == ps[..i + 1];
      pb.PutCString(ps[i]);
    }
    assert ps[..|ps|] == ps;
    data := pb.Contents();
  }

  /** The principals string of a concatenation is the concatenation of
      the principals strings. */
  lemma {:induction false} EncPrincipalsAppend(a: seq<CStr>, b: seq<CStr>)
    ensures EncPrincipals(a + b) == EncPrincipals(a) + EncPrincipals(b)
  {
    if a == [] {
      assert [] + b == b;
    } else {
      assert (a + b)[0] == a[0];
      assert (a + b)[1..] == a[1..] + b;
      EncPrincipalsAppend(a[1..], b);
      ConcatAssoc(EncCString(a[0]), EncPrincipals(a[1..]), EncPrincipals(b));
    }
  }
}
