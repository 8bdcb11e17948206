// The certify-then-parse round trip: key_from_blob2 returns the key
// key_certify certified, with its CA, from the certblob it wrote.
module CertRoundTrip {
  import opened Wrappers
  import opened Wire
  import opened KeyTypes
  import opened Keys
  import opened Primitives
  import opened BlobSpec
  import opened BlobProps
  import opened Certificates
  import opened CertProps

  /** The certificate blob is the name, the nonce and key fields, the
      certificate fields, then the signature, grouped as key_from_blob2
      reads them. */
  lemma CertTbsLayout(k: Key, nonce: seq<byte>, caBlob: seq<byte>, sig: seq<byte>)
    requires IsCertType(k.kind) && HasWireFields(k) && k.cert.Some? && k.cert.value.keyId.Some?
    ensures var legacy := IsLegacy(k.kind);
      var f := FieldsOf(legacy, k.cert.value, caBlob);
      var pre := EncCString(SshNameFromTypeNid(k.kind, k.ecdsaNid).value) + NonceField(k.kind, nonce) + PublicFields(k);
      CertTbs(k, nonce, caBlob) == pre + EncCertFields(legacy, f, nonce) &&
      CertTbs(k, nonce, caBlob) + EncString(sig) ==
        EncCString(SshNameFromTypeNid(k.kind, k.ecdsaNid).value) +
          (NonceField(k.kind, nonce) + PublicFields(k) + (EncCertFields(legacy, f, nonce) + EncString(sig)))
  {
    var legacy := IsLegacy(k.kind);
    var f := FieldsOf(legacy, k.cert.value, caBlob);
    var n := EncCString(SshNameFromTypeNid(k.kind, k.ecdsaNid).value);
    var nf := NonceField(k.kind, nonce);
    assert nf == if legacy then [] else EncString(nonce);
    var pf := PublicFields(k);
    var h := EncCertHead(legacy, f);
    var v := EncCertValidity(f);
    var t := EncCertTail(legacy, f, nonce);
    var s := EncString(sig);
    var pre := n + nf + pf;
    assert CertTbs(k, nonce, caBlob) == pre + h + v + t;
    ConcatAssoc(pre + h, v, t);
    ConcatAssoc(pre, h, v + t);
    var cf := EncCertFields(legacy, f, nonce);
    ConcatAssoc(pre, cf, s);
    ConcatAssoc(n + nf, pf, cf + s);
    ConcatAssoc(n, nf, pf + (cf + s));
    ConcatAssoc(nf, pf, cf + s);
  }

  /** On the signature's success key_certify returns 0, and the
      certblob is the signed bytes followed by the signature string. */
  lemma CertifySucceeds(ext: Externals, k: Key, ca: Key, nonce: seq<byte>)
    requires Certifiable(ext, k, ca, nonce) && SignatureVerifies(ext, k, ca, nonce)
    ensures CanCertify(k, ca)
    ensures var tbs := CertTbs(k, nonce, BlobOf(ca, false).value);
      Certify(ext, k, ca, nonce) == Certified(0, WithCertblob(k, tbs + EncString(KeySign(ext, ca, tbs).value)))
  {
    TypeIsCertExactly(k.kind);
  }

  /** The name and key fields of a certificate blob decode as the
      public part of the key, leaving the certificate fields. */
  lemma CertKeyPartParses(ext: Externals, k: Key, nonce: seq<byte>, rest: seq<byte>)
    requires IsCertType(k.kind) && HasWireFields(k) && FieldsFit(k) && PointAccepted(ext, k) && |nonce| == 32
    ensures var name := SshNameFromTypeNid(k.kind, k.ecdsaNid);
      name.Some? && |name.value| < TWO32 && TypeFromName(name.value) == k.kind &&
      DecodeFields(ext, k.kind, NidOfName(k.kind, name.value), NonceField(k.kind, nonce) + PublicFields(k) + rest) ==
        Some(Read(Decoded(k), rest))
  {
    TypeIsCertExactly(k.kind);
    SshNameRoundTrip(k.kind, k.ecdsaNid);
    SshNameShort(k.kind, k.ecdsaNid);
    DecodeFieldsOf(ext, k, NidOfName(k.kind, SshNameFromTypeNid(k.kind, k.ecdsaNid).value), nonce, rest);
  }

  /** The CA blob inside a certificate decodes as the CA's public part. */
  lemma CaBlobDecodes(ext: Externals, ca: Key)
    requires IsValidCa(ca.kind) && HasWireFields(ca) && FieldsFit(ca) && PointAccepted(ext, ca)
    ensures CanBlob(ca, false) && BlobOf(ca, false).Some?
    ensures DecodeBlob(ext, BlobOf(ca, false).value, false) == Some(Decoded(ca))
    ensures Decoded(ca).kind == ca.kind
  {
    PlainRoundTrip(ext, ca, [], false);
    EmptyConcat(BlobOf(ca, false).value);
  }

  /** A certificate blob with a signature the CA key verifies parses
      back as the certified key, with nothing left over. */
  lemma CertBlobParses(ext: Externals, k: Key, ca: Key, nonce: seq<byte>, caBlob: seq<byte>, sig: seq<byte>)
    requires CertShape(ext, k, nonce, caBlob) && |sig| < TWO32
    requires IsValidCa(ca.kind) && HasWireFields(ca) && DecodeBlob(ext, caBlob, false) == Some(Decoded(ca))
    requires KeyVerify(ext, Decoded(ca), sig, CertTbs(k, nonce, caBlob)) == 1
    ensures var blob := CertTbs(k, nonce, caBlob) + EncString(sig);
      ParseBlob(ext, blob, true) == Some(Read(ParsedCertified(k, ca, blob), []))
  {
    var legacy := IsLegacy(k.kind);
    var c := k.cert.value;
    var f := FieldsOf(legacy, c, caBlob);
    var tbs := CertTbs(k, nonce, caBlob);
    var blob := tbs + EncString(sig);
    var name := SshNameFromTypeNid(k.kind, k.ecdsaNid).value;
    var cfs := EncCertFields(legacy, f, nonce) + EncString(sig);
    var x := NonceField(k.kind, nonce) + PublicFields(k) + cfs;
    CertTbsLayout(k, nonce, caBlob, sig);
    assert blob == EncCString(name) + x;
    CertKeyPartParses(ext, k, nonce, cfs);
    var pre := EncCString(name) + NonceField(k.kind, nonce) + PublicFields(k);
    SignedSpanIsSigned(legacy, f, nonce, sig, pre);
    assert blob[..|tbs|] == tbs;
    assert Decoded(ca).kind == ca.kind;
    CheckCertPasses(ext, Decoded(k), blob, f, c.principals, |tbs|, sig, Decoded(ca));
    var t := TypeFromName(name);
    TypeIsCertExactly(k.kind);
    assert |name| < TWO32 && TypeIsCert(t);
    assert |cfs| <= |EncCString(name) + x|;
    ParseBlobCertName(ext, name, x, Decoded(k), cfs, CertRead(f, |tbs|, sig), [], ParsedCertified(k, ca, blob));
  }

  /** Certify, then parse: key_from_blob2 reads the blob key_certify
      wrote back as the certified key, with the signed span cert_parse
      verifies being exactly what the CA signed, and nothing left over. */
  lemma CertifyRoundTrip(ext: Externals, k: Key, ca: Key, nonce: seq<byte>)
    requires Certifiable(ext, k, ca, nonce) && SignatureVerifies(ext, k, ca, nonce)
    ensures CanCertify(k, ca) && Certify(ext, k, ca, nonce).rc == 0
    ensures var blob := Certify(ext, k, ca, nonce).key.cert.value.certblob;
      ParseBlob(ext, blob, true) == Some(Read(ParsedCertified(k, ca, blob), []))
  {
    CertifySucceeds(ext, k, ca, nonce);
    CaBlobDecodes(ext, ca);
    var caBlob := BlobOf(ca, false).value;
    var tbs := CertTbs(k, nonce, caBlob);
    CertBlobParses(ext, k, ca, nonce, caBlob, KeySign(ext, ca, tbs).value);
  }

  /** key_certify's refusals: a key without a certificate, a key of a
      plain type, and a CA that cannot sign (a certificate among them)
      get -1 and the key untouched. */
  lemma CertifyRefuses(ext: Externals, k: Key, ca: Key, nonce: seq<byte>)
    requires CanCertify(k, ca)
    ensures k.cert.None? || !TypeIsCert(k.kind) || !IsValidCa(ca.kind) || TypeIsCert(ca.kind) ==>
      Certify(ext, k, ca, nonce) == Certified(-1, k)
  {
    ValidCaIsPlainNamed(ca.kind);
  }

  /** Past the checks, key_certify returns 0 exactly when the CA's
      signature succeeds; a failed signature leaves an empty certblob,
      a successful one the signed bytes followed by the signature. Only
      the certblob changes. */
  lemma CertifySigns(ext: Externals, k: Key, ca: Key, nonce: seq<byte>)
    requires k.cert.Some? && IsCertType(k.kind) && IsValidCa(ca.kind)
    requires HasWireFields(k) && HasWireFields(ca) && k.cert.value.keyId.Some?
    ensures CanCertify(k, ca)
    ensures var tbs := CertTbs(k, nonce, BlobOf(ca, false).value);
      var r := Certify(ext, k, ca, nonce);
      r.key.cert.Some? && r.key == WithCertblob(k, r.key.cert.value.certblob) &&
      (r.rc == 0 <==> KeySign(ext, ca, tbs).Some?) &&
      (KeySign(ext, ca, tbs).None? ==> r.key.cert.value.certblob == []) &&
      (KeySign(ext, ca, tbs).Some? ==>
         r.key.cert.value.certblob == tbs + EncString(KeySign(ext, ca, tbs).value) &&
         r.key.cert.value.certblob[..|tbs|] == tbs)
  {
    TypeIsCertExactly(k.kind);
    var tbs := CertTbs(k, nonce, BlobOf(ca, false).value);
    if KeySign(ext, ca, tbs).Some? {
      assert (tbs + EncString(KeySign(ext, ca, tbs).value))[..|tbs|] == tbs;
    }
  }
}
