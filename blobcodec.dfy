// to_blob, key_from_blob2 and cert_parse as the C code runs them: over a
// Buffer, field by field, with the principals and option lists read from
// a scratch buffer in loops. Each method is proved to compute the
// function of BlobSpec that specifies it.
module BlobCodec {
  import opened Wrappers
  import opened Wire
  import opened KeyTypes
  import opened Keys
  import opened Primitives
  import opened Buffers
  import opened BlobSpec

  /** to_blob: the stored certblob for certificate types, the wire name
      and key fields for the plain types, None (length 0) otherwise. */
  method ToBlob(k: Key, forcePlain: bool) returns (r: Option<seq<byte>>)
    requires CanBlob(k, forcePlain)
    ensures r == BlobOf(k, forcePlain)
  {
    var b := new Buffer();
    var t := if forcePlain then TypePlain(k.kind) else k.kind;
    assert t == BlobType(k, forcePlain);
    if t == DsaCertV00 || t == RsaCertV00 || t == DsaCert || t == EcdsaCert || t == RsaCert || t == Ed25519Cert {
      // The existing blob.
      b.Append(k.cert.value.certblob);
      assert b.Contents() == k.cert.value.certblob;
    } else if t == Dsa || t == Ecdsa || t == Rsa || t == Ed25519 {
      assert IsValidCa(t) && !IsCertType(t);
      AtWireName(k, t);
      var name := SshNameFromTypeNid(t, k.ecdsaNid).value;
      b.PutCString(name);
      assert b.Contents() == EncCString(name);
      PutKeyFields(k, b);
      assert b.Contents() == BlobOf(k, forcePlain).value;
    } else {
      return None;
    }
    r := Some(b.Contents());
  }

  /** The plain type to_blob writes and the key agree on the family, and
      the type has a wire name. */
  lemma AtWireName(k: Key, t: KeyType)
    requires t == k.kind || t == TypePlain(k.kind)
    requires IsValidCa(t) && HasWireFields(k)
    ensures SshNameFromTypeNid(t, k.ecdsaNid).Some?
    ensures IsRsaFamily(k.kind) <==> t == Rsa
    ensures IsDsaFamily(k.kind) <==> t == Dsa
    ensures IsEcdsaFamily(k.kind) <==> t == Ecdsa
    ensures IsEd25519Family(k.kind) <==> t == Ed25519
  {
    TypeIsCertExactly(k.kind);
    TypePlainIdempotent(k.kind);
    if IsEcdsaFamily(k.kind) {
      SshNameRoundTrip(t, k.ecdsaNid);
    } else {
      SshNameRoundTrip(t, k.ecdsaNid);
    }
  }

  /** The key fields of the case of to_blob's switch for the family. */
  method PutKeyFields(k: Key, b: Buffer)
    requires b.Valid() && HasWireFields(k)
    requires IsRsaFamily(k.kind) || IsDsaFamily(k.kind) || IsEcdsaFamily(k.kind) || IsEd25519Family(k.kind)
    modifies b
    ensures b.Valid() && b.Contents() == old(b.Contents()) + PublicFields(k)
  {
    if IsDsaFamily(k.kind) {
      var d := k.dsa.value;
      PutDsaFields(d.p, d.q, d.g, d.pubKey, b);
    } else if IsEcdsaFamily(k.kind) {
      CurveTablesAgree(k.ecdsaNid);
      PutEcdsaFields(CurveNidToName(k.ecdsaNid).value, k.ecdsa.value.pub.value, b);
    } else if IsRsaFamily(k.kind) {
      PutRsaFields(k.rsa.value.e, k.rsa.value.n, b);
    } else {
      b.PutString(k.ed25519Pk.value);
    }
  }

  method PutRsaFields(e: nat, n: nat, b: Buffer)
    requires b.Valid()
    modifies b
    ensures b.Valid() && b.Contents() == old(b.Contents()) + (EncMpint(e) + EncMpint(n))
  {
    ghost var b0 := b.Contents();
    b.PutMpint(e);
    b.PutMpint(n);
    ConcatAssoc(b0, EncMpint(e), EncMpint(n));
  }

  method PutDsaFields(p: nat, q: nat, g: nat, y: nat, b: Buffer)
    requires b.Valid()
    modifies b
    ensures b.Valid() && b.Contents() == old(b.Contents()) + (EncMpint(p) + EncMpint(q) + EncMpint(g) + EncMpint(y))
  {
    ghost var b0 := b.Contents();
    b.PutMpint(p);
    b.PutMpint(q);
    b.PutMpint(g);
    b.PutMpint(y);
    ConcatAssoc5(b0, EncMpint(p), EncMpint(q), EncMpint(g), EncMpint(y));
    ConcatAssoc4(EncMpint(p), EncMpint(q), EncMpint(g), EncMpint(y));
  }

  method PutEcdsaFields(curve: CStr, point: seq<byte>, b: Buffer)
    requires b.Valid()
    modifies b
    ensures b.Valid() && b.Contents() == old(b.Contents()) + (EncCString(curve) + EncString(point))
  {
    b.PutCString(curve);
    b.PutString(point);
  }

  /** The switch of key_from_blob2 on the type, reading from `b`. */
  method DecodeFieldsFrom(ext: Externals, t: KeyType, nid: int, b: Buffer) returns (r: Option<Key>)
    requires b.Valid()
    modifies b
    ensures b.Valid()
    ensures r == ValueOf(DecodeFields(ext, t, nid, old(b.Contents())))
    ensures r.Some? ==> b.Contents() == DecodeFields(ext, t, nid, old(b.Contents())).value.rest
  {
    ghost var b0 := b.Contents();
    if t == RsaCert || t == DsaCert || t == EcdsaCert || t == Ed25519Cert {
      // The nonce; a failure to read it is ignored.
      var nonce := b.GetString();
    }
    assert b.Contents() == SkipNonce(t, b0);
    if t == Rsa || t == RsaCert || t == RsaCertV00 {
      r := ReadRsa(t, b);
    } else if t == Dsa || t == DsaCert || t == DsaCertV00 {
      r := ReadDsa(t, b);
    } else if t == Ecdsa || t == EcdsaCert {
      r := ReadEcdsa(ext, t, nid, b);
    } else if t == Ed25519 || t == Ed25519Cert {
      r := ReadEd25519(t, b);
    } else if t == Unspec {
      r := Some(KeyNew(Unspec));
    } else {
      r := None;
    }
  }

  method ReadRsa(t: KeyType, b: Buffer) returns (r: Option<Key>)
    requires t == Rsa || t == RsaCert || t == RsaCertV00
    requires b.Valid()
    modifies b
    ensures b.Valid()
    ensures r == ValueOf(DecodeRsa(t, old(b.Contents())))
    ensures r.Some? ==> b.Contents() == DecodeRsa(t, old(b.Contents())).value.rest
  {
    var e := b.GetMpint();
    if e.None? {
      return None;
    }
    var n := b.GetMpint();
    if n.None? {
      return None;
    }
    r := Some(KeyNew(t).(rsa := Some(RsaKey(n.value, e.value, None))));
  }

  method ReadDsa(t: KeyType, b: Buffer) returns (r: Option<Key>)
    requires IsDsaFamily(t)
    requires b.Valid()
    modifies b
    ensures b.Valid()
    ensures r == ValueOf(DecodeDsa(t, old(b.Contents())))
    ensures r.Some? ==> b.Contents() == DecodeDsa(t, old(b.Contents())).value.rest
  {
    var p := b.GetMpint();
    if p.None? {
      return None;
    }
    var q := b.GetMpint();
    if q.None? {
      return None;
    }
    r := ReadDsaPublic(t, p.value, q.value, b);
  }

  method ReadDsaPublic(t: KeyType, p: nat, q: nat, b: Buffer) returns (r: Option<Key>)
    requires IsDsaFamily(t)
    requires b.Valid()
    modifies b
    ensures b.Valid()
    ensures r == ValueOf(DecodeDsaPublic(t, p, q, old(b.Contents())))
    ensures r.Some? ==> b.Contents() == DecodeDsaPublic(t, p, q, old(b.Contents())).value.rest
  {
    var g := b.GetMpint();
    if g.None? {
      return None;
    }
    var y := b.GetMpint();
    if y.None? {
      return None;
    }
    r := Some(KeyNew(t).(dsa := Some(DsaKey(p, q, g.value, y.value, None))));
  }

  method ReadEcdsa(ext: Externals, t: KeyType, nid: int, b: Buffer) returns (r: Option<Key>)
    requires IsEcdsaFamily(t)
    requires b.Valid()
    modifies b
    ensures b.Valid()
    ensures r == ValueOf(DecodeEcdsa(ext, t, nid, old(b.Contents())))
    ensures r.Some? ==> b.Contents() == DecodeEcdsa(ext, t, nid, old(b.Contents())).value.rest
  {
    var curve := b.GetString();
    if curve.None? {
      return None;
    }
    if nid != CurveNameToNid(CPrefix(curve.value)) {
      return None;
    }
    // Where key.c calls EC_KEY_new_by_curve_name and is fatal on an
    // unknown curve, the curve is refused (see CurveCheckAsWritten).
    if !IsCurveNid(nid) {
      return None;
    }
    var q := b.GetEcPoint();
    if q.None? {
      return None;
    }
    if !ext.ecPublicValid(nid, q.value) {
      return None;
    }
    r := Some(KeyNew(t).(ecdsaNid := nid, ecdsa := Some(EcKey(nid, Some(q.value), None))));
  }

  method ReadEd25519(t: KeyType, b: Buffer) returns (r: Option<Key>)
    requires IsEd25519Family(t)
    requires b.Valid()
    modifies b
    ensures b.Valid()
    ensures r == ValueOf(DecodeEd25519(t, old(b.Contents())))
    ensures r.Some? ==> b.Contents() == DecodeEd25519(t, old(b.Contents())).value.rest
  {
    var pk := b.GetString();
    if pk.None? {
      return None;
    }
    if |pk.value| != ED25519_PK_SZ {
      return None;
    }
    r := Some(KeyNew(t).(ed25519Pk := Some(pk.value)));
  }

  /** key_from_blob2: the type name, the key fields, and for certificate
      types the certificate; the bytes left over are only logged. */
  method KeyFromBlob2(ext: Externals, blob: seq<byte>, allowCert: bool) returns (r: Option<Key>)
    ensures r == DecodeBlob(ext, blob, allowCert)
    decreases |blob|, 1
  {
    var b := new Buffer();
    b.Append(blob);
    assert b.Contents() == blob;
    var ktype := b.GetCString();
    if ktype.None? {
      return None;
    }
    var t := TypeFromName(ktype.value);
    var nid := -1;
    if TypePlain(t) == Ecdsa {
      nid := EcdsaNidFromName(ktype.value);
    }
    if !allowCert && TypeIsCert(t) {
      return None;
    }
    ghost var afterName := b.Contents();
    var key := DecodeFieldsFrom(ext, t, nid, b);
    if key.None? {
      return None;
    }
    if TypeIsCert(key.value.kind) {
      assert key.value.kind == t;
      r := CertParse(ext, key.value, b, blob);
    } else {
      r := key;
    }
  }

  /** The reads of cert_parse's first condition. */
  method ReadCertFieldsFrom(v00: bool, b: Buffer) returns (r: Option<CertFields>)
    requires b.Valid()
    modifies b
    ensures b.Valid()
    ensures r == ValueOf(ReadCertFields(v00, old(b.Contents())))
    ensures r.Some? ==> b.Contents() == ReadCertFields(v00, old(b.Contents())).value.rest
  {
    var serial: Option<nat> := Some(0);
    if !v00 {
      serial := b.GetU64();
      if serial.None? {
        return None;
      }
    }
    var ctype := b.GetU32();
    if ctype.None? {
      return None;
    }
    var keyId := b.GetCString();
    if keyId.None? {
      return None;
    }
    var principals := b.GetString();
    if principals.None? {
      return None;
    }
    r := ReadCertValidityFrom(v00, CertFields(serial.value, ctype.value, keyId.value, principals.value, 0, 0, [], [], []), b);
  }

  method ReadCertValidityFrom(v00: bool, c: CertFields, b: Buffer) returns (r: Option<CertFields>)
    requires b.Valid()
    modifies b
    ensures b.Valid()
    ensures r == ValueOf(ReadCertValidity(v00, c, old(b.Contents())))
    ensures r.Some? ==> b.Contents() == ReadCertValidity(v00, c, old(b.Contents())).value.rest
  {
    var va := b.GetU64();
    if va.None? {
      return None;
    }
    var vb := b.GetU64();
    if vb.None? {
      return None;
    }
    var critical := b.GetString();
    if critical.None? {
      return None;
    }
    r := ReadCertTailFrom(v00, c.(validAfter := va.value, validBefore := vb.value, critical := critical.value), b);
  }

  method ReadCertTailFrom(v00: bool, c: CertFields, b: Buffer) returns (r: Option<CertFields>)
    requires b.Valid()
    modifies b
    ensures b.Valid()
    ensures r == ValueOf(ReadCertTail(v00, c, old(b.Contents())))
    ensures r.Some? ==> b.Contents() == ReadCertTail(v00, c, old(b.Contents())).value.rest
  {
    var exts: Option<seq<byte>> := Some([]);
    if !v00 {
      exts := b.GetString();
      if exts.None? {
        return None;
      }
    }
    if v00 {
      var nonce := b.GetString();
      if nonce.None? {
        return None;
      }
    }
    var reserved := b.GetString();
    if reserved.None? {
      return None;
    }
    var sigKey := b.GetString();
    if sigKey.None? {
      return None;
    }
    r := Some(c.(extensions := exts.value, sigKey := sigKey.value));
  }

  /** The principals loop of cert_parse, over a scratch buffer. */
  method ReadPrincipals(data: seq<byte>) returns (r: Option<seq<CStr>>)
    ensures r == Principals(data, [])
  {
    var tmp := new Buffer();
    tmp.Append(data);
    assert tmp.Contents() == data;
    var ps: seq<CStr> := [];
    var len := tmp.Len();
    while len > 0
      invariant tmp.Valid() && len == |tmp.Contents()|
      invariant Principals(tmp.Contents(), ps) == Principals(data, [])
      decreases len
    {
      if |ps| >= CERT_MAX_PRINCIPALS {
        return None;
      }
      var principal := tmp.GetCString();
      if principal.None? {
        return None;
      }
      ps := ps + [principal.value];
      len := tmp.Len();
    }
    r := Some(ps);
  }

  /** The structure check of the critical options and extensions. */
  method CheckPairs(data: seq<byte>) returns (ok: bool)
    ensures ok == StringPairs(data)
  {
    var tmp := new Buffer();
    tmp.Append(data);
    assert tmp.Contents() == data;
    var len := tmp.Len();
    while len != 0
      invariant tmp.Valid() && len == |tmp.Contents()|
      invariant StringPairs(tmp.Contents()) == StringPairs(data)
      decreases len
    {
      var name := tmp.GetString();
      if name.None? {
        return false;
      }
      var value := tmp.GetString();
      if value.None? {
        return false;
      }
      len := tmp.Len();
    }
    ok := true;
  }

  /** cert_parse: the certificate of `key`, read from `b`, with the
      whole blob as its certblob; None for -1. */
  method CertParse(ext: Externals, key: Key, b: Buffer, blob: seq<byte>) returns (r: Option<Key>)
    requires b.Valid() && |b.Contents()| <= |blob|
    modifies b
    ensures ReadCert(IsLegacy(key.kind), blob, old(b.Contents())).None? ==> r.None?
    ensures var cr := ReadCert(IsLegacy(key.kind), blob, old(b.Contents()));
      cr.Some? ==> r == CheckCert(ext, key, blob, cr.value.value.fields, cr.value.value.signedLen, cr.value.value.sig,
                                  DecodeBlob(ext, cr.value.value.fields.sigKey, false))
    decreases |b.Contents()|, 0
  {
    ghost var b0 := b.Contents();
    var v00 := key.kind == DsaCertV00 || key.kind == RsaCertV00;
    assert v00 == IsLegacy(key.kind);
    // The entire blob, for verification and later serialisation.
    var certblob := new Buffer();
    certblob.Append(blob);
    assert certblob.Contents() == blob;
    var f := ReadCertFieldsFrom(v00, b);
    if f.None? {
      assert ReadCert(v00, blob, b0).None?;
      return None;
    }
    // The signature is left in the buffer to compute the signed length.
    ghost var b1 := b.Contents();
    var blobLen := certblob.Len();
    var restLen := b.Len();
    var signedLen := blobLen - restLen;
    var sig := b.GetString();
    if sig.None? {
      assert ReadCert(v00, blob, b0).None?;
      return None;
    }
    ReadCertParts(v00, blob, b0, f.value, b1, sig.value, b.Contents());
    var signed := certblob.Contents();
    assert signed == blob;
    r := CheckCertOf(ext, key, signed, f.value, signedLen, sig.value);
    ghost var cr := ReadCert(v00, blob, b0).value.value;
    assert cr.fields == f.value && cr.sig == sig.value && cr.signedLen == signedLen;
    assert r == CheckCert(ext, key, blob, cr.fields, cr.signedLen, cr.sig, DecodeBlob(ext, cr.fields.sigKey, false));
  }

  /** ReadCert is the two reads of CertParse in sequence. */
  lemma ReadCertParts(v00: bool, blob: seq<byte>, b: seq<byte>, f: CertFields, afterFields: seq<byte>,
                      sig: seq<byte>, rest: seq<byte>)
    requires |b| <= |blob|
    requires ReadCertFields(v00, b) == Some(Read(f, afterFields))
    requires ReadString(afterFields) == Some(Read(sig, rest))
    ensures ReadCert(v00, blob, b).Some? && ReadCert(v00, blob, b).value.rest == rest
    ensures ReadCert(v00, blob, b).value.value.fields == f && ReadCert(v00, blob, b).value.value.sig == sig
    ensures ReadCert(v00, blob, b).value.value.signedLen == |blob| - |afterFields|
  {
  }

  /** The checks of cert_parse after its reads. */
  method CheckCertOf(ext: Externals, key: Key, blob: seq<byte>, c: CertFields, signedLen: nat, sig: seq<byte>)
    returns (r: Option<Key>)
    requires signedLen <= |blob|
    ensures r == CheckCert(ext, key, blob, c, signedLen, sig, DecodeBlob(ext, c.sigKey, false))
    decreases |c.sigKey|, 3
  {
    if c.certType != SSH2_CERT_TYPE_USER && c.certType != SSH2_CERT_TYPE_HOST {
      return None;
    }
    var principals := ReadPrincipals(c.principals);
    if principals.None? {
      return None;
    }
    var criticalOk := CheckPairs(c.critical);
    if !criticalOk {
      return None;
    }
    var extensionsOk := CheckPairs(c.extensions);
    if !extensionsOk {
      return None;
    }
    var ca := KeyFromBlob2(ext, c.sigKey, false);
    if ca.None? {
      return None;
    }
    if !IsValidCa(ca.value.kind) {
      return None;
    }
    if KeyVerify(ext, ca.value, sig, blob[..signedLen]) != 1 {
      return None;
    }
    r := Some(key.(cert := Some(Cert(blob, c.certType, c.serial, Some(c.keyId), principals.value,
      c.validAfter, c.validBefore, c.critical, c.extensions, Some(ca.value)))));
  }
}
