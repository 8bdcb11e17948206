// The public key blob of key.c as functions over byte sequences: what
// to_blob writes, and what key_from_blob2 and cert_parse read back. The
// methods of BlobCodec, which work on a Buffer as the C code does, are
// proved equal to these functions.
module BlobSpec {
  import opened Wrappers
  import opened Wire
  import opened KeyTypes
  import opened Keys
  import opened Primitives

  // ---------------------------------------------------------------
  // Writing (to_blob).

  /** What to_blob and key_certify dereference for the key's family:
      the RSA or DSA structure; for ECDSA a known curve (a NULL curve
      name would be passed to strlen) and a public point; for Ed25519 the
      ED25519_PK_SZ bytes of the public key. */
  predicate HasWireFields(k: Key) {
    (IsRsaFamily(k.kind) ==> k.rsa.Some?) &&
    (IsDsaFamily(k.kind) ==> k.dsa.Some?) &&
    (IsEcdsaFamily(k.kind) ==> IsCurveNid(k.ecdsaNid) && k.ecdsa.Some? && k.ecdsa.value.pub.Some?) &&
    (IsEd25519Family(k.kind) ==> k.ed25519Pk.Some? && |k.ed25519Pk.value| == ED25519_PK_SZ)
  }

  /** The key fields of the blob, after the type name: e, n for RSA and
      p, q, g, y for DSA (section 6.6 of RFC 4253); the curve name and
      the point for ECDSA (section 3.1 of RFC 5656); the 32-byte key for
      Ed25519 (section 4 of RFC 8709). */
  function PublicFields(k: Key): seq<byte>
    requires HasWireFields(k)
  {
    if IsRsaFamily(k.kind) then
      EncMpint(k.rsa.value.e) + EncMpint(k.rsa.value.n)
    else if IsDsaFamily(k.kind) then
      var d := k.dsa.value;
      EncMpint(d.p) + EncMpint(d.q) + EncMpint(d.g) + EncMpint(d.pubKey)
    else if IsEcdsaFamily(k.kind) then
      EncCString(CurveNidToName(k.ecdsaNid).value) + EncString(k.ecdsa.value.pub.value)
    else if IsEd25519Family(k.kind) then
      EncString(k.ed25519Pk.value)
    else []
  }

  /** The type to_blob switches on. */
  function BlobType(k: Key, forcePlain: bool): KeyType {
    if forcePlain then TypePlain(k.kind) else k.kind
  }

  /** What to_blob dereferences: the certificate for certificate types,
      the key fields for plain types. */
  predicate CanBlob(k: Key, forcePlain: bool) {
    var t := BlobType(k, forcePlain);
    (IsCertType(t) ==> k.cert.Some?) && (IsValidCa(t) ==> HasWireFields(k))
  }

  /** to_blob: the stored certblob for certificate types; the wire name
      and the key fields for plain types; None (0) for RSA1 and
      KEY_UNSPEC. */
  function BlobOf(k: Key, forcePlain: bool): (r: Option<seq<byte>>)
    requires CanBlob(k, forcePlain)
    ensures r.None? <==> BlobType(k, forcePlain) == Rsa1 || BlobType(k, forcePlain) == Unspec
    ensures IsCertType(BlobType(k, forcePlain)) ==> r == Some(k.cert.value.certblob)
  {
    var t := BlobType(k, forcePlain);
    if IsCertType(t) then Some(k.cert.value.certblob)
    else if IsValidCa(t) then Some(EncCString(SshNameFromTypeNid(t, k.ecdsaNid).value) + PublicFields(k))
    else None
  }

  // ---------------------------------------------------------------
  // Reading (key_from_blob2).

  /** The -v01 certificate types carry a nonce before the key fields;
      a failure to read it is ignored. */
  function SkipNonce(t: KeyType, b: seq<byte>): (r: seq<byte>)
    ensures |r| <= |b|
  {
    if t == RsaCert || t == DsaCert || t == EcdsaCert || t == Ed25519Cert then RestAfter(ReadString(b), b)
    else b
  }

  /** The curve check: the curve named in the blob must be the one the
      type name gave, and it must be a curve EC_KEY_new_by_curve_name
      knows. */
  predicate CurveAccepted(nid: int, curve: seq<byte>) {
    nid == CurveNameToNid(CPrefix(curve)) && IsCurveNid(nid)
  }

  /** RSA: e, then n. */
  function DecodeRsa(t: KeyType, c: seq<byte>): (r: Option<Read<Key>>)
    requires t == Rsa || t == RsaCert || t == RsaCertV00
    ensures r.Some? ==> |r.value.rest| <= |c| && r.value.value.kind == t
    ensures r.Some? ==> HasWireFields(r.value.value)
  {
    var e :- ReadMpint(c);
    var n :- ReadMpint(e.rest);
    Some(Read(KeyNew(t).(rsa := Some(RsaKey(n.value, e.value, None))), n.rest))
  }

  /** DSA: p, q, g, then the public value. */
  function DecodeDsa(t: KeyType, c: seq<byte>): (r: Option<Read<Key>>)
    requires IsDsaFamily(t)
    ensures r.Some? ==> |r.value.rest| <= |c| && r.value.value.kind == t
    ensures r.Some? ==> HasWireFields(r.value.value)
  {
    var p :- ReadMpint(c);
    var q :- ReadMpint(p.rest);
    DecodeDsaPublic(t, p.value, q.value, q.rest)
  }

  /** The second half of the DSA fields: g and the public value. */
  function DecodeDsaPublic(t: KeyType, p: nat, q: nat, c: seq<byte>): (r: Option<Read<Key>>)
    requires IsDsaFamily(t)
    ensures r.Some? ==> |r.value.rest| <= |c| && r.value.value.kind == t
    ensures r.Some? ==> HasWireFields(r.value.value)
  {
    var g :- ReadMpint(c);
    var y :- ReadMpint(g.rest);
    Some(Read(KeyNew(t).(dsa := Some(DsaKey(p, q, g.value, y.value, None))), y.rest))
  }

  /** ECDSA: the curve name, which must be the expected curve, then a
      point that must be valid on it. */
  function DecodeEcdsa(ext: Externals, t: KeyType, nid: int, c: seq<byte>): (r: Option<Read<Key>>)
    requires IsEcdsaFamily(t)
    ensures r.Some? ==> |r.value.rest| <= |c| && r.value.value.kind == t
    ensures r.Some? ==> HasWireFields(r.value.value) && r.value.value.ecdsaNid == nid && IsCurveNid(nid)
    ensures r.Some? ==> r.value.value.ecdsa.value.group == nid
  {
    var curve :- ReadString(c);
    if !CurveAccepted(nid, curve.value) then None
    else
      var q :- ReadEcPoint(curve.rest);
      if !ext.ecPublicValid(nid, q.value) then None
      else Some(Read(KeyNew(t).(ecdsaNid := nid, ecdsa := Some(EcKey(nid, Some(q.value), None))), q.rest))
  }

  /** Ed25519: a string of exactly ED25519_PK_SZ bytes. */
  function DecodeEd25519(t: KeyType, c: seq<byte>): (r: Option<Read<Key>>)
    requires IsEd25519Family(t)
    ensures r.Some? ==> |r.value.rest| <= |c| && r.value.value.kind == t
    ensures r.Some? ==> HasWireFields(r.value.value)
  {
    var pk :- ReadString(c);
    if |pk.value| != ED25519_PK_SZ then None
    else Some(Read(KeyNew(t).(ed25519Pk := Some(pk.value)), pk.rest))
  }

  /** The switch of key_from_blob2 on the type: the key fields of the
      type's family, read into a fresh key_new key; KEY_UNSPEC reads
      nothing, and RSA1 reaches the default case. */
  function DecodeFields(ext: Externals, t: KeyType, nid: int, b: seq<byte>): (r: Option<Read<Key>>)
    ensures r.Some? ==> |r.value.rest| <= |b| && r.value.value.kind == t
    ensures r.Some? && t != Unspec ==> HasWireFields(r.value.value)
    ensures r.Some? && IsEcdsaFamily(t) ==> r.value.value.ecdsaNid == nid && r.value.value.ecdsa.value.group == nid
  {
    var c := SkipNonce(t, b);
    if t == Rsa || t == RsaCert || t == RsaCertV00 then DecodeRsa(t, c)
    else if IsDsaFamily(t) then DecodeDsa(t, c)
    else if IsEcdsaFamily(t) then DecodeEcdsa(ext, t, nid, c)
    else if IsEd25519Family(t) then DecodeEd25519(t, c)
    else if t == Unspec then Some(Read(KeyNew(Unspec), b))
    else None
  }

  /** The curve key_from_blob2 expects: key_ecdsa_nid_from_name of the
      type name for the ECDSA family, -1 otherwise. */
  function NidOfName(t: KeyType, name: CStr): int {
    if TypePlain(t) == Ecdsa then EcdsaNidFromName(name) else -1
  }

  /** key_from_blob2 with the bytes it leaves unread (which it only
      logs). */
  function ParseBlob(ext: Externals, blob: seq<byte>, allowCert: bool): (r: Option<Read<Key>>)
    ensures r.Some? ==> |r.value.rest| <= |blob|
    ensures r.Some? ==> ReadCString(blob).Some? && r.value.value.kind == TypeFromName(ReadCString(blob).value.value)
    ensures r.Some? && !allowCert ==> !TypeIsCert(r.value.value.kind)
    decreases |blob|, 1
  {
    var ktype :- ReadCString(blob);
    var t := TypeFromName(ktype.value);
    if !allowCert && TypeIsCert(t) then None
    else
      var body :- DecodeFields(ext, t, NidOfName(t, ktype.value), ktype.rest);
      if TypeIsCert(t) then
        // cert_parse: the reads, then the checks with the CA key decoded.
        var cr :- ReadCert(IsLegacy(t), blob, body.rest);
        var k :- CheckCert(ext, body.value, blob, cr.value.fields, cr.value.signedLen, cr.value.sig,
                           DecodeBlob(ext, cr.value.fields.sigKey, false));
        Some(Read(k, cr.rest))
      else Some(body)
  }

  /** key_from_blob2. */
  function DecodeBlob(ext: Externals, blob: seq<byte>, allowCert: bool): (r: Option<Key>)
    ensures r.Some? ==> ReadCString(blob).Some? && r.value.kind == TypeFromName(ReadCString(blob).value.value)
    ensures r.Some? && !allowCert ==> !TypeIsCert(r.value.kind)
    decreases |blob|, 2
  {
    ValueOf(ParseBlob(ext, blob, allowCert))
  }

  // ---------------------------------------------------------------
  // Certificates (cert_parse).

  /** The fields cert_parse reads in its first condition. */
  datatype CertFields = CertFields(
    serial: nat, certType: nat, keyId: CStr, principals: seq<byte>,
    validAfter: nat, validBefore: nat, critical: seq<byte>, extensions: seq<byte>,
    sigKey: seq<byte>)

  /** The reads of cert_parse up to the CA key, in order: no serial and
      no extensions in the legacy format, where the nonce follows the
      critical options; then the reserved string and the CA key. Each
      part reads a few fields into `c`. */
  function ReadCertFields(v00: bool, b: seq<byte>): (r: Option<Read<CertFields>>)
    ensures r.Some? ==> |r.value.value.sigKey| + |r.value.rest| < |b|
  {
    var serial :- if v00 then Some(Read(0, b)) else ReadU64(b);
    var ctype :- ReadU32(serial.rest);
    var keyId :- ReadCString(ctype.rest);
    var principals :- ReadString(keyId.rest);
    ReadCertValidity(v00, CertFields(serial.value, ctype.value, keyId.value, principals.value, 0, 0, [], [], []), principals.rest)
  }

  /** The validity interval and the critical options. */
  function ReadCertValidity(v00: bool, c: CertFields, b: seq<byte>): (r: Option<Read<CertFields>>)
    ensures r.Some? ==> |r.value.value.sigKey| + |r.value.rest| < |b|
    ensures r.Some? ==> r.value.value.serial == c.serial && r.value.value.certType == c.certType
    ensures r.Some? ==> r.value.value.keyId == c.keyId && r.value.value.principals == c.principals
  {
    var va :- ReadU64(b);
    var vb :- ReadU64(va.rest);
    var critical :- ReadString(vb.rest);
    ReadCertTail(v00, c.(validAfter := va.value, validBefore := vb.value, critical := critical.value), critical.rest)
  }

  /** The extensions or the legacy nonce, the reserved string and the CA key. */
  function ReadCertTail(v00: bool, c: CertFields, b: seq<byte>): (r: Option<Read<CertFields>>)
    ensures r.Some? ==> |r.value.value.sigKey| + |r.value.rest| < |b|
    ensures r.Some? ==> r.value.value == c.(extensions := r.value.value.extensions, sigKey := r.value.value.sigKey)
  {
    var exts :- if v00 then Some(Read([], b)) else ReadString(b);
    var nonce :- if v00 then ReadString(exts.rest) else Some(Read([], exts.rest));
    var reserved :- ReadString(nonce.rest);
    var sigKey :- ReadString(reserved.rest);
    Some(Read(c.(extensions := exts.value, sigKey := sigKey.value), sigKey.rest))
  }

  /** The principals loop: C strings until the data is used up; reading
      with CERT_MAX_PRINCIPALS already collected is an error. */
  function Principals(b: seq<byte>, acc: seq<CStr>): Option<seq<CStr>>
    decreases |b|
  {
    if b == [] then Some(acc)
    else if |acc| >= CERT_MAX_PRINCIPALS then None
    else
      var p :- ReadCString(b);
      Principals(p.rest, acc + [p.value])
  }

  /** The structure check of the critical options and extensions: the
      data is a whole number of pairs of strings. */
  predicate StringPairs(b: seq<byte>)
    decreases |b|
  {
    if b == [] then true
    else
      match ReadString(b)
      case None => false
      case Some(name) =>
        match ReadString(name.rest)
        case None => false
        case Some(data) => StringPairs(data.rest)
  }

  /** What cert_parse reads: the fields, the signed length and the
      signature. */
  datatype CertRead = CertRead(fields: CertFields, signedLen: nat, sig: seq<byte>)

  /** The reads of cert_parse on the unread part `b` of `blob`; the
      signed span is the blob up to the signature. */
  function ReadCert(v00: bool, blob: seq<byte>, b: seq<byte>): (r: Option<Read<CertRead>>)
    requires |b| <= |blob|
    ensures r.Some? ==> r.value.value.signedLen <= |blob| && |r.value.value.fields.sigKey| < |b| && |r.value.rest| <= |b|
  {
    var f :- ReadCertFields(v00, b);
    var sig :- ReadString(f.rest);
    Some(Read(CertRead(f.value, |blob| - |f.rest|, sig.value), sig.rest))
  }

  /** The checks of cert_parse after the reads, in order: the
      certificate type, the principals, the structure of the option
      lists, the CA key (`sigKey`, the decoding of the CA blob) and its
      signature over the signed span. */
  function CheckCert(ext: Externals, key: Key, blob: seq<byte>, c: CertFields, signedLen: nat, sig: seq<byte>,
                     sigKey: Option<Key>): (r: Option<Key>)
    requires signedLen <= |blob|
    ensures r.Some? ==> r.value == key.(cert := r.value.cert)
    ensures r.Some? ==> r.value.cert.Some? && r.value.cert.value.certblob == blob
    ensures r.Some? ==> sigKey.Some? && r.value.cert.value.signatureKey == sigKey
  {
    if c.certType != SSH2_CERT_TYPE_USER && c.certType != SSH2_CERT_TYPE_HOST then None
    else
      var principals :- Principals(c.principals, []);
      if !StringPairs(c.critical) || !StringPairs(c.extensions) then None
      else
        var ca :- sigKey;
        if !IsValidCa(ca.kind) then None
        else if KeyVerify(ext, ca, sig, blob[..signedLen]) != 1 then None
        else
          Some(key.(cert := Some(Cert(blob, c.certType, c.serial, Some(c.keyId), principals,
            c.validAfter, c.validBefore, c.critical, c.extensions, Some(ca)))))
  }
}
