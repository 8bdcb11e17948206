// The Key record of key.h and the operations of key.c that build,
// compare, copy and re-type it. A Key is a value here: the C functions
// that update a Key in place return the updated record instead.
module Keys {
  import opened Wrappers
  import opened Wire
  import opened KeyTypes

  /** An OpenSSL RSA structure: the public e and n, and the private
      parts once key_add_private has allocated them. */
  datatype RsaKey = RsaKey(n: nat, e: nat, priv: Option<RsaPriv>)
  datatype RsaPriv = RsaPriv(d: nat, iqmp: nat, q: nat, p: nat, dmq1: nat, dmp1: nat)

  /** An OpenSSL DSA structure. */
  datatype DsaKey = DsaKey(p: nat, q: nat, g: nat, pubKey: nat, privKey: Option<nat>)

  /** An OpenSSL EC_KEY: the curve it was created on, its public point
      (None until one is set), and its private scalar. The point is kept
      in its SEC 1 octet-string form. */
  datatype EcKey = EcKey(group: int, pub: Option<seq<byte>>, privKey: Option<nat>)

  /** struct Key. Fields that may be NULL are Options. */
  datatype Key = Key(
    kind: KeyType,
    flags: int,
    rsa: Option<RsaKey>,
    dsa: Option<DsaKey>,
    ecdsaNid: int,
    ecdsa: Option<EcKey>,
    cert: Option<Cert>,
    ed25519Sk: Option<seq<byte>>,
    ed25519Pk: Option<seq<byte>>)

  /** struct KeyCert. nprincipals is |principals|. */
  datatype Cert = Cert(
    certblob: seq<byte>,
    certType: nat,
    serial: nat,
    keyId: Option<CStr>,
    principals: seq<CStr>,
    validAfter: nat,
    validBefore: nat,
    critical: seq<byte>,
    extensions: seq<byte>,
    signatureKey: Option<Key>)

  /** cert_new: empty buffers, no key id, no principals, no CA key. */
  function CertNew(): (c: Cert)
    ensures c.certblob == [] && c.critical == [] && c.extensions == []
    ensures c.keyId == None && c.principals == [] && c.signatureKey == None
    ensures c.serial == 0 && c.certType == 0 && c.validAfter == 0 && c.validBefore == 0
  {
    Cert([], 0, 0, None, [], 0, 0, [], [], None)
  }

  /** key_is_cert. */
  predicate IsCert(k: Key) {
    TypeIsCert(k.kind)
  }

  /** key_new: the algorithm structure of the type's family with zeroed
      public numbers, no curve yet (nid -1), and a fresh certificate for
      certificate types. */
  function KeyNew(t: KeyType): (k: Key)
    ensures k.kind == t && k.flags == 0 && k.ecdsaNid == -1
    ensures k.rsa.Some? <==> IsRsaFamily(t)
    ensures k.dsa.Some? <==> IsDsaFamily(t)
    ensures k.ecdsa == None && k.ed25519Pk == None && k.ed25519Sk == None
    ensures k.cert.Some? <==> IsCertType(t)
    ensures k.cert.Some? ==> k.cert.value == CertNew()
    ensures !IsPrivate(k)
  {
    // key_is_cert is a table lookup; TypeIsCertExactly shows it is
    // IsCertType.
    Key(t, 0,
      if IsRsaFamily(t) then Some(RsaKey(0, 0, None)) else None,
      if IsDsaFamily(t) then Some(DsaKey(0, 0, 0, 0, None)) else None,
      -1, None,
      if IsCertType(t) then Some(CertNew()) else None,
      None, None)
  }

  /** Some private component is present. */
  predicate IsPrivate(k: Key) {
    (k.rsa.Some? && k.rsa.value.priv.Some?) ||
    (k.dsa.Some? && k.dsa.value.privKey.Some?) ||
    (k.ecdsa.Some? && k.ecdsa.value.privKey.Some?) ||
    k.ed25519Sk.Some?
  }

  /** The algorithm structure key.c dereferences without a NULL check
      is present. */
  predicate HasAlgStruct(k: Key) {
    (IsRsaFamily(k.kind) ==> k.rsa.Some?) && (IsDsaFamily(k.kind) ==> k.dsa.Some?)
  }

  /** key_add_private: zeroed private numbers for RSA and DSA; ECDSA and
      Ed25519 get theirs later. */
  function AddPrivate(k: Key): (r: Key)
    requires HasAlgStruct(k)
    ensures r.kind == k.kind && r.cert == k.cert && r.ecdsa == k.ecdsa
    ensures r.ed25519Pk == k.ed25519Pk && r.ed25519Sk == k.ed25519Sk
    ensures IsRsaFamily(k.kind) ==> r.rsa == Some(k.rsa.value.(priv := Some(RsaPriv(0, 0, 0, 0, 0, 0))))
    ensures IsDsaFamily(k.kind) ==> r.dsa == Some(k.dsa.value.(privKey := Some(0)))
    ensures !IsRsaFamily(k.kind) && !IsDsaFamily(k.kind) ==> r == k
  {
    if IsRsaFamily(k.kind) then
      k.(rsa := Some(k.rsa.value.(priv := Some(RsaPriv(0, 0, 0, 0, 0, 0)))))
    else if IsDsaFamily(k.kind) then
      k.(dsa := Some(k.dsa.value.(privKey := Some(0))))
    else k
  }

  /** key_new_private. */
  function NewPrivate(t: KeyType): (k: Key)
    ensures k.kind == t
    ensures IsPrivate(k) <==> IsRsaFamily(t) || IsDsaFamily(t)
  {
    AddPrivate(KeyNew(t))
  }

  /** cert_compare: both absent, or both present with the same certblob. */
  predicate CertCompare(a: Option<Cert>, b: Option<Cert>) {
    (a.None? && b.None?) ||
    (a.Some? && b.Some? && |a.value.certblob| == |b.value.certblob| && a.value.certblob == b.value.certblob)
  }

  /** The public part of the key's family is present. */
  predicate HasPublic(k: Key) {
    if IsRsaFamily(k.kind) then k.rsa.Some?
    else if IsDsaFamily(k.kind) then k.dsa.Some?
    else if IsEcdsaFamily(k.kind) then k.ecdsa.Some? && k.ecdsa.value.pub.Some?
    else k.ed25519Pk.Some?
  }

  /** key_equal_public: the plain types agree and the public parts of
      that family are present in both and equal. KEY_UNSPEC reaches the
      fatal default case. */
  function EqualPublic(a: Key, b: Key): (r: bool)
    requires TypePlain(a.kind) == TypePlain(b.kind) ==> a.kind != Unspec
    ensures r ==> TypePlain(a.kind) == TypePlain(b.kind) && HasPublic(a) && HasPublic(b)
  {
    if TypePlain(a.kind) != TypePlain(b.kind) then false
    else if IsRsaFamily(a.kind) then
      a.rsa.Some? && b.rsa.Some? && a.rsa.value.e == b.rsa.value.e && a.rsa.value.n == b.rsa.value.n
    else if IsDsaFamily(a.kind) then
      a.dsa.Some? && b.dsa.Some? &&
      a.dsa.value.p == b.dsa.value.p && a.dsa.value.q == b.dsa.value.q &&
      a.dsa.value.g == b.dsa.value.g && a.dsa.value.pubKey == b.dsa.value.pubKey
    else if IsEcdsaFamily(a.kind) then
      if a.ecdsa.None? || b.ecdsa.None? || a.ecdsa.value.pub.None? || b.ecdsa.value.pub.None? then false
      else a.ecdsa.value.group == b.ecdsa.value.group && a.ecdsa.value.pub == b.ecdsa.value.pub
    else
      a.ed25519Pk.Some? && b.ed25519Pk.Some? && a.ed25519Pk.value == b.ed25519Pk.value
  }

  /** key_equal: same type, the same certblob for certificates, and
      equal public parts. */
  function Equal(a: Key, b: Key): (r: bool)
    requires a.kind == b.kind ==> a.kind != Unspec
    ensures r ==> a.kind == b.kind && EqualPublic(a, b)
    ensures r ==> IsCert(a) ==> CertCompare(a.cert, b.cert)
  {
    if a.kind != b.kind then false
    else if IsCert(a) && !CertCompare(a.cert, b.cert) then false
    else EqualPublic(a, b)
  }

  /** `r` is the bit length of `n`: the least r with n < 2^r. */
  predicate IsBitLength(n: nat, r: nat) {
    n < Pow2(r) && (r > 0 ==> Pow2(r - 1) <= n)
  }

  lemma BitsIsBitLength(n: nat)
    ensures IsBitLength(n, Bits(n))
  {
    BitsBounds(n);
  }

  /** key_size: the modulus bits for RSA, the bits of p for DSA, 256 for
      Ed25519, the curve size for ECDSA; 0 for the rest, which includes
      KEY_ED25519_CERT. */
  function KeySize(k: Key): (r: nat)
    requires HasAlgStruct(k)
    ensures IsRsaFamily(k.kind) ==> IsBitLength(k.rsa.value.n, r)
    ensures IsDsaFamily(k.kind) ==> IsBitLength(k.dsa.value.p, r)
    ensures k.kind == Ed25519 ==> r == 256
    ensures IsEcdsaFamily(k.kind) ==> (r != 0 <==> IsCurveNid(k.ecdsaNid))
    ensures k.kind == Ed25519Cert || k.kind == Unspec ==> r == 0
  {
    if IsRsaFamily(k.kind) then
      BitsIsBitLength(k.rsa.value.n);
      Bits(k.rsa.value.n)
    else if IsDsaFamily(k.kind) then
      BitsIsBitLength(k.dsa.value.p);
      Bits(k.dsa.value.p)
    else if k.kind == Ed25519 then 256
    else if IsEcdsaFamily(k.kind) then CurveNidToBits(k.ecdsaNid)
    else 0
  }

  /** What key_from_private, key_demote and key_cert_copy need to stay
      clear of their fatal paths: a known type; the algorithm structure
      present; for ECDSA a known curve, which is the EC key's own, and a
      public point; at most CERT_MAX_PRINCIPALS principals; and the same
      of the CA key. */
  predicate Copyable(k: Key)
    decreases k
  {
    k.kind != Unspec && HasAlgStruct(k) &&
    (IsEcdsaFamily(k.kind) ==>
      IsCurveNid(k.ecdsaNid) && k.ecdsa.Some? && k.ecdsa.value.group == k.ecdsaNid && k.ecdsa.value.pub.Some?) &&
    (k.cert.Some? ==>
      |k.cert.value.principals| <= CERT_MAX_PRINCIPALS &&
      (k.cert.value.signatureKey.Some? ==> Copyable(k.cert.value.signatureKey.value)))
  }

  /** The public half of each algorithm structure, with nothing
      private. */
  function PublicParts(k: Key, into: Key): (r: Key)
    requires HasAlgStruct(k) && (IsEcdsaFamily(k.kind) ==> k.ecdsa.Some?)
    ensures r.kind == into.kind && r.flags == into.flags && r.cert == into.cert
  {
    if IsRsaFamily(k.kind) then
      into.(rsa := Some(RsaKey(k.rsa.value.n, k.rsa.value.e, None)))
    else if IsDsaFamily(k.kind) then
      into.(dsa := Some(DsaKey(k.dsa.value.p, k.dsa.value.q, k.dsa.value.g, k.dsa.value.pubKey, None)))
    else if IsEcdsaFamily(k.kind) then
      into.(ecdsaNid := k.ecdsaNid, ecdsa := Some(EcKey(k.ecdsaNid, k.ecdsa.value.pub, None)))
    else
      into.(ed25519Pk := k.ed25519Pk)
  }

  /** key_from_private: a fresh key of the same type carrying only the
      public parts; flags are not copied (key_new clears them); the
      certificate is copied for certificate types. */
  function FromPrivate(k: Key): (r: Key)
    requires Copyable(k)
    ensures r.kind == k.kind && r.flags == 0
    decreases k, 1
  {
    var n := PublicParts(k, KeyNew(k.kind));
    if IsCert(k) then CertCopy(k, n) else n
  }

  /** key_cert_copy: `to` gets a copy of `from`'s certificate, or none;
      the CA key is copied with key_from_private. */
  function CertCopy(from: Key, to: Key): (r: Key)
    requires Copyable(from)
    ensures r == to.(cert := r.cert)
    ensures r.cert.Some? <==> from.cert.Some?
    ensures r.cert.Some? ==> r.cert.value.certblob == from.cert.value.certblob
    ensures r.cert.Some? ==> r.cert.value.principals == from.cert.value.principals
    ensures r.cert.Some? ==> r.cert.value == from.cert.value.(signatureKey := r.cert.value.signatureKey)
    ensures r.cert.Some? ==> r.cert.value.signatureKey.Some? == from.cert.value.signatureKey.Some?
    decreases from, 0
  {
    if from.cert.None? then to.(cert := None)
    else
      var c := from.cert.value;
      to.(cert := Some(c.(signatureKey := if c.signatureKey.None? then None else Some(FromPrivate(c.signatureKey.value)))))
  }

  /** key_demote: like key_from_private but without key_new, so `flags`
      survives; the certificate is copied for certificate types. */
  function Demote(k: Key): (r: Key)
    requires Copyable(k)
    ensures r.kind == k.kind && r.flags == k.flags
  {
    var pk := Key(k.kind, k.flags, None, None, k.ecdsaNid, None, None, None, None);
    var pk := if IsCert(k) then CertCopy(k, pk) else pk;
    PublicParts(k, pk)
  }

  /** key_to_certified: the certificate type of a plain key with a fresh
      certificate, or None (-1, key unchanged) for any other type. A
      legacy ECDSA or Ed25519 certificate is fatal. */
  function ToCertified(k: Key, legacy: bool): (r: Option<Key>)
    requires legacy ==> k.kind != Ecdsa && k.kind != Ed25519
    ensures r.Some? <==> IsValidCa(k.kind)
    ensures r.Some? ==> r.value == k.(kind := r.value.kind, cert := Some(CertNew()))
  {
    match k.kind
    case Rsa => Some(k.(cert := Some(CertNew()), kind := if legacy then RsaCertV00 else RsaCert))
    case Dsa => Some(k.(cert := Some(CertNew()), kind := if legacy then DsaCertV00 else DsaCert))
    case Ecdsa => Some(k.(cert := Some(CertNew()), kind := EcdsaCert))
    case Ed25519 => Some(k.(cert := Some(CertNew()), kind := Ed25519Cert))
    case _ => None
  }

  /** key_drop_cert: the plain type without a certificate, or None (-1,
      key unchanged) for a key that is not a certificate type. cert_free
      dereferences the certificate, so a certificate type must carry one. */
  function DropCert(k: Key): (r: Option<Key>)
    requires TypeIsCert(k.kind) ==> k.cert.Some?
    ensures r.Some? <==> TypeIsCert(k.kind)
    ensures r.Some? ==> r.value == k.(kind := TypePlain(k.kind), cert := None)
  {
    if !TypeIsCert(k.kind) then None
    else Some(k.(cert := None, kind := TypePlain(k.kind)))
  }

  // ---------------------------------------------------------------
  // Properties.

  /** key_equal_public is an equivalence on the keys whose public part
      is present, and it ignores the certificate. */
  lemma EqualPublicReflexive(k: Key)
    requires k.kind != Unspec
    ensures EqualPublic(k, k) <==> HasPublic(k)
  {
  }

  lemma EqualPublicSymmetric(a: Key, b: Key)
    requires TypePlain(a.kind) == TypePlain(b.kind) ==> a.kind != Unspec
    ensures EqualPublic(a, b) == EqualPublic(b, a)
  {
    if TypePlain(a.kind) == TypePlain(b.kind) {
      TypePlainIdempotent(a.kind);
      TypePlainIdempotent(b.kind);
    }
  }

  lemma EqualPublicTransitive(a: Key, b: Key, c: Key)
    requires a.kind != Unspec && b.kind != Unspec
    requires EqualPublic(a, b) && EqualPublic(b, c)
    ensures EqualPublic(a, c)
  {
    TypePlainIdempotent(a.kind);
    TypePlainIdempotent(b.kind);
  }

  /** A certificate and its plain key are equal in their public parts. */
  lemma EqualPublicIgnoresCert(k: Key)
    requires IsCertType(k.kind) && HasPublic(k) && k.cert.Some?
    ensures DropCert(k).Some? && EqualPublic(k, DropCert(k).value)
  {
    TypeIsCertExactly(k.kind);
    TypePlainIdempotent(k.kind);
  }

  /** key_equal is symmetric and implies key_equal_public. */
  lemma EqualSymmetric(a: Key, b: Key)
    requires a.kind == b.kind ==> a.kind != Unspec
    ensures Equal(a, b) == Equal(b, a)
  {
    if a.kind == b.kind {
      EqualPublicSymmetric(a, b);
    }
  }

  /** Every component key_free would release, and any CA key's, is public. */
  predicate PublicOnly(k: Key)
    decreases k
  {
    !IsPrivate(k) &&
    (k.cert.Some? && k.cert.value.signatureKey.Some? ==> PublicOnly(k.cert.value.signatureKey.value))
  }

  /** key_from_private keeps the type, the public part and the
      certificate, drops every private part, including the CA key's, and
      gives a key it can copy again. */
  lemma {:induction false} FromPrivateIsPublic(k: Key)
    requires Copyable(k)
    ensures PublicOnly(FromPrivate(k)) && Copyable(FromPrivate(k))
    ensures HasPublic(FromPrivate(k)) == HasPublic(k)
    ensures IsCert(k) ==> FromPrivate(k).cert.Some? == k.cert.Some?
    decreases k
  {
    if IsCert(k) && k.cert.Some? && k.cert.value.signatureKey.Some? {
      FromPrivateIsPublic(k.cert.value.signatureKey.value);
    }
  }

  /** key_demote is key_from_private except that it keeps `flags` and
      `ecdsa_nid`, which key_new resets. */
  lemma DemoteIsFromPrivate(k: Key)
    requires Copyable(k)
    ensures Demote(k) == FromPrivate(k).(flags := k.flags, ecdsaNid := k.ecdsaNid)
  {
    TypeIsCertExactly(k.kind);
  }

  /** A key made by key_from_private is key_equal to the original. */
  lemma FromPrivateEqual(k: Key)
    requires Copyable(k) && HasPublic(k)
    requires IsCert(k) ==> k.cert.Some?
    ensures Equal(k, FromPrivate(k))
  {
    var f := FromPrivate(k);
    FromPrivateIsPublic(k);
    assert EqualPublic(k, f) by {
      TypePlainIdempotent(k.kind);
    }
  }

  /** key_equal reads neither `flags` nor `ecdsa_nid`. */
  lemma EqualIgnoresFlags(a: Key, b: Key, flags: int, nid: int)
    requires a.kind == b.kind ==> a.kind != Unspec
    ensures Equal(a, b.(flags := flags, ecdsaNid := nid)) == Equal(a, b)
  {
  }

  /** A demoted key is key_equal to the original, and has no private part. */
  lemma DemoteEqual(k: Key)
    requires Copyable(k) && HasPublic(k)
    requires IsCert(k) ==> k.cert.Some?
    ensures Equal(k, Demote(k))
    ensures PublicOnly(Demote(k))
  {
    DemoteIsFromPrivate(k);
    FromPrivateIsPublic(k);
    FromPrivateEqual(k);
    EqualIgnoresFlags(k, FromPrivate(k), k.flags, k.ecdsaNid);
  }

  /** key_from_private is idempotent. */
  lemma {:induction false} FromPrivateIdempotent(k: Key)
    requires Copyable(k)
    ensures Copyable(FromPrivate(k))
    ensures FromPrivate(FromPrivate(k)) == FromPrivate(k)
    decreases k
  {
    FromPrivateIsPublic(k);
    if IsCert(k) && k.cert.Some? && k.cert.value.signatureKey.Some? {
      FromPrivateIdempotent(k.cert.value.signatureKey.value);
    }
  }

  /** key_drop_cert undoes key_to_certified, whose result is a
      certificate type that is legacy exactly when asked. */
  lemma DropCertUndoesToCertified(k: Key, legacy: bool)
    requires legacy ==> k.kind != Ecdsa && k.kind != Ed25519
    requires IsValidCa(k.kind)
    ensures TypeIsCert(ToCertified(k, legacy).value.kind)
    ensures IsLegacy(ToCertified(k, legacy).value.kind) == legacy
    ensures TypePlain(ToCertified(k, legacy).value.kind) == k.kind
    ensures DropCert(ToCertified(k, legacy).value) == Some(k.(cert := None))
  {
    TypeIsCertExactly(ToCertified(k, legacy).value.kind);
  }

  /** key_to_certified undoes key_drop_cert, up to a fresh certificate:
      the legacy flag is recovered from the type. */
  lemma ToCertifiedUndoesDropCert(k: Key)
    requires TypeIsCert(k.kind) && k.cert.Some?
    ensures IsValidCa(DropCert(k).value.kind)
    ensures ToCertified(DropCert(k).value, IsLegacy(k.kind)) == Some(k.(cert := Some(CertNew())))
  {
    TypeIsCertExactly(k.kind);
  }

  /** key_cert_copy copies the CA key with key_from_private: the copy
      holds nothing private and is key_equal to the CA key. */
  lemma CertCopyCaKey(from: Key, to: Key)
    requires Copyable(from) && from.cert.Some? && from.cert.value.signatureKey.Some?
    requires var ca := from.cert.value.signatureKey.value; Copyable(ca) && HasPublic(ca) && (IsCert(ca) ==> ca.cert.Some?)
    ensures CertCopy(from, to).cert.Some? && CertCopy(from, to).cert.value.signatureKey.Some?
    ensures var ca := from.cert.value.signatureKey.value;
      var copy := CertCopy(from, to).cert.value.signatureKey.value;
      PublicOnly(copy) && Equal(ca, copy)
  {
    var ca := from.cert.value.signatureKey.value;
    FromPrivateIsPublic(ca);
    FromPrivateEqual(ca);
  }
}
