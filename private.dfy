// key_private_serialize and key_private_deserialize: the format in
// which a private key travels, for instance to the agent. It is the
// type name, then per type the public and private numbers, or for a
// certificate type its certblob followed by the private numbers only.
module PrivateFormat {
  import opened Wrappers
  import opened Wire
  import opened KeyTypes
  import opened Keys
  import opened Primitives
  import opened BlobSpec
  import opened BlobProps
  import opened Buffers

  // ---------------------------------------------------------------
  // key_private_serialize.

  /** What key_private_serialize needs: a name (RSA1 has none), the
      certblob of a certificate type (its absence is fatal), and the
      structures and numbers it dereferences; the curve of a plain ECDSA
      key has a name, and the Ed25519 buffers have their fixed sizes. */
  predicate SerializeSafe(k: Key) {
    && k.kind != Rsa1
    && (IsCertType(k.kind) ==> k.cert.Some? && |k.cert.value.certblob| > 0)
    && (IsRsaFamily(k.kind) ==> k.rsa.Some? && k.rsa.value.priv.Some?)
    && (IsDsaFamily(k.kind) ==> k.dsa.Some? && k.dsa.value.privKey.Some?)
    && (IsEcdsaFamily(k.kind) ==> k.ecdsa.Some? && k.ecdsa.value.privKey.Some?)
    && (k.kind == Ecdsa ==> CurveNidToName(k.ecdsaNid).Some? && k.ecdsa.value.pub.Some?)
    && (IsEd25519Family(k.kind) ==>
          && k.ed25519Pk.Some? && |k.ed25519Pk.value| == ED25519_PK_SZ
          && k.ed25519Sk.Some? && |k.ed25519Sk.value| == ED25519_SK_SZ)
  }

  /** The fields after the name, in the order of each case: n, e, d,
      iqmp, p, q for RSA; p, q, g, y, x for DSA; the curve name, the
      point and the exponent for ECDSA; the public then the secret key
      for Ed25519. A certificate type writes its certblob in place of the
      public fields, then the private numbers of CertTail. KEY_UNSPEC has
      no case and writes nothing. */
  function PrivateFields(k: Key): (r: seq<byte>)
    requires SerializeSafe(k)
    ensures r == [] <==> k.kind == Unspec
  {
    match k.kind
    case Rsa =>
      var r := k.rsa.value;
      var v := r.priv.value;
      EncMpint(r.n) + EncMpint(r.e) + EncMpint(v.d) + EncMpint(v.iqmp) + EncMpint(v.p) + EncMpint(v.q)
    case Dsa =>
      var d := k.dsa.value;
      EncMpint(d.p) + EncMpint(d.q) + EncMpint(d.g) + EncMpint(d.pubKey) + EncMpint(d.privKey.value)
    case Ecdsa =>
      EncCString(CurveNidToName(k.ecdsaNid).value) + EncString(k.ecdsa.value.pub.value) +
      EncMpint(k.ecdsa.value.privKey.value)
    case Ed25519 =>
      EncString(k.ed25519Pk.value) + EncString(k.ed25519Sk.value)
    case RsaCertV00 | RsaCert | DsaCertV00 | DsaCert | EcdsaCert | Ed25519Cert =>
      EncString(k.cert.value.certblob) + CertTail(k)
    case Rsa1 | Unspec => []
  }

  /** What a certificate type writes after its certblob: d, iqmp, p, q
      for RSA; the private value for DSA and ECDSA; the public then the
      secret key for Ed25519. */
  function CertTail(k: Key): seq<byte>
    requires SerializeSafe(k) && IsCertType(k.kind)
  {
    if IsRsaFamily(k.kind) then
      var v := k.rsa.value.priv.value;
      EncMpint(v.d) + EncMpint(v.iqmp) + EncMpint(v.p) + EncMpint(v.q)
    else if IsDsaFamily(k.kind) then EncMpint(k.dsa.value.privKey.value)
    else if IsEcdsaFamily(k.kind) then EncMpint(k.ecdsa.value.privKey.value)
    else EncString(k.ed25519Pk.value) + EncString(k.ed25519Sk.value)
  }

  /** The whole serialization: key_ssh_name as a C string, then the
      fields. */
  function PrivateBlob(k: Key): (r: seq<byte>)
    requires SerializeSafe(k)
    ensures ReadString(r).Some? && ReadString(r).value.rest == PrivateFields(k)
    ensures CPrefix(ReadString(r).value.value) == SshNameFromTypeNid(k.kind, k.ecdsaNid).value
  {
    var name := SshNameFromTypeNid(k.kind, k.ecdsaNid).value;
    SshNameShort(k.kind, k.ecdsaNid);
    ReadStringEnc(ToBytes(name), PrivateFields(k));
    CPrefixOfCStr(name);
    EncCString(name) + PrivateFields(k)
  }

  /** key_private_serialize, appending to the buffer. */
  method Serialize(k: Key, b: Buffer)
    requires b.Valid() && SerializeSafe(k)
    modifies b
    ensures b.Valid() && b.Contents() == old(b.Contents()) + PrivateBlob(k)
  {
    ghost var b0 := b.Contents();
    var name := SshNameFromTypeNid(k.kind, k.ecdsaNid).value;
    b.PutCString(name);
    ghost var b1 := b.Contents();
    PutPrivateFields(k, b);
    ConcatAssoc(b0, EncCString(name), PrivateFields(k));
  }

  /** The switch of key_private_serialize on the type. */
  method PutPrivateFields(k: Key, b: Buffer)
    requires b.Valid() && SerializeSafe(k)
    modifies b
    ensures b.Valid() && b.Contents() == old(b.Contents()) + PrivateFields(k)
  {
    match k.kind {
      case Rsa =>
        var r := k.rsa.value;
        var v := r.priv.value;
        PutMpints6(r.n, r.e, v.d, v.iqmp, v.p, v.q, b);
      case Dsa =>
        var d := k.dsa.value;
        PutMpints5(d.p, d.q, d.g, d.pubKey, d.privKey.value, b);
      case Ecdsa =>
        PutEcdsaPrivate(CurveNidToName(k.ecdsaNid).value, k.ecdsa.value.pub.value, k.ecdsa.value.privKey.value, b);
      case Ed25519 =>
        PutStrings2(k.ed25519Pk.value, k.ed25519Sk.value, b);
      case RsaCertV00 | RsaCert | DsaCertV00 | DsaCert | EcdsaCert | Ed25519Cert =>
        ghost var b0 := b.Contents();
        b.PutString(k.cert.value.certblob);
        PutCertTail(k, b);
        ConcatAssoc(b0, EncString(k.cert.value.certblob), CertTail(k));
      case Rsa1 | Unspec =>
    }
  }

  method PutCertTail(k: Key, b: Buffer)
    requires b.Valid() && SerializeSafe(k) && IsCertType(k.kind)
    modifies b
    ensures b.Valid() && b.Contents() == old(b.Contents()) + CertTail(k)
  {
    if IsRsaFamily(k.kind) {
      var v := k.rsa.value.priv.value;
      PutMpints4(v.d, v.iqmp, v.p, v.q, b);
    } else if IsDsaFamily(k.kind) {
      b.PutMpint(k.dsa.value.privKey.value);
    } else if IsEcdsaFamily(k.kind) {
      b.PutMpint(k.ecdsa.value.privKey.value);
    } else {
      PutStrings2(k.ed25519Pk.value, k.ed25519Sk.value, b);
    }
  }

  method PutMpints2(x1: nat, x2: nat, b: Buffer)
    requires b.Valid()
    modifies b
    ensures b.Valid() && b.Contents() == old(b.Contents()) + (EncMpint(x1) + EncMpint(x2))
  {
    ghost var b0 := b.Contents();
    b.PutMpint(x1);
    b.PutMpint(x2);
    ConcatAssoc(b0, EncMpint(x1), EncMpint(x2));
  }

  method PutMpints4(x1: nat, x2: nat, x3: nat, x4: nat, b: Buffer)
    requires b.Valid()
    modifies b
    ensures b.Valid() && b.Contents() == old(b.Contents()) + (EncMpint(x1) + EncMpint(x2) + EncMpint(x3) + EncMpint(x4))
  {
    ghost var b0 := b.Contents();
    PutMpints2(x1, x2, b);
    PutMpints2(x3, x4, b);
    Glue2(b0, EncMpint(x1), EncMpint(x2), EncMpint(x3), EncMpint(x4));
  }

  method PutMpints5(x1: nat, x2: nat, x3: nat, x4: nat, x5: nat, b: Buffer)
    requires b.Valid()
    modifies b
    ensures b.Valid() && b.Contents() == old(b.Contents()) +
      (EncMpint(x1) + EncMpint(x2) + EncMpint(x3) + EncMpint(x4) + EncMpint(x5))
  {
    ghost var b0 := b.Contents();
    PutMpints4(x1, x2, x3, x4, b);
    b.PutMpint(x5);
    ConcatAssoc(b0, EncMpint(x1) + EncMpint(x2) + EncMpint(x3) + EncMpint(x4), EncMpint(x5));
  }

  method PutMpints6(x1: nat, x2: nat, x3: nat, x4: nat, x5: nat, x6: nat, b: Buffer)
    requires b.Valid()
    modifies b
    ensures b.Valid() && b.Contents() == old(b.Contents()) +
      (EncMpint(x1) + EncMpint(x2) + EncMpint(x3) + EncMpint(x4) + EncMpint(x5) + EncMpint(x6))
  {
    ghost var b0 := b.Contents();
    PutMpints2(x1, x2, b);
    PutMpints4(x3, x4, x5, x6, b);
    Glue4(b0, EncMpint(x1), EncMpint(x2), EncMpint(x3), EncMpint(x4), EncMpint(x5), EncMpint(x6));
  }

  method PutStringMpint(blob: seq<byte>, x: nat, b: Buffer)
    requires b.Valid()
    modifies b
    ensures b.Valid() && b.Contents() == old(b.Contents()) + (EncString(blob) + EncMpint(x))
  {
    ghost var b0 := b.Contents();
    b.PutString(blob);
    b.PutMpint(x);
    ConcatAssoc(b0, EncString(blob), EncMpint(x));
  }

  method PutEcdsaPrivate(curve: CStr, point: seq<byte>, x: nat, b: Buffer)
    requires b.Valid()
    modifies b
    ensures b.Valid() && b.Contents() == old(b.Contents()) + (EncCString(curve) + EncString(point) + EncMpint(x))
  {
    ghost var b0 := b.Contents();
    b.PutCString(curve);
    PutStringMpint(point, x, b);
    ConcatAssoc(b0, EncCString(curve), EncString(point) + EncMpint(x));
    ConcatAssoc(EncCString(curve), EncString(point), EncMpint(x));
  }

  method PutStrings2(s1: seq<byte>, s2: seq<byte>, b: Buffer)
    requires b.Valid()
    modifies b
    ensures b.Valid() && b.Contents() == old(b.Contents()) + (EncString(s1) + EncString(s2))
  {
    ghost var b0 := b.Contents();
    b.PutString(s1);
    b.PutString(s2);
    ConcatAssoc(b0, EncString(s1), EncString(s2));
  }

  lemma Glue2<T>(x: seq<T>, a: seq<T>, c: seq<T>, d: seq<T>, e: seq<T>)
    ensures x + (a + c) + (d + e) == x + (a + c + d + e)
  {
  }

  lemma Glue4<T>(x: seq<T>, a: seq<T>, c: seq<T>, d: seq<T>, e: seq<T>, f: seq<T>, g: seq<T>)
    ensures x + (a + c) + (d + e + f + g) == x + (a + c + d + e + f + g)
  {
  }

  // ---------------------------------------------------------------
  // key_private_deserialize. The buffer_get_* calls it makes (the ones
  // without _ret) end the program when a read fails, and so do its own
  // fatal() calls: both are Fatal here. Crash is a NULL dereference.

  datatype PrivResult =
    | Fatal
    | Crash
    // NULL, with the bytes left in the buffer.
    | NoKey(rest: seq<byte>)
    | Loaded(key: Key, rest: seq<byte>)

  /** A case that can only fail fatally: None is Fatal. */
  function Lift(r: Option<Read<Key>>): PrivResult {
    if r.None? then Fatal else Loaded(r.value.value, r.value.rest)
  }

  /** KEY_RSA: n, e, d, iqmp, p, q into a key_new_private key, then
      rsa_generate_additional_parameters for dmq1 and dmp1. */
  function RsaPrivate(ext: Externals, b: seq<byte>): (r: Option<Read<Key>>)
    ensures r.Some? ==> r.value.value.kind == Rsa && r.value.value.rsa.Some? && r.value.value.rsa.value.priv.Some?
  {
    var n :- ReadMpint(b);
    var e :- ReadMpint(n.rest);
    var d :- ReadMpint(e.rest);
    var iqmp :- ReadMpint(d.rest);
    var p :- ReadMpint(iqmp.rest);
    var q :- ReadMpint(p.rest);
    var crt := ext.rsaCrt(d.value, p.value, q.value);
    var priv := RsaPriv(d.value, iqmp.value, q.value, p.value, crt.0, crt.1);
    Some(Read(NewPrivate(Rsa).(rsa := Some(RsaKey(n.value, e.value, Some(priv)))), q.rest))
  }

  /** KEY_DSA: p, q, g, the public and the private value. */
  function DsaPrivate(b: seq<byte>): (r: Option<Read<Key>>)
    ensures r.Some? ==> r.value.value.kind == Dsa && r.value.value.dsa.Some? && r.value.value.dsa.value.privKey.Some?
  {
    var p :- ReadMpint(b);
    var q :- ReadMpint(p.rest);
    var g :- ReadMpint(q.rest);
    var y :- ReadMpint(g.rest);
    var x :- ReadMpint(y.rest);
    Some(Read(NewPrivate(Dsa).(dsa := Some(DsaKey(p.value, q.value, g.value, y.value, Some(x.value)))), x.rest))
  }

  /** KEY_ECDSA: the curve of the type name, the curve string, which
      must name that curve (and a curve EC_KEY_new_by_curve_name knows),
      the point and the exponent, both of which must validate. */
  function EcdsaPrivate(ext: Externals, nid: int, b: seq<byte>): (r: Option<Read<Key>>)
    ensures r.Some? ==> r.value.value.kind == Ecdsa && IsCurveNid(nid) && r.value.value.ecdsaNid == nid
  {
    var curve :- ReadString(b);
    if !CurveAccepted(nid, curve.value) then None
    else
      var q :- ReadEcPoint(curve.rest);
      var x :- ReadMpint(q.rest);
      if !ext.ecPublicValid(nid, q.value) || !ext.ecPrivateValid(nid, x.value) then None
      else
        Some(Read(NewPrivate(Ecdsa).(ecdsaNid := nid, ecdsa := Some(EcKey(nid, Some(q.value), Some(x.value)))), x.rest))
  }

  /** The Ed25519 cases: the public and the secret key strings, then
      their lengths checked, both set on `into`. */
  function Ed25519Private(into: Key, b: seq<byte>): (r: Option<Read<Key>>)
    ensures r.Some? ==> var k := r.value.value;
      && k == into.(ed25519Pk := k.ed25519Pk, ed25519Sk := k.ed25519Sk)
      && k.ed25519Pk.Some? && |k.ed25519Pk.value| == ED25519_PK_SZ
      && k.ed25519Sk.Some? && |k.ed25519Sk.value| == ED25519_SK_SZ
  {
    var pk :- ReadString(b);
    var sk :- ReadString(pk.rest);
    if |pk.value| != ED25519_PK_SZ || |sk.value| != ED25519_SK_SZ then None
    else Some(Read(into.(ed25519Pk := Some(pk.value), ed25519Sk := Some(sk.value)), sk.rest))
  }

  /** The certificate cases after key_add_private: the private numbers
      of the case's type `t`, read into the fields of `k`, the key the
      certificate decoded to. Those fields are dereferenced without a
      check, so a key of another family crashes. */
  function CertPrivateFields(ext: Externals, t: KeyType, k: Key, b: seq<byte>): (r: PrivResult)
    requires IsCertType(t)
    ensures r == Crash <==>
      || (IsDsaFamily(t) && k.dsa.None?)
      || (IsRsaFamily(t) && (k.rsa.None? || k.rsa.value.priv.None?))
      || (IsEcdsaFamily(t) && ReadMpint(b).Some? && (k.ecdsa.None? || k.ecdsa.value.pub.None?))
    ensures r.Loaded? ==> r.key.kind == k.kind && r.key.cert == k.cert && (k.rsa.Some? ==> r.key.rsa.Some?)
  {
    if IsDsaFamily(t) then
      if k.dsa.None? then Crash
      else Lift(var x :- ReadMpint(b); Some(Read(k.(dsa := Some(k.dsa.value.(privKey := Some(x.value)))), x.rest)))
    else if IsRsaFamily(t) then
      if k.rsa.None? || k.rsa.value.priv.None? then Crash
      else Lift(RsaCertNumbers(k, b))
    else if IsEcdsaFamily(t) then
      match ReadMpint(b)
      case None => Fatal
      case Some(x) =>
        if k.ecdsa.None? || k.ecdsa.value.pub.None? then Crash
        else if !ext.ecPublicValid(k.ecdsaNid, k.ecdsa.value.pub.value) || !ext.ecPrivateValid(k.ecdsaNid, x.value) then Fatal
        else Loaded(k.(ecdsa := Some(k.ecdsa.value.(privKey := Some(x.value)))), x.rest)
    else
      Lift(Ed25519Private(k, b))
  }

  /** The RSA certificate case: d, iqmp, p and q over the numbers
      key_add_private allocated; dmq1 and dmp1 are not computed. */
  function RsaCertNumbers(k: Key, b: seq<byte>): (r: Option<Read<Key>>)
    requires k.rsa.Some? && k.rsa.value.priv.Some?
    ensures r.Some? ==> var rk := r.value.value.rsa;
      && r.value.value == k.(rsa := rk) && rk.Some? && rk.value.priv.Some?
      && rk.value.n == k.rsa.value.n && rk.value.e == k.rsa.value.e
      && rk.value.priv.value.dmq1 == k.rsa.value.priv.value.dmq1
      && rk.value.priv.value.dmp1 == k.rsa.value.priv.value.dmp1
  {
    var d :- ReadMpint(b);
    var iqmp :- ReadMpint(d.rest);
    var p :- ReadMpint(iqmp.rest);
    var q :- ReadMpint(p.rest);
    var priv := k.rsa.value.priv.value.(d := d.value, iqmp := iqmp.value, p := p.value, q := q.value);
    Some(Read(k.(rsa := Some(k.rsa.value.(priv := Some(priv)))), q.rest))
  }

  /** The certificate cases: the certblob, decoded with key_from_blob
      (NULL is fatal), key_add_private, then the private fields. With
      `checkType` the decoded key must be of the case's type, or the
      result is NULL; key.c makes no such check. */
  function CertPrivate(ext: Externals, t: KeyType, b: seq<byte>, checkType: bool): (r: PrivResult)
    requires IsCertType(t)
    ensures ReadString(b).None? ==> r == Fatal
    ensures checkType && r.Loaded? ==> r.key.kind == t
  {
    match ReadString(b)
    case None => Fatal
    case Some(cert) =>
      match ParseBlob(ext, cert.value, true)
      case None => Fatal
      case Some(parsed) =>
        DecodedKeysAreComplete(ext, cert.value, true);
        CertKeyPrivate(ext, t, parsed.value, cert.rest, checkType)
  }

  /** The certificate cases once the certblob decoded to `k0`. */
  function CertKeyPrivate(ext: Externals, t: KeyType, k0: Key, b: seq<byte>, checkType: bool): (r: PrivResult)
    requires IsCertType(t) && HasAlgStruct(k0)
    ensures r.Loaded? ==> r.key.kind == k0.kind && r.key.cert == k0.cert
    ensures checkType && r.Loaded? ==> r.key.kind == t
  {
    if checkType && k0.kind != t then NoKey(b)
    else CertPrivateFields(ext, t, AddPrivate(k0), b)
  }

  /** The switch on the type named by the type string; the default case
      (KEY_UNSPEC, and RSA1, whose short name is accepted) clears the
      buffer and returns NULL. */
  function ReadFields(ext: Externals, name: CStr, b: seq<byte>, checkType: bool): (r: PrivResult)
    ensures TypeFromName(name) == Unspec || TypeFromName(name) == Rsa1 ==> r == NoKey([])
    ensures r.Loaded? && (checkType || !IsCertType(TypeFromName(name))) ==> r.key.kind == TypeFromName(name)
  {
    var t := TypeFromName(name);
    if IsCertType(t) then CertPrivate(ext, t, b, checkType)
    else PlainPrivate(ext, name, b)
  }

  /** The cases of the switch for the types that are not certificates. */
  function PlainPrivate(ext: Externals, name: CStr, b: seq<byte>): (r: PrivResult)
    requires !IsCertType(TypeFromName(name))
    ensures r != Crash
    ensures r.NoKey? <==> TypeFromName(name) == Unspec || TypeFromName(name) == Rsa1
    ensures r.NoKey? ==> r.rest == []
    ensures r.Loaded? ==> r.key.kind == TypeFromName(name)
  {
    match TypeFromName(name)
    case Dsa => Lift(DsaPrivate(b))
    case Ecdsa => Lift(EcdsaPrivate(ext, EcdsaNidFromName(name), b))
    case Rsa => Lift(RsaPrivate(ext, b))
    case Ed25519 => Lift(Ed25519Private(NewPrivate(Ed25519), b))
    // Rsa1 and Unspec; the certificate types are not among these cases.
    case _ => NoKey([])
  }

  /** "enable blinding": RSA_blinding_on on the RSA structure of a key of
      the RSA family; its failure gives NULL. */
  function Blinding(ext: Externals, r: PrivResult): (s: PrivResult)
    ensures !r.Loaded? || s.Loaded? ==> s == r
    ensures s != r ==> r.Loaded? && IsRsaFamily(r.key.kind) && (s == Crash || s == NoKey(r.rest))
    ensures s == Crash && r != Crash ==> r.key.rsa.None?
    ensures r.Loaded? && r.key.rsa.Some? && ext.rsaBlindingOn(r.key.rsa.value) ==> s == r
  {
    if !r.Loaded? || !IsRsaFamily(r.key.kind) then r
    else if r.key.rsa.None? then Crash
    else if !ext.rsaBlindingOn(r.key.rsa.value) then NoKey(r.rest)
    else r
  }

  /** key_private_deserialize with or without the type check. */
  function ReadPrivateWith(ext: Externals, b: seq<byte>, checkType: bool): (r: PrivResult)
    ensures ReadString(b).None? ==> r == Fatal
    ensures var n := ReadString(b);
      r.Loaded? && n.Some? && (checkType || !IsCertType(TypeFromName(CPrefix(n.value.value)))) ==>
        r.key.kind == TypeFromName(CPrefix(n.value.value))
  {
    match ReadString(b)
    case None => Fatal
    case Some(name) => Blinding(ext, ReadFields(ext, CPrefix(name.value), name.rest, checkType))
  }

  /** key_private_deserialize as key.c has it. */
  function ReadPrivateAsWritten(ext: Externals, b: seq<byte>): (r: PrivResult)
    ensures ReadString(b).None? ==> r == Fatal
    ensures var n := ReadString(b);
      r.Loaded? && n.Some? && !IsCertType(TypeFromName(CPrefix(n.value.value))) ==>
        r.key.kind == TypeFromName(CPrefix(n.value.value))
  {
    ReadPrivateWith(ext, b, false)
  }

  /** key_private_deserialize with the certificate's key checked to be of
      the type the name announced. */
  function ReadPrivate(ext: Externals, b: seq<byte>): (r: PrivResult)
    ensures ReadString(b).None? ==> r == Fatal
    ensures r.Loaded? ==> ReadString(b).Some? && r.key.kind == TypeFromName(CPrefix(ReadString(b).value.value))
  {
    ReadPrivateWith(ext, b, true)
  }

  // ---------------------------------------------------------------
  // Round trips for the plain types.

  /** Every number and string of the private format fits its 32-bit
      length. */
  predicate PrivateFits(k: Key)
    requires SerializeSafe(k)
  {
    && (IsRsaFamily(k.kind) ==>
          var r := k.rsa.value; var v := r.priv.value;
          && |MpintBody(r.n)| < TWO32 && |MpintBody(r.e)| < TWO32 && |MpintBody(v.d)| < TWO32
          && |MpintBody(v.iqmp)| < TWO32 && |MpintBody(v.p)| < TWO32 && |MpintBody(v.q)| < TWO32)
    && (IsDsaFamily(k.kind) ==>
          var d := k.dsa.value;
          && |MpintBody(d.p)| < TWO32 && |MpintBody(d.q)| < TWO32 && |MpintBody(d.g)| < TWO32
          && |MpintBody(d.pubKey)| < TWO32 && |MpintBody(d.privKey.value)| < TWO32)
    && (IsEcdsaFamily(k.kind) ==> |MpintBody(k.ecdsa.value.privKey.value)| < TWO32)
    && (k.kind == Ecdsa ==> |k.ecdsa.value.pub.value| < TWO32)
    && (IsCertType(k.kind) ==> |k.cert.value.certblob| < TWO32)
  }

  /** What the external checks of the reader must accept: the point and
      the exponent of an ECDSA key; for RSA, dmq1 and dmp1 are what
      rsa_generate_additional_parameters computes, and blinding can be
      turned on. */
  predicate PrivateAccepted(ext: Externals, k: Key)
    requires SerializeSafe(k)
  {
    && (k.kind == Ecdsa ==>
          && IsUncompressedPoint(k.ecdsa.value.pub.value)
          && ext.ecPublicValid(k.ecdsaNid, k.ecdsa.value.pub.value)
          && ext.ecPrivateValid(k.ecdsaNid, k.ecdsa.value.privKey.value))
    && (k.kind == Rsa ==>
          var v := k.rsa.value.priv.value;
          ext.rsaCrt(v.d, v.p, v.q) == (v.dmq1, v.dmp1) && ext.rsaBlindingOn(k.rsa.value))
  }

  /** The key the reader builds from what a plain key `k` wrote: a
      key_new_private key of k's type holding k's numbers. */
  function Restored(k: Key): Key
    requires SerializeSafe(k)
  {
    var into := NewPrivate(k.kind);
    if IsRsaFamily(k.kind) then into.(rsa := k.rsa)
    else if IsDsaFamily(k.kind) then into.(dsa := k.dsa)
    else if IsEcdsaFamily(k.kind) then
      into.(ecdsaNid := k.ecdsaNid, ecdsa := Some(EcKey(k.ecdsaNid, k.ecdsa.value.pub, k.ecdsa.value.privKey)))
    else into.(ed25519Pk := k.ed25519Pk, ed25519Sk := k.ed25519Sk)
  }

  /** A key carrying nothing beyond what the private format holds: no
      certificate, no structure of another family, and for ECDSA a
      group that is its curve. */
  predicate Tidy(k: Key) {
    && k.cert.None?
    && (!IsRsaFamily(k.kind) ==> k.rsa.None?)
    && (!IsDsaFamily(k.kind) ==> k.dsa.None?)
    && (!IsEcdsaFamily(k.kind) ==> k.ecdsa.None? && k.ecdsaNid == -1)
    && (IsEcdsaFamily(k.kind) ==> k.ecdsa.Some? && k.ecdsa.value.group == k.ecdsaNid)
    && (!IsEd25519Family(k.kind) ==> k.ed25519Pk.None? && k.ed25519Sk.None?)
  }

  /** Such a plain key comes back whole, but for its flags, which
      key_new clears. */
  lemma RestoredIsKey(k: Key)
    requires IsValidCa(k.kind) && SerializeSafe(k) && Tidy(k)
    ensures Restored(k) == k.(flags := 0)
  {
  }

  lemma DsaFieldsRead(k: Key, rest: seq<byte>)
    requires k.kind == Dsa && SerializeSafe(k) && PrivateFits(k)
    ensures DsaPrivate(PrivateFields(k) + rest) == Some(Read(Restored(k), rest))
  {
    var d := k.dsa.value;
    Nest6(EncMpint(d.p), EncMpint(d.q), EncMpint(d.g), EncMpint(d.pubKey), EncMpint(d.privKey.value), rest);
    DsaNumbersRead(d.p, d.q, d.g, d.pubKey, d.privKey.value, PrivateFields(k) + rest, rest);
  }

  lemma DsaNumbersRead(p: nat, q: nat, g: nat, y: nat, x: nat, b: seq<byte>, rest: seq<byte>)
    requires |MpintBody(p)| < TWO32 && |MpintBody(q)| < TWO32 && |MpintBody(g)| < TWO32
    requires |MpintBody(y)| < TWO32 && |MpintBody(x)| < TWO32
    requires b == EncMpint(p) + (EncMpint(q) + (EncMpint(g) + (EncMpint(y) + (EncMpint(x) + rest))))
    ensures DsaPrivate(b) == Some(Read(NewPrivate(Dsa).(dsa := Some(DsaKey(p, q, g, y, Some(x)))), rest))
  {
    var r4 := EncMpint(x) + rest;
    var r3 := EncMpint(y) + r4;
    var r2 := EncMpint(g) + r3;
    var r1 := EncMpint(q) + r2;
    ReadMpintEnc(p, r1);
    ReadMpintEnc(q, r2);
    ReadMpintEnc(g, r3);
    ReadMpintEnc(y, r4);
    ReadMpintEnc(x, rest);
  }

  lemma RsaFieldsRead(ext: Externals, k: Key, rest: seq<byte>)
    requires k.kind == Rsa && SerializeSafe(k) && PrivateFits(k) && PrivateAccepted(ext, k)
    ensures RsaPrivate(ext, PrivateFields(k) + rest) == Some(Read(Restored(k), rest))
  {
    var r := k.rsa.value;
    var v := r.priv.value;
    Nest7(EncMpint(r.n), EncMpint(r.e), EncMpint(v.d), EncMpint(v.iqmp), EncMpint(v.p), EncMpint(v.q), rest);
    RsaNumbersRead(ext, r.n, r.e, v.d, v.iqmp, v.p, v.q, PrivateFields(k) + rest, rest);
  }

  lemma RsaNumbersRead(ext: Externals, n: nat, e: nat, d: nat, iqmp: nat, p: nat, q: nat, b: seq<byte>, rest: seq<byte>)
    requires |MpintBody(n)| < TWO32 && |MpintBody(e)| < TWO32 && |MpintBody(d)| < TWO32
    requires |MpintBody(iqmp)| < TWO32 && |MpintBody(p)| < TWO32 && |MpintBody(q)| < TWO32
    requires b == EncMpint(n) + (EncMpint(e) + (EncMpint(d) + (EncMpint(iqmp) + (EncMpint(p) + (EncMpint(q) + rest)))))
    ensures var crt := ext.rsaCrt(d, p, q);
      RsaPrivate(ext, b) == Some(Read(NewPrivate(Rsa).(rsa := Some(RsaKey(n, e, Some(RsaPriv(d, iqmp, q, p, crt.0, crt.1))))), rest))
  {
    var r5 := EncMpint(q) + rest;
    var r4 := EncMpint(p) + r5;
    var r3 := EncMpint(iqmp) + r4;
    var r2 := EncMpint(d) + r3;
    var r1 := EncMpint(e) + r2;
    ReadMpintEnc(n, r1);
    ReadMpintEnc(e, r2);
    ReadMpintEnc(d, r3);
    ReadMpintEnc(iqmp, r4);
    ReadMpintEnc(p, r5);
    ReadMpintEnc(q, rest);
  }

  lemma EcdsaFieldsRead(ext: Externals, k: Key, rest: seq<byte>)
    requires k.kind == Ecdsa && SerializeSafe(k) && PrivateFits(k) && PrivateAccepted(ext, k)
    ensures EcdsaPrivate(ext, k.ecdsaNid, PrivateFields(k) + rest) == Some(Read(Restored(k), rest))
  {
    var curve := CurveNidToName(k.ecdsaNid).value;
    var pub := k.ecdsa.value.pub.value;
    var x := k.ecdsa.value.privKey.value;
    CurveTablesAgree(k.ecdsaNid);
    ConcatAssoc4(EncCString(curve), EncString(pub), EncMpint(x), rest);
    EcdsaNumbersRead(ext, k.ecdsaNid, curve, pub, x, PrivateFields(k) + rest, rest);
  }

  lemma EcdsaNumbersRead(ext: Externals, nid: int, curve: CStr, pub: seq<byte>, x: nat, b: seq<byte>, rest: seq<byte>)
    requires IsCurveNid(nid) && CurveNameToNid(curve) == nid && |curve| < TWO32
    requires |pub| < TWO32 && IsUncompressedPoint(pub) && |MpintBody(x)| < TWO32
    requires ext.ecPublicValid(nid, pub) && ext.ecPrivateValid(nid, x)
    requires b == EncCString(curve) + (EncString(pub) + (EncMpint(x) + rest))
    ensures EcdsaPrivate(ext, nid, b) ==
      Some(Read(NewPrivate(Ecdsa).(ecdsaNid := nid, ecdsa := Some(EcKey(nid, Some(pub), Some(x)))), rest))
  {
    var r2 := EncMpint(x) + rest;
    var r1 := EncString(pub) + r2;
    CPrefixOfCStr(curve);
    ReadStringEnc(ToBytes(curve), r1);
    ReadEcPointEnc(pub, r2);
    ReadMpintEnc(x, rest);
  }

  lemma Ed25519FieldsRead(k: Key, rest: seq<byte>)
    requires k.kind == Ed25519 && SerializeSafe(k)
    ensures Ed25519Private(NewPrivate(Ed25519), PrivateFields(k) + rest) == Some(Read(Restored(k), rest))
  {
    var pk := k.ed25519Pk.value;
    var sk := k.ed25519Sk.value;
    assert PrivateFields(k) + rest == EncString(pk) + (EncString(sk) + rest);
    ReadStringEnc(pk, EncString(sk) + rest);
    ReadStringEnc(sk, rest);
  }

  /** The switch reads back the fields of a plain key, whether or not
      certificate types are checked. */
  lemma PlainFieldsRead(ext: Externals, k: Key, name: CStr, rest: seq<byte>, checkType: bool)
    requires IsValidCa(k.kind) && SerializeSafe(k) && PrivateFits(k) && PrivateAccepted(ext, k)
    requires TypeFromName(name) == k.kind && (k.kind == Ecdsa ==> EcdsaNidFromName(name) == k.ecdsaNid)
    ensures ReadFields(ext, name, PrivateFields(k) + rest, checkType) == Loaded(Restored(k), rest)
  {
    PlainPrivateRead(ext, k, name, rest);
  }

  lemma PlainPrivateRead(ext: Externals, k: Key, name: CStr, rest: seq<byte>)
    requires IsValidCa(k.kind) && SerializeSafe(k) && PrivateFits(k) && PrivateAccepted(ext, k)
    requires TypeFromName(name) == k.kind && (k.kind == Ecdsa ==> EcdsaNidFromName(name) == k.ecdsaNid)
    ensures PlainPrivate(ext, name, PrivateFields(k) + rest) == Loaded(Restored(k), rest)
  {
    match k.kind {
      case Rsa => RsaFieldsRead(ext, k, rest);
      case Dsa => DsaFieldsRead(k, rest);
      case Ecdsa => EcdsaFieldsRead(ext, k, rest);
      case Ed25519 => Ed25519FieldsRead(k, rest);
    }
  }

  /** The type string is read first, and what follows it goes to the
      switch and then to blinding. */
  lemma NameRead(ext: Externals, name: CStr, x: seq<byte>, checkType: bool)
    requires |name| < TWO32
    ensures ReadPrivateWith(ext, EncCString(name) + x, checkType) == Blinding(ext, ReadFields(ext, name, x, checkType))
  {
    ReadStringEnc(ToBytes(name), x);
    CPrefixOfCStr(name);
  }

  lemma PlainPrivateRoundTripWith(ext: Externals, k: Key, rest: seq<byte>, checkType: bool)
    requires IsValidCa(k.kind) && SerializeSafe(k) && PrivateFits(k) && PrivateAccepted(ext, k)
    ensures ReadPrivateWith(ext, PrivateBlob(k) + rest, checkType) == Loaded(Restored(k), rest)
  {
    var name := SshNameFromTypeNid(k.kind, k.ecdsaNid).value;
    PlainName(k, name);
    ConcatAssoc(EncCString(name), PrivateFields(k), rest);
    NameRead(ext, name, PrivateFields(k) + rest, checkType);
    PlainFieldsRead(ext, k, name, rest, checkType);
    BlindingKeeps(ext, k, rest);
  }

  /** The wire name of a plain key names its type, and its curve. */
  lemma PlainName(k: Key, name: CStr)
    requires IsValidCa(k.kind) && SerializeSafe(k)
    requires SshNameFromTypeNid(k.kind, k.ecdsaNid) == Some(name)
    ensures |name| < TWO32 && TypeFromName(name) == k.kind
    ensures k.kind == Ecdsa ==> EcdsaNidFromName(name) == k.ecdsaNid
  {
    CurveTablesAgree(k.ecdsaNid);
    SshNameRoundTrip(k.kind, k.ecdsaNid);
    SshNameShort(k.kind, k.ecdsaNid);
  }

  /** Blinding is turned on for a restored RSA key. */
  lemma BlindingKeeps(ext: Externals, k: Key, rest: seq<byte>)
    requires IsValidCa(k.kind) && SerializeSafe(k) && PrivateAccepted(ext, k)
    ensures Blinding(ext, Loaded(Restored(k), rest)) == Loaded(Restored(k), rest)
  {
  }

  /** Round trip: key_private_deserialize reads what
      key_private_serialize wrote for a plain RSA, DSA, ECDSA or Ed25519
      key back as that key's numbers, leaving the bytes after it in the
      buffer. The type check plays no part for plain types. */
  lemma PlainPrivateRoundTrip(ext: Externals, k: Key, rest: seq<byte>)
    requires IsValidCa(k.kind) && SerializeSafe(k) && PrivateFits(k) && PrivateAccepted(ext, k)
    ensures ReadPrivate(ext, PrivateBlob(k) + rest) == Loaded(Restored(k), rest)
    ensures ReadPrivateAsWritten(ext, PrivateBlob(k) + rest) == Loaded(Restored(k), rest)
  {
    PlainPrivateRoundTripWith(ext, k, rest, true);
    PlainPrivateRoundTripWith(ext, k, rest, false);
  }

  // ---------------------------------------------------------------
  // Round trip for the certificate types.

  /** The key the reader builds from what a certificate key `k` wrote,
      where `k0` is the key its certblob decodes to: k0 after
      key_add_private, carrying k's private numbers. For RSA only d,
      iqmp, p and q are read; dmq1 and dmp1 stay as key_add_private left
      them, zero. */
  function CertRestored(k0: Key, k: Key): (r: Key)
    requires IsCertType(k.kind) && SerializeSafe(k) && k0.kind == k.kind && HasWireFields(k0)
    ensures r.kind == k.kind && r.cert == k0.cert && r.ecdsaNid == k0.ecdsaNid
  {
    var a := AddPrivate(k0);
    if IsRsaFamily(k.kind) then
      var v := k.rsa.value.priv.value;
      a.(rsa := Some(a.rsa.value.(priv := Some(RsaPriv(v.d, v.iqmp, v.q, v.p, 0, 0)))))
    else if IsDsaFamily(k.kind) then a.(dsa := Some(a.dsa.value.(privKey := k.dsa.value.privKey)))
    else if IsEcdsaFamily(k.kind) then a.(ecdsa := Some(a.ecdsa.value.(privKey := k.ecdsa.value.privKey)))
    else a.(ed25519Pk := k.ed25519Pk, ed25519Sk := k.ed25519Sk)
  }

  /** What the external checks must accept for a certificate key: the
      certificate's point with k's exponent for ECDSA, and blinding on
      the restored RSA structure. */
  predicate CertAccepted(ext: Externals, k0: Key, k: Key)
    requires IsCertType(k.kind) && SerializeSafe(k) && k0.kind == k.kind && HasWireFields(k0)
  {
    && (IsEcdsaFamily(k.kind) ==>
          && ext.ecPublicValid(k0.ecdsaNid, k0.ecdsa.value.pub.value)
          && ext.ecPrivateValid(k0.ecdsaNid, k.ecdsa.value.privKey.value))
    && (IsRsaFamily(k.kind) ==> ext.rsaBlindingOn(CertRestored(k0, k).rsa.value))
  }

  /** The private numbers after the certblob are read into the
      certificate's key. */
  lemma CertTailRead(ext: Externals, k0: Key, k: Key, rest: seq<byte>)
    requires IsCertType(k.kind) && SerializeSafe(k) && PrivateFits(k) && k0.kind == k.kind && HasWireFields(k0)
    requires CertAccepted(ext, k0, k)
    ensures CertPrivateFields(ext, k.kind, AddPrivate(k0), CertTail(k) + rest) == Loaded(CertRestored(k0, k), rest)
  {
    if IsRsaFamily(k.kind) {
      var v := k.rsa.value.priv.value;
      ConcatAssoc5(EncMpint(v.d), EncMpint(v.iqmp), EncMpint(v.p), EncMpint(v.q), rest);
      RsaCertNumbersRead(AddPrivate(k0), v.d, v.iqmp, v.p, v.q, CertTail(k) + rest, rest);
    } else if IsDsaFamily(k.kind) {
      ReadMpintEnc(k.dsa.value.privKey.value, rest);
    } else if IsEcdsaFamily(k.kind) {
      ReadMpintEnc(k.ecdsa.value.privKey.value, rest);
    } else {
      var pk := k.ed25519Pk.value;
      var sk := k.ed25519Sk.value;
      ConcatAssoc(EncString(pk), EncString(sk), rest);
      ReadStringEnc(pk, EncString(sk) + rest);
      ReadStringEnc(sk, rest);
    }
  }

  lemma RsaCertNumbersRead(a: Key, d: nat, iqmp: nat, p: nat, q: nat, b: seq<byte>, rest: seq<byte>)
    requires a.rsa.Some? && a.rsa.value.priv == Some(RsaPriv(0, 0, 0, 0, 0, 0))
    requires |MpintBody(d)| < TWO32 && |MpintBody(iqmp)| < TWO32 && |MpintBody(p)| < TWO32 && |MpintBody(q)| < TWO32
    requires b == EncMpint(d) + (EncMpint(iqmp) + (EncMpint(p) + (EncMpint(q) + rest)))
    ensures RsaCertNumbers(a, b) == Some(Read(a.(rsa := Some(a.rsa.value.(priv := Some(RsaPriv(d, iqmp, q, p, 0, 0))))), rest))
  {
    var r3 := EncMpint(q) + rest;
    var r2 := EncMpint(p) + r3;
    var r1 := EncMpint(iqmp) + r2;
    ReadMpintEnc(d, r1);
    ReadMpintEnc(iqmp, r2);
    ReadMpintEnc(p, r3);
    ReadMpintEnc(q, rest);
  }

  /** The wire name of a certificate key names its type. */
  lemma CertName(k: Key, name: CStr)
    requires IsCertType(k.kind) && (IsEcdsaFamily(k.kind) ==> IsCurveNid(k.ecdsaNid))
    requires SshNameFromTypeNid(k.kind, k.ecdsaNid) == Some(name)
    ensures |name| < TWO32 && TypeFromName(name) == k.kind
  {
    SshNameRoundTrip(k.kind, k.ecdsaNid);
    SshNameShort(k.kind, k.ecdsaNid);
  }

  lemma CertPrivateRoundTripWith(ext: Externals, k: Key, k0: Key, rest: seq<byte>, checkType: bool)
    requires IsCertType(k.kind) && SerializeSafe(k) && PrivateFits(k)
    requires IsEcdsaFamily(k.kind) ==> IsCurveNid(k.ecdsaNid)
    requires ParseBlob(ext, k.cert.value.certblob, true).Some? && ParseBlob(ext, k.cert.value.certblob, true).value.value == k0
    requires k0.kind == k.kind && HasWireFields(k0) && CertAccepted(ext, k0, k)
    ensures ReadPrivateWith(ext, PrivateBlob(k) + rest, checkType) == Loaded(CertRestored(k0, k), rest)
  {
    var name := SshNameFromTypeNid(k.kind, k.ecdsaNid).value;
    var blob := k.cert.value.certblob;
    CertName(k, name);
    ConcatAssoc(EncCString(name), PrivateFields(k), rest);
    ConcatAssoc(EncString(blob), CertTail(k), rest);
    NameRead(ext, name, PrivateFields(k) + rest, checkType);
    assert ReadFields(ext, name, PrivateFields(k) + rest, checkType) == CertPrivate(ext, k.kind, EncString(blob) + (CertTail(k) + rest), checkType);
    CertPrivateOf(ext, k.kind, blob, k0, CertTail(k) + rest, checkType);
    CertTailRead(ext, k0, k, rest);
  }

  /** Round trip for a certificate key: what key_private_serialize wrote
      is read back as the key its certblob decodes to, with k's private
      numbers, whether or not the decoded key's type is checked. */
  lemma CertPrivateRoundTrip(ext: Externals, k: Key, k0: Key, rest: seq<byte>)
    requires IsCertType(k.kind) && SerializeSafe(k) && PrivateFits(k)
    requires IsEcdsaFamily(k.kind) ==> IsCurveNid(k.ecdsaNid)
    requires ParseBlob(ext, k.cert.value.certblob, true).Some? && ParseBlob(ext, k.cert.value.certblob, true).value.value == k0
    requires k0.kind == k.kind && HasWireFields(k0) && CertAccepted(ext, k0, k)
    ensures ReadPrivate(ext, PrivateBlob(k) + rest) == Loaded(CertRestored(k0, k), rest)
    ensures ReadPrivateAsWritten(ext, PrivateBlob(k) + rest) == Loaded(CertRestored(k0, k), rest)
  {
    CertPrivateRoundTripWith(ext, k, k0, rest, true);
    CertPrivateRoundTripWith(ext, k, k0, rest, false);
  }

  /** The restored certificate key keeps the decoded certificate, whose
      certblob is the one written, and the private numbers written. */
  lemma CertRestoredKeeps(ext: Externals, k: Key, k0: Key)
    requires IsCertType(k.kind) && SerializeSafe(k)
    requires ParseBlob(ext, k.cert.value.certblob, true).Some? && ParseBlob(ext, k.cert.value.certblob, true).value.value == k0
    requires k0.kind == k.kind
    ensures HasWireFields(k0)
    ensures var r := CertRestored(k0, k);
      && r.cert.Some? && r.cert.value.certblob == k.cert.value.certblob
      && (IsDsaFamily(k.kind) ==> r.dsa.value.privKey == k.dsa.value.privKey)
      && (IsEcdsaFamily(k.kind) ==> r.ecdsa.value.privKey == k.ecdsa.value.privKey)
      && (IsEd25519Family(k.kind) ==> r.ed25519Pk == k.ed25519Pk && r.ed25519Sk == k.ed25519Sk)
      && (IsRsaFamily(k.kind) ==> var v := r.rsa.value.priv.value; var w := k.rsa.value.priv.value;
            v.d == w.d && v.iqmp == w.iqmp && v.p == w.p && v.q == w.q)
  {
    DecodedKeysAreComplete(ext, k.cert.value.certblob, true);
    TypeIsCertExactly(k.kind);
  }

  // ---------------------------------------------------------------
  // The NULL answers and the fatal ones.

  /** A type name that names no row, and the short name of RSA1, reach
      the default case: NULL, with the buffer cleared. */
  lemma UnknownTypeRefused(ext: Externals, name: CStr, x: seq<byte>, checkType: bool)
    requires |name| < TWO32 && (TypeFromName(name) == Unspec || TypeFromName(name) == Rsa1)
    ensures ReadPrivateWith(ext, EncCString(name) + x, checkType) == NoKey([])
  {
    NameRead(ext, name, x, checkType);
  }

  /** The empty name matches no row. */
  lemma EmptyNameIsUnspec()
    ensures TypeFromName([]) == Unspec
  {
    assert forall j :: 0 <= j < |KeyTable| ==> KeyTable[j].name != Some([]) && |KeyTable[j].shortName| > 0;
    FindNone(ByName([]));
  }

  /** "ssh-unknown" matches no row. */
  lemma SshUnknownIsUnspec()
    ensures TypeFromName(SSH_UNKNOWN) == Unspec
  {
    assert forall j :: 0 <= j < |KeyTable| ==> !Matches(ByName(SSH_UNKNOWN), KeyTable[j]);
    FindNone(ByName(SSH_UNKNOWN));
  }

  /** key_private_serialize writes "ssh-unknown" for a KEY_UNSPEC key and
      nothing else; key_private_deserialize refuses that name. */
  lemma UnspecNotReadBack(ext: Externals, k: Key, rest: seq<byte>)
    requires k.kind == Unspec
    ensures SerializeSafe(k) && PrivateBlob(k) == EncCString(SSH_UNKNOWN)
    ensures ReadPrivate(ext, PrivateBlob(k) + rest) == NoKey([])
  {
    UnspecBlob(k);
    SshUnknownIsUnspec();
    UnknownTypeRefused(ext, SSH_UNKNOWN, rest, true);
  }

  lemma UnspecBlob(k: Key)
    requires k.kind == Unspec
    ensures SerializeSafe(k) && PrivateBlob(k) == EncCString(SSH_UNKNOWN)
  {
    SshNameWithoutRow(Unspec, k.ecdsaNid);
    assert PrivateFields(k) == [];
  }

  /** Any spelling of "ECDSA" as the type name names no curve, so no
      curve string passes and the read is fatal, whatever follows. */
  lemma EcdsaShortNameFatal(ext: Externals, name: CStr, x: seq<byte>, checkType: bool)
    requires |name| < TWO32 && EqualsIgnoreCase(name, SHORT_ECDSA)
    ensures ReadPrivateWith(ext, EncCString(name) + x, checkType) == Fatal
  {
    EcdsaShortNameHasNoCurve(name);
    NameRead(ext, name, x, checkType);
    assert ReadFields(ext, name, x, checkType) == Lift(EcdsaPrivate(ext, -1, x));
  }

  // ---------------------------------------------------------------
  // The certificate cases: key.c does not check that the key the
  // certblob decodes to is of the type the name announced.

  /** A DSA certificate name whose certblob decodes to a key of another
      family: key.c dereferences the missing DSA structure; with the
      check the result is NULL. */
  lemma DsaCertMismatch(ext: Externals, name: CStr, blob: seq<byte>, rest: seq<byte>)
    requires |name| < TWO32 && |blob| < TWO32
    requires IsCertType(TypeFromName(name)) && IsDsaFamily(TypeFromName(name))
    requires DecodeBlob(ext, blob, true).Some? && !IsDsaFamily(DecodeBlob(ext, blob, true).value.kind)
    ensures ReadPrivateAsWritten(ext, EncCString(name) + (EncString(blob) + rest)) == Crash
    ensures ReadPrivate(ext, EncCString(name) + (EncString(blob) + rest)) == NoKey(rest)
  {
    var x := EncString(blob) + rest;
    var t := TypeFromName(name);
    NameRead(ext, name, x, true);
    NameRead(ext, name, x, false);
    assert ReadFields(ext, name, x, true) == CertPrivate(ext, t, x, true);
    assert ReadFields(ext, name, x, false) == CertPrivate(ext, t, x, false);
    DsaCertMismatchFields(ext, t, blob, rest);
  }

  lemma DsaCertMismatchFields(ext: Externals, t: KeyType, blob: seq<byte>, rest: seq<byte>)
    requires |blob| < TWO32 && IsCertType(t) && IsDsaFamily(t)
    requires DecodeBlob(ext, blob, true).Some? && !IsDsaFamily(DecodeBlob(ext, blob, true).value.kind)
    ensures CertPrivate(ext, t, EncString(blob) + rest, false) == Crash
    ensures CertPrivate(ext, t, EncString(blob) + rest, true) == NoKey(rest)
  {
    var k0 := ParseBlob(ext, blob, true).value.value;
    DecodedKeyFamilies(ext, blob, true);
    CertPrivateOf(ext, t, blob, k0, rest, true);
    CertPrivateOf(ext, t, blob, k0, rest, false);
    assert AddPrivate(k0).dsa.None?;
  }

  /** The certblob is read and decoded, and the case goes on with its key. */
  lemma CertPrivateOf(ext: Externals, t: KeyType, blob: seq<byte>, k0: Key, rest: seq<byte>, checkType: bool)
    requires |blob| < TWO32 && IsCertType(t)
    requires ParseBlob(ext, blob, true).Some? && ParseBlob(ext, blob, true).value.value == k0
    ensures HasAlgStruct(k0)
    ensures CertPrivate(ext, t, EncString(blob) + rest, checkType) == CertKeyPrivate(ext, t, k0, rest, checkType)
  {
    ReadStringEnc(blob, rest);
    DecodedKeysAreComplete(ext, blob, true);
  }

  /** Only a decoded key of the DSA family has a DSA structure. */
  lemma DecodedKeyFamilies(ext: Externals, blob: seq<byte>, allowCert: bool)
    requires ParseBlob(ext, blob, allowCert).Some?
    ensures var k := ParseBlob(ext, blob, allowCert).value.value; k.dsa.Some? ==> IsDsaFamily(k.kind)
  {
    var ktype := ReadCString(blob).value;
    var t := TypeFromName(ktype.value);
    var body := DecodeFields(ext, t, NidOfName(t, ktype.value), ktype.rest).value;
    DecodeFieldsFamilies(ext, t, NidOfName(t, ktype.value), ktype.rest);
    if TypeIsCert(t) {
      var cr := ReadCert(IsLegacy(t), blob, body.rest).value;
      var ca := DecodeBlob(ext, cr.value.fields.sigKey, false);
      var k := CheckCert(ext, body.value, blob, cr.value.fields, cr.value.signedLen, cr.value.sig, ca).value;
      assert ParseBlob(ext, blob, allowCert).value.value == k;
    } else {
      assert ParseBlob(ext, blob, allowCert).value == body;
    }
  }

  lemma DecodeFieldsFamilies(ext: Externals, t: KeyType, nid: int, b: seq<byte>)
    requires DecodeFields(ext, t, nid, b).Some?
    ensures var k := DecodeFields(ext, t, nid, b).value.value; k.dsa.Some? ==> IsDsaFamily(k.kind)
  {
    if IsEd25519Family(t) {
      Ed25519DecodeFamilies(t, SkipNonce(t, b));
    }
  }

  lemma Ed25519DecodeFamilies(t: KeyType, c: seq<byte>)
    requires IsEd25519Family(t) && DecodeEd25519(t, c).Some?
    ensures DecodeEd25519(t, c).value.value.dsa.None?
  {
  }

  /** The concrete buffer: the DSA certificate name, then a certblob
      that is only an empty type name, which key_from_blob decodes as a
      KEY_UNSPEC key. */
  lemma DsaCertCrashExample(ext: Externals)
    ensures var b := EncCString(NAME_DSA_CERT) + (EncString(EncCString([])) + []);
      ReadPrivateAsWritten(ext, b) == Crash && ReadPrivate(ext, b) == NoKey([])
  {
    TypeFromNameOfTableName(8);
    EmptyNameIsUnspec();
    UnknownNameIsUnspec(ext, [], [], true);
    assert EncCString([]) + [] == EncCString([]);
    DsaCertMismatch(ext, NAME_DSA_CERT, EncCString([]), []);
  }

  /** What the corrected reader loads never has a missing structure: a
      key of the RSA family has its RSA structure. */
  predicate NoMissingRsa(r: PrivResult) {
    r != Crash && (r.Loaded? && IsRsaFamily(r.key.kind) ==> r.key.rsa.Some?)
  }

  lemma CertPrivateChecked(ext: Externals, t: KeyType, b: seq<byte>)
    requires IsCertType(t)
    ensures NoMissingRsa(CertPrivate(ext, t, b, true))
  {
    if ReadString(b).Some? {
      var cert := ReadString(b).value;
      if ParseBlob(ext, cert.value, true).Some? {
        var k0 := ParseBlob(ext, cert.value, true).value.value;
        DecodedKeysAreComplete(ext, cert.value, true);
        assert CertPrivate(ext, t, b, true) == CertKeyPrivate(ext, t, k0, cert.rest, true);
        if k0.kind == t {
          CertFieldsComplete(ext, t, k0, cert.rest);
        }
      }
    }
  }

  /** The certificate's key, of the announced type, has every structure
      the case dereferences. */
  lemma CertFieldsComplete(ext: Externals, t: KeyType, k: Key, b: seq<byte>)
    requires IsCertType(t) && k.kind == t && HasWireFields(k)
    ensures NoMissingRsa(CertPrivateFields(ext, t, AddPrivate(k), b))
  {
  }

  lemma ReadFieldsChecked(ext: Externals, name: CStr, b: seq<byte>)
    ensures NoMissingRsa(ReadFields(ext, name, b, true))
  {
    var t := TypeFromName(name);
    if IsCertType(t) {
      CertPrivateChecked(ext, t, b);
    } else {
      PlainPrivateComplete(ext, name, b);
    }
  }

  lemma PlainPrivateComplete(ext: Externals, name: CStr, b: seq<byte>)
    requires !IsCertType(TypeFromName(name))
    ensures NoMissingRsa(PlainPrivate(ext, name, b))
  {
  }

  /** With the type check, key_private_deserialize never dereferences a
      missing structure, whatever the buffer holds. */
  lemma ReadPrivateNeverCrashes(ext: Externals, b: seq<byte>)
    ensures ReadPrivate(ext, b) != Crash
  {
    if ReadString(b).Some? {
      var name := ReadString(b).value;
      ReadFieldsChecked(ext, CPrefix(name.value), name.rest);
    }
  }

  /** The check changes nothing but to refuse: where the two readers
      differ, the corrected one answers NULL. */
  lemma CheckOnlyRefuses(ext: Externals, b: seq<byte>)
    ensures ReadPrivate(ext, b) == ReadPrivateAsWritten(ext, b) || ReadPrivate(ext, b).NoKey?
  {
  }

  lemma Nest7<T>(a: seq<T>, b: seq<T>, c: seq<T>, d: seq<T>, e: seq<T>, f: seq<T>, g: seq<T>)
    ensures a + b + c + d + e + f + g == a + (b + (c + (d + (e + (f + g)))))
  {
  }

  lemma Nest6<T>(a: seq<T>, b: seq<T>, c: seq<T>, d: seq<T>, e: seq<T>, f: seq<T>)
    ensures a + b + c + d + e + f == a + (b + (c + (d + (e + f))))
  {
  }
}
