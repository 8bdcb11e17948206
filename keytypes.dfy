// The key-type registry of key.c: the constant `keytypes` table, the
// lookups that scan it in order, the type predicates, and the curve
// tables of the NIST curves.
module KeyTypes {
  import opened Wrappers
  import opened Wire

  /** enum types of key.h, in declaration order. */
  datatype KeyType =
    | Rsa1 | Rsa | Dsa | Ecdsa | Ed25519
    | RsaCert | DsaCert | EcdsaCert | Ed25519Cert
    | RsaCertV00 | DsaCertV00
    | Unspec

  /** The enumerator's value: KEY_RSA1 is 0 and KEY_UNSPEC, the last, is 11. */
  function Ordinal(t: KeyType): (r: nat)
    ensures r <= 11
    ensures (r == 11) == (t == Unspec)
  {
    match t
    case Rsa1 => 0
    case Rsa => 1
    case Dsa => 2
    case Ecdsa => 3
    case Ed25519 => 4
    case RsaCert => 5
    case DsaCert => 6
    case EcdsaCert => 7
    case Ed25519Cert => 8
    case RsaCertV00 => 9
    case DsaCertV00 => 10
    case Unspec => 11
  }

  lemma OrdinalInjective(s: KeyType, t: KeyType)
    requires Ordinal(s) == Ordinal(t)
    ensures s == t
  {
  }

  /** enum fp_type and enum fp_rep of key.h. */
  datatype FpType = FpSha1 | FpMd5 | FpSha256
  datatype FpRep = FpHex | FpBubbleBabble | FpRandomArt

  /** The digests of digest.h that this layer selects. */
  datatype DigestAlg = Md5 | Sha1 | Sha256 | Sha384 | Sha512

  /** ssh_digest_bytes: the output length of each digest. */
  function DigestBytes(a: DigestAlg): nat {
    match a
    case Md5 => 16
    case Sha1 => 20
    case Sha256 => 32
    case Sha384 => 48
    case Sha512 => 64
  }

  const KEY_FLAG_EXT: nat := 0x0001
  const CERT_MAX_PRINCIPALS: nat := 256
  const ED25519_PK_SZ: nat := 32
  const ED25519_SK_SZ: nat := 64
  const SSH2_CERT_TYPE_USER: nat := 1
  const SSH2_CERT_TYPE_HOST: nat := 2

  /** OpenSSL's curve identifiers for NIST P-256, P-384 and P-521. */
  const NID_X9_62_PRIME256V1: int := 415
  const NID_SECP384R1: int := 715
  const NID_SECP521R1: int := 716

  /** One row of the `keytypes` table. A NULL name is None. */
  datatype KeyTypeInfo = KeyTypeInfo(name: Option<CStr>, shortName: CStr, kind: KeyType, nid: int, cert: bool)

  // The names of the table. The long names are built from pieces so
  // that each piece is checked as a C string on its own.
  const NAME_RSA: CStr := "ssh-rsa"
  const NAME_DSA: CStr := "ssh-dss"
  const NAME_ED25519: CStr := "ssh-ed25519"
  const ECDSA_PREFIX: CStr := "ecdsa-sha2-"
  const CURVE_NISTP256: CStr := "nistp256"
  const CURVE_NISTP384: CStr := "nistp384"
  const CURVE_NISTP521: CStr := "nistp521"
  const CERT_V01: CStr := "-cert-v01"
  const CERT_V00: CStr := "-cert-v00"
  const OPENSSH_DOMAIN: CStr := "@openssh.com"
  const NAME_ECDSA_P256: CStr := ECDSA_PREFIX + CURVE_NISTP256
  const NAME_ECDSA_P384: CStr := ECDSA_PREFIX + CURVE_NISTP384
  const NAME_ECDSA_P521: CStr := ECDSA_PREFIX + CURVE_NISTP521
  const NAME_RSA_CERT: CStr := NAME_RSA + CERT_V01 + OPENSSH_DOMAIN
  const NAME_DSA_CERT: CStr := NAME_DSA + CERT_V01 + OPENSSH_DOMAIN
  const NAME_ECDSA_P256_CERT: CStr := NAME_ECDSA_P256 + CERT_V01 + OPENSSH_DOMAIN
  const NAME_ECDSA_P384_CERT: CStr := NAME_ECDSA_P384 + CERT_V01 + OPENSSH_DOMAIN
  const NAME_ECDSA_P521_CERT: CStr := NAME_ECDSA_P521 + CERT_V01 + OPENSSH_DOMAIN
  const NAME_RSA_CERT_V00: CStr := NAME_RSA + CERT_V00 + OPENSSH_DOMAIN
  const NAME_DSA_CERT_V00: CStr := NAME_DSA + CERT_V00 + OPENSSH_DOMAIN
  const NAME_ED25519_CERT: CStr := NAME_ED25519 + CERT_V01 + OPENSSH_DOMAIN

  const SHORT_RSA1: CStr := "RSA1"
  const UNKNOWN: CStr := "unknown"
  const SSH_UNKNOWN: CStr := "ssh-unknown"
  const SHORT_RSA: CStr := "RSA"
  const SHORT_DSA: CStr := "DSA"
  const SHORT_ED25519: CStr := "ED25519"
  const SHORT_ECDSA: CStr := "ECDSA"
  const SHORT_RSA_CERT: CStr := "RSA-CERT"
  const SHORT_DSA_CERT: CStr := "DSA-CERT"
  const SHORT_ECDSA_CERT: CStr := "ECDSA-CERT"
  const SHORT_RSA_CERT_V00: CStr := "RSA-CERT-V00"
  const SHORT_DSA_CERT_V00: CStr := "DSA-CERT-V00"
  const SHORT_ED25519_CERT: CStr := "ED25519-CERT"

  /** The `keytypes` table of the full-featured build, in order. The C
      table's terminating sentinel row is the end of the sequence. */
  const KeyTable: seq<KeyTypeInfo> := [
    KeyTypeInfo(None, SHORT_RSA1, Rsa1, 0, false),
    KeyTypeInfo(Some(NAME_RSA), SHORT_RSA, Rsa, 0, false),
    KeyTypeInfo(Some(NAME_DSA), SHORT_DSA, Dsa, 0, false),
    KeyTypeInfo(Some(NAME_ED25519), SHORT_ED25519, Ed25519, 0, false),
    KeyTypeInfo(Some(NAME_ECDSA_P256), SHORT_ECDSA, Ecdsa, NID_X9_62_PRIME256V1, false),
    KeyTypeInfo(Some(NAME_ECDSA_P384), SHORT_ECDSA, Ecdsa, NID_SECP384R1, false),
    KeyTypeInfo(Some(NAME_ECDSA_P521), SHORT_ECDSA, Ecdsa, NID_SECP521R1, false),
    KeyTypeInfo(Some(NAME_RSA_CERT), SHORT_RSA_CERT, RsaCert, 0, true),
    KeyTypeInfo(Some(NAME_DSA_CERT), SHORT_DSA_CERT, DsaCert, 0, true),
    KeyTypeInfo(Some(NAME_ECDSA_P256_CERT), SHORT_ECDSA_CERT, EcdsaCert, NID_X9_62_PRIME256V1, true),
    KeyTypeInfo(Some(NAME_ECDSA_P384_CERT), SHORT_ECDSA_CERT, EcdsaCert, NID_SECP384R1, true),
    KeyTypeInfo(Some(NAME_ECDSA_P521_CERT), SHORT_ECDSA_CERT, EcdsaCert, NID_SECP521R1, true),
    KeyTypeInfo(Some(NAME_RSA_CERT_V00), SHORT_RSA_CERT_V00, RsaCertV00, 0, true),
    KeyTypeInfo(Some(NAME_DSA_CERT_V00), SHORT_DSA_CERT_V00, DsaCertV00, 0, true),
    KeyTypeInfo(Some(NAME_ED25519_CERT), SHORT_ED25519_CERT, Ed25519Cert, 0, true)
  ]

  // ---------------------------------------------------------------
  // Scanning the table: every lookup returns the first matching row.

  /** strcasecmp in the C locale: ASCII letters fold to lower case. */
  function Lower(c: char): char {
    if 'A' <= c <= 'Z' then (c as int + 32) as char else c
  }

  predicate EqualsIgnoreCase(a: string, b: string) {
    |a| == |b| && forall i :: 0 <= i < |a| ==> Lower(a[i]) == Lower(b[i])
  }

  /** The condition each lookup loop tests on a row. */
  datatype Query =
    | ByName(name: CStr)             // key_type_from_name
    | ByType(t: KeyType)             // key_type, key_type_is_cert
    | ByTypeNid(t: KeyType, nid: int) // key_ssh_name_from_type_nid
    | EcdsaByName(name: CStr)        // key_ecdsa_nid_from_name

  predicate Matches(q: Query, e: KeyTypeInfo) {
    match q
    case ByName(name) =>
      // Only allow short-name matches for plain key types.
      (e.name.Some? && |e.name.value| == |name| && e.name.value == name) ||
      (!e.cert && EqualsIgnoreCase(e.shortName, name))
    case ByType(t) => e.kind == t
    case ByTypeNid(t, nid) => e.kind == t && (e.nid == 0 || e.nid == nid)
    case EcdsaByName(name) =>
      (e.kind == Ecdsa || e.kind == EcdsaCert) && e.name.Some? && |e.name.value| == |name| && e.name.value == name
  }

  /** The index of the first row of `tbl` at or after `from` that
      matches `q`, or |tbl| when there is none. */
  function FindIn(tbl: seq<KeyTypeInfo>, q: Query, from: nat): (i: nat)
    requires from <= |tbl|
    ensures from <= i <= |tbl|
    decreases |tbl| - from
  {
    if from == |tbl| then from
    else if Matches(q, tbl[from]) then from
    else FindIn(tbl, q, from + 1)
  }

  /** The scan stops at the first matching row. */
  lemma {:induction false} FindInFirst(tbl: seq<KeyTypeInfo>, q: Query, from: nat)
    requires from <= |tbl|
    ensures FindIn(tbl, q, from) < |tbl| ==> Matches(q, tbl[FindIn(tbl, q, from)])
    ensures forall j :: from <= j < FindIn(tbl, q, from) ==> !Matches(q, tbl[j])
    decreases |tbl| - from
  {
    if from < |tbl| && !Matches(q, tbl[from]) {
      FindInFirst(tbl, q, from + 1);
    }
  }

  /** The scan of `keytypes` for the first row matching `q`. */
  function Find(q: Query): (i: nat)
    ensures i <= |KeyTable|
  {
    FindIn(KeyTable, q, 0)
  }

  lemma FindIs(q: Query, i: nat)
    requires i < |KeyTable| && Matches(q, KeyTable[i])
    requires forall j :: 0 <= j < i ==> !Matches(q, KeyTable[j])
    ensures Find(q) == i
  {
    FindInFirst(KeyTable, q, 0);
  }

  lemma FindNone(q: Query)
    requires forall j :: 0 <= j < |KeyTable| ==> !Matches(q, KeyTable[j])
    ensures Find(q) == |KeyTable|
  {
    FindInFirst(KeyTable, q, 0);
  }

  lemma FindFound(q: Query)
    ensures Find(q) < |KeyTable| ==> Matches(q, KeyTable[Find(q)])
    ensures forall j :: 0 <= j < Find(q) ==> !Matches(q, KeyTable[j])
  {
    FindInFirst(KeyTable, q, 0);
  }

  /** key_type: the short name of the first row of the key's type. */
  function ShortName(t: KeyType): CStr {
    var i := Find(ByType(t));
    if i < |KeyTable| then KeyTable[i].shortName else UNKNOWN
  }

  /** key_ssh_name_from_type_nid: the wire name of the first row with
      the type whose nid is 0 or the given nid; None for the nameless
      RSA1 row; "ssh-unknown" when no row matches. */
  function SshNameFromTypeNid(t: KeyType, nid: int): (r: Option<CStr>)
    ensures r == None ==> t == Rsa1
  {
    var i := Find(ByTypeNid(t, nid));
    if i < |KeyTable| then
      assert KeyTable[i].name.None? ==> i == 0;
      KeyTable[i].name
    else Some(SSH_UNKNOWN)
  }

  /** key_type_from_name. */
  function TypeFromName(name: CStr): KeyType {
    var i := Find(ByName(name));
    if i < |KeyTable| then KeyTable[i].kind else Unspec
  }

  /** key_ecdsa_nid_from_name: the curve of an exact ECDSA wire name, else -1. */
  function EcdsaNidFromName(name: CStr): int {
    var i := Find(EcdsaByName(name));
    if i < |KeyTable| then KeyTable[i].nid else -1
  }

  /** key_type_is_cert: the `cert` column of the type's first row. */
  function TypeIsCert(t: KeyType): bool {
    var i := Find(ByType(t));
    i < |KeyTable| && KeyTable[i].cert
  }

  /** key_type_is_valid_ca: the plain types that can sign certificates. */
  function IsValidCa(t: KeyType): bool {
    match t
    case Rsa | Dsa | Ecdsa | Ed25519 => true
    case _ => false
  }

  /** key_type_plain: the cert-less equivalent of a certificate type. */
  function TypePlain(t: KeyType): KeyType {
    match t
    case RsaCertV00 | RsaCert => Rsa
    case DsaCertV00 | DsaCert => Dsa
    case EcdsaCert => Ecdsa
    case Ed25519Cert => Ed25519
    case _ => t
  }

  /** key_cert_is_legacy: the v00 certificate formats. */
  function IsLegacy(t: KeyType): bool {
    t == DsaCertV00 || t == RsaCertV00
  }

  /** The families the switch statements of key.c group together. */
  predicate IsRsaFamily(t: KeyType) {
    t == Rsa1 || t == Rsa || t == RsaCertV00 || t == RsaCert
  }

  predicate IsDsaFamily(t: KeyType) {
    t == Dsa || t == DsaCertV00 || t == DsaCert
  }

  predicate IsEcdsaFamily(t: KeyType) {
    t == Ecdsa || t == EcdsaCert
  }

  predicate IsEd25519Family(t: KeyType) {
    t == Ed25519 || t == Ed25519Cert
  }

  /** The six certificate types, listed independently of the table. */
  predicate IsCertType(t: KeyType) {
    t == RsaCert || t == DsaCert || t == EcdsaCert || t == Ed25519Cert || t == RsaCertV00 || t == DsaCertV00
  }

  // ---------------------------------------------------------------
  // Curves (key_curve_name_to_nid, key_curve_nid_to_bits,
  // key_curve_nid_to_name, key_ecdsa_bits_to_nid).

  predicate IsCurveNid(nid: int) {
    nid == NID_X9_62_PRIME256V1 || nid == NID_SECP384R1 || nid == NID_SECP521R1
  }

  function CurveNameToNid(name: CStr): int {
    if name == CURVE_NISTP256 then NID_X9_62_PRIME256V1
    else if name == CURVE_NISTP384 then NID_SECP384R1
    else if name == CURVE_NISTP521 then NID_SECP521R1
    else -1
  }

  function CurveNidToBits(nid: int): nat {
    if nid == NID_X9_62_PRIME256V1 then 256
    else if nid == NID_SECP384R1 then 384
    else if nid == NID_SECP521R1 then 521
    else 0
  }

  function CurveNidToName(nid: int): Option<CStr> {
    if nid == NID_X9_62_PRIME256V1 then Some(CURVE_NISTP256)
    else if nid == NID_SECP384R1 then Some(CURVE_NISTP384)
    else if nid == NID_SECP521R1 then Some(CURVE_NISTP521)
    else None
  }

  function EcdsaBitsToNid(bits: int): int {
    if bits == 256 then NID_X9_62_PRIME256V1
    else if bits == 384 then NID_SECP384R1
    else if bits == 521 then NID_SECP521R1
    else -1
  }

  /** key_ec_nid_to_hash_alg: the hash for a curve of the given size,
      by section 6.2.1 of RFC 5656. An unknown curve is fatal. */
  function EcNidToHashAlg(nid: int): (r: DigestAlg)
    requires CurveNidToBits(nid) != 0
    ensures CurveNidToBits(nid) <= 256 ==> r == Sha256
    ensures 256 < CurveNidToBits(nid) <= 384 ==> r == Sha384
    ensures 384 < CurveNidToBits(nid) ==> r == Sha512
  {
    var kbits := CurveNidToBits(nid);
    if kbits <= 256 then Sha256
    else if kbits <= 384 then Sha384
    else Sha512
  }


  // ---------------------------------------------------------------
  // Properties of the registry.

  lemma NoRowIsUnspec()
    ensures forall j :: 0 <= j < |KeyTable| ==> KeyTable[j].kind != Unspec
  {
  }

  /** Every wire name in the table maps back to its own row's type:
      no earlier row matches it exactly or by short name. */
  lemma TypeFromNameOfTableName(i: nat)
    requires i < |KeyTable| && KeyTable[i].name.Some?
    ensures TypeFromName(KeyTable[i].name.value) == KeyTable[i].kind
  {
    var q := ByName(KeyTable[i].name.value);
    forall j | 0 <= j < i
      ensures !Matches(q, KeyTable[j])
    {
      NamesDiffer(i, j);
    }
    FindIs(q, i);
  }

  /** Two rows never share a wire name, and no wire name has the length
      of a plain row's short name. */
  lemma NamesDiffer(i: nat, j: nat)
    requires j < i < |KeyTable| && KeyTable[i].name.Some?
    ensures KeyTable[j].name != KeyTable[i].name
    ensures !KeyTable[j].cert ==> |KeyTable[j].shortName| != |KeyTable[i].name.value|
  {
    if i <= 6 {
      NamesDifferPlain(i, j);
    } else if i <= 11 {
      NamesDifferV01(i, j);
    } else {
      NamesDifferLate(i, j);
    }
  }

  lemma NamesDifferPlain(i: nat, j: nat)
    requires j < i <= 6
    ensures KeyTable[j].name != KeyTable[i].name
    ensures !KeyTable[j].cert ==> |KeyTable[j].shortName| != |KeyTable[i].name.value|
  {
    if i == 2 && j == 1 {
      assert NAME_DSA[4] != NAME_RSA[4];
    } else if i >= 5 && j >= 4 {
      assert KeyTable[i].name.value[16] != KeyTable[j].name.value[16];
    }
  }

  lemma NamesDifferV01(i: nat, j: nat)
    requires j < i && 7 <= i <= 11
    ensures KeyTable[j].name != KeyTable[i].name
    ensures !KeyTable[j].cert ==> |KeyTable[j].shortName| != |KeyTable[i].name.value|
  {
    if i == 8 && j == 7 {
      assert NAME_DSA_CERT[4] != NAME_RSA_CERT[4];
    } else if i >= 10 && j >= 9 {
      assert KeyTable[i].name.value[16] != KeyTable[j].name.value[16];
    }
  }

  lemma NamesDifferLate(i: nat, j: nat)
    requires j < i && 12 <= i < |KeyTable|
    ensures KeyTable[j].name != KeyTable[i].name
    ensures !KeyTable[j].cert ==> |KeyTable[j].shortName| != |KeyTable[i].name.value|
  {
    var a := KeyTable[i].name.value;
    if i < 14 && (j == 7 || j == 8 || j == 12) {
      var b := KeyTable[j].name.value;
      if (i == 12 && j == 8) || (i == 13 && j != 8) {
        assert a[4] != b[4];
      } else {
        assert a[15] != b[15];
      }
    }
  }

  /** key_ecdsa_nid_from_name returns the curve of every ECDSA row. */
  lemma EcdsaNidFromTableName(i: nat)
    requires i < |KeyTable| && IsEcdsaFamily(KeyTable[i].kind)
    ensures KeyTable[i].name.Some?
    ensures EcdsaNidFromName(KeyTable[i].name.value) == KeyTable[i].nid
    ensures IsCurveNid(KeyTable[i].nid)
  {
    var q := EcdsaByName(KeyTable[i].name.value);
    forall j | 0 <= j < i
      ensures !Matches(q, KeyTable[j])
    {
      if KeyTable[j].name.Some? {
        NamesDiffer(i, j);
      }
    }
    FindIs(q, i);
  }

  /** key_ecdsa_nid_from_name gives -1 or one of the three curves. */
  lemma EcdsaNidKnown(name: CStr)
    ensures EcdsaNidFromName(name) == -1 || IsCurveNid(EcdsaNidFromName(name))
  {
    FindFound(EcdsaByName(name));
    var i := Find(EcdsaByName(name));
    if i < |KeyTable| {
      EcdsaNidFromTableName(i);
    }
  }

  /** key_type_from_name gives KEY_UNSPEC exactly when no row matches. */
  lemma TypeFromNameUnspec(name: CStr)
    ensures TypeFromName(name) == Unspec <==>
      forall j :: 0 <= j < |KeyTable| ==> !Matches(ByName(name), KeyTable[j])
  {
    FindFound(ByName(name));
    NoRowIsUnspec();
  }

  /** No wire name in the table is longer than 40 characters, so every
      name fits a string length field. */
  lemma SshNameShort(t: KeyType, nid: int)
    ensures SshNameFromTypeNid(t, nid).Some? ==> |SshNameFromTypeNid(t, nid).value| <= 40
  {
    assert forall j :: 0 <= j < |KeyTable| && KeyTable[j].name.Some? ==> |KeyTable[j].name.value| <= 40;
  }

  /** The row that key_ssh_name_from_type_nid selects for a type with a
      wire name. */
  function RowOf(t: KeyType, nid: int): (w: nat)
    requires t != Rsa1 && t != Unspec
    requires IsEcdsaFamily(t) ==> IsCurveNid(nid)
    ensures w < |KeyTable| && Matches(ByTypeNid(t, nid), KeyTable[w])
  {
    match t
    case Rsa => 1
    case Dsa => 2
    case Ed25519 => 3
    case Ecdsa => if nid == NID_X9_62_PRIME256V1 then 4 else if nid == NID_SECP384R1 then 5 else 6
    case RsaCert => 7
    case DsaCert => 8
    case EcdsaCert => if nid == NID_X9_62_PRIME256V1 then 9 else if nid == NID_SECP384R1 then 10 else 11
    case RsaCertV00 => 12
    case DsaCertV00 => 13
    case Ed25519Cert => 14
  }

  /** key_ssh_name_from_type_nid and key_type_from_name are inverse on
      every type that has a wire name; for ECDSA the curve also survives
      through key_ecdsa_nid_from_name. */
  lemma SshNameRoundTrip(t: KeyType, nid: int)
    requires t != Rsa1 && t != Unspec
    requires IsEcdsaFamily(t) ==> IsCurveNid(nid)
    ensures SshNameFromTypeNid(t, nid).Some?
    ensures TypeFromName(SshNameFromTypeNid(t, nid).value) == t
    ensures IsEcdsaFamily(t) ==> EcdsaNidFromName(SshNameFromTypeNid(t, nid).value) == nid
  {
    var q := ByTypeNid(t, nid);
    var w := RowOf(t, nid);
    FindFound(q);
    var i := Find(q);
    assert i <= w;
    TypeFromNameOfTableName(i);
    if IsEcdsaFamily(t) {
      EcdsaNidFromTableName(i);
    }
  }

  /** RSA1's row has no wire name; an ECDSA type with an unknown curve,
      and KEY_UNSPEC, have no row, so their wire name is "ssh-unknown". */
  lemma SshNameWithoutRow(t: KeyType, nid: int)
    ensures t == Rsa1 ==> SshNameFromTypeNid(t, nid) == None
    ensures (t == Unspec || (IsEcdsaFamily(t) && !IsCurveNid(nid))) ==>
      SshNameFromTypeNid(t, nid) == Some(SSH_UNKNOWN)
  {
    if t == Rsa1 {
      FindIs(ByTypeNid(t, nid), 0);
    } else if t == Unspec || (IsEcdsaFamily(t) && !IsCurveNid(nid)) {
      FindNone(ByTypeNid(t, nid));
    }
  }

  /** The first row of each type, or |KeyTable| for KEY_UNSPEC. */
  function FirstRowOf(t: KeyType): (w: nat)
    ensures w <= |KeyTable|
    ensures w < |KeyTable| ==> KeyTable[w].kind == t
    ensures (w == |KeyTable|) == (t == Unspec)
  {
    match t
    case Rsa1 => 0
    case Rsa => 1
    case Dsa => 2
    case Ed25519 => 3
    case Ecdsa => 4
    case RsaCert => 7
    case DsaCert => 8
    case EcdsaCert => 9
    case RsaCertV00 => 12
    case DsaCertV00 => 13
    case Ed25519Cert => 14
    case Unspec => 15
  }

  lemma FindByType(t: KeyType)
    ensures Find(ByType(t)) == FirstRowOf(t)
  {
    if t == Unspec {
      NoRowIsUnspec();
      FindNone(ByType(t));
    } else {
      FindIs(ByType(t), FirstRowOf(t));
    }
  }

  /** key_type_is_cert agrees with the list of certificate types, and a
      type is a certificate type exactly when key_type_plain changes it. */
  lemma TypeIsCertExactly(t: KeyType)
    ensures TypeIsCert(t) == IsCertType(t)
    ensures TypeIsCert(t) == (TypePlain(t) != t)
  {
    FindByType(t);
  }

  /** key_type_plain is idempotent, its result is never a certificate
      type, and it keeps the key family. */
  lemma TypePlainIdempotent(t: KeyType)
    ensures TypePlain(TypePlain(t)) == TypePlain(t)
    ensures !TypeIsCert(TypePlain(t))
    ensures !TypeIsCert(t) ==> TypePlain(t) == t
    ensures IsRsaFamily(TypePlain(t)) == IsRsaFamily(t)
    ensures IsEcdsaFamily(TypePlain(t)) == IsEcdsaFamily(t)
  {
    TypeIsCertExactly(t);
    TypeIsCertExactly(TypePlain(t));
  }

  /** A valid CA type is exactly a plain type with a wire name. */
  lemma ValidCaIsPlainNamed(t: KeyType)
    ensures IsValidCa(t) == (!TypeIsCert(t) && t != Rsa1 && t != Unspec)
  {
    TypeIsCertExactly(t);
  }

  /** key_type returns each type's short name, and "unknown" for KEY_UNSPEC. */
  lemma ShortNameOfType(t: KeyType)
    ensures t != Unspec ==> ShortName(t) == KeyTable[FirstRowOf(t)].shortName
    ensures t == Unspec ==> ShortName(t) == UNKNOWN
  {
    FindByType(t);
  }

  /** Short names read back as their type for plain types only: a
      certificate's short name is not accepted by key_type_from_name. */
  lemma ShortNameRoundTrip(t: KeyType)
    requires t != Unspec
    ensures TypeFromName(ShortName(t)) == t <==> !IsCertType(t)
  {
    FindByType(t);
    if IsCertType(t) {
      CertShortNameRejected(t);
    } else {
      PlainShortNameAccepted(t);
    }
  }

  lemma CertShortNameRejected(t: KeyType)
    requires IsCertType(t)
    ensures TypeFromName(KeyTable[FirstRowOf(t)].shortName) == Unspec
  {
    var name := KeyTable[FirstRowOf(t)].shortName;
    assert |name| == 8 || |name| == 10 || |name| == 12;
    forall j | 0 <= j < |KeyTable|
      ensures !Matches(ByName(name), KeyTable[j])
    {
      assert KeyTable[j].cert || |KeyTable[j].shortName| != |name|;
      assert KeyTable[j].name.None? || |KeyTable[j].name.value| != |name|;
    }
    TypeFromNameUnspec(name);
  }

  lemma PlainShortNameAccepted(t: KeyType)
    requires t != Unspec && !IsCertType(t)
    ensures TypeFromName(KeyTable[FirstRowOf(t)].shortName) == t
  {
    var w := FirstRowOf(t);
    var name := KeyTable[w].shortName;
    forall j | 0 <= j < w
      ensures !Matches(ByName(name), KeyTable[j])
    {
      if w == 2 && j == 1 {
        assert Lower(name[0]) != Lower(KeyTable[j].shortName[0]);
      } else if w == 3 && j != 0 {
        assert name[0] != KeyTable[j].name.value[0];
      }
    }
    FindIs(ByName(name), w);
  }

  /** Short names match without regard to case: any spelling of "RSA" is
      KEY_RSA. */
  lemma ShortNameAnyCase(name: CStr)
    requires EqualsIgnoreCase(name, SHORT_RSA)
    ensures TypeFromName(name) == Rsa
  {
    FindIs(ByName(name), 1);
  }

  /** Any spelling of the ECDSA short name gives KEY_ECDSA, but names no
      curve: key_ecdsa_nid_from_name only knows the full wire names. */
  lemma EcdsaShortNameHasNoCurve(name: CStr)
    requires EqualsIgnoreCase(name, SHORT_ECDSA)
    ensures TypeFromName(name) == Ecdsa
    ensures EcdsaNidFromName(name) == -1
  {
    FindIs(ByName(name), 4);
    FindNone(EcdsaByName(name));
  }

  /** The curve tables agree with one another. */
  lemma CurveTablesAgree(nid: int)
    ensures CurveNidToName(nid).Some? == IsCurveNid(nid)
    ensures (CurveNidToBits(nid) != 0) == IsCurveNid(nid)
    ensures IsCurveNid(nid) ==> CurveNameToNid(CurveNidToName(nid).value) == nid
    ensures IsCurveNid(nid) ==> EcdsaBitsToNid(CurveNidToBits(nid)) == nid
  {
    assert CURVE_NISTP256[7] != CURVE_NISTP384[7] && CURVE_NISTP256[7] != CURVE_NISTP521[7];
    assert CURVE_NISTP384[7] != CURVE_NISTP521[7];
  }

  lemma CurveNameToNidInverse(name: CStr)
    ensures CurveNameToNid(name) != -1 ==> CurveNidToName(CurveNameToNid(name)) == Some(name)
    ensures CurveNameToNid(name) == -1 || IsCurveNid(CurveNameToNid(name))
  {
  }

  /** Each ECDSA row is named "ecdsa-sha2-" followed by the name of its
      curve (and the certificate suffix on certificate rows). */
  lemma EcdsaNamesCarryCurve(i: nat)
    requires i < |KeyTable| && IsEcdsaFamily(KeyTable[i].kind)
    ensures IsCurveNid(KeyTable[i].nid) && KeyTable[i].name.Some?
    ensures KeyTable[i].name.value ==
      ECDSA_PREFIX + CurveNidToName(KeyTable[i].nid).value + (if KeyTable[i].cert then CERT_V01 + OPENSSH_DOMAIN else [])
  {
  }

  /** The hash each NIST curve gets under section 6.2.1 of RFC 5656. */
  lemma HashPerCurve()
    ensures EcNidToHashAlg(NID_X9_62_PRIME256V1) == Sha256
    ensures EcNidToHashAlg(NID_SECP384R1) == Sha384
    ensures EcNidToHashAlg(NID_SECP521R1) == Sha512
  {
  }
}
