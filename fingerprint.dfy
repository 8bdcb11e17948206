// key_fingerprint_raw and key_fingerprint_hex: what is hashed for each
// key type, and the colon-separated hex rendering of the digest. The
// digest itself is the uninterpreted ssh_digest_memory of Primitives.
module Fingerprint {
  import opened Wrappers
  import opened Wire
  import opened KeyTypes
  import opened Keys
  import opened Primitives
  import opened BlobSpec

  /** The digest each fingerprint type selects. */
  function HashAlgOf(t: FpType): DigestAlg {
    match t
    case FpMd5 => Md5
    case FpSha1 => Sha1
    case FpSha256 => Sha256
  }

  /** What key_fingerprint_raw dereferences: the RSA structure of an
      RSA1 key, the key fields of the others. */
  predicate Fingerprintable(k: Key) {
    (k.kind == Rsa1 ==> k.rsa.Some?) && (k.kind != Rsa1 && k.kind != Unspec ==> HasWireFields(k))
  }

  /** The bytes key_fingerprint_raw hashes: n then e, each as
      BN_bn2bin writes it, for RSA1; the blob for plain keys; for
      certificates the blob of the plain key (to_blob with force_plain),
      so that a certificate has the fingerprint of its key. None for
      KEY_UNSPEC, which returns NULL. */
  function Preimage(k: Key): (r: Option<seq<byte>>)
    requires Fingerprintable(k)
    ensures r.None? <==> k.kind == Unspec
  {
    ValidCaIsPlainNamed(TypePlain(k.kind));
    TypePlainIdempotent(k.kind);
    match k.kind
    case Rsa1 => Some(MinBE(k.rsa.value.n) + MinBE(k.rsa.value.e))
    case Dsa | Ecdsa | Rsa | Ed25519 => BlobOf(k, false)
    case DsaCertV00 | RsaCertV00 | DsaCert | EcdsaCert | RsaCert | Ed25519Cert => BlobOf(k, true)
    case Unspec => None
  }

  /** key_fingerprint_raw: the digest of the preimage, of the digest's
      length; NULL (None) for KEY_UNSPEC. */
  function FingerprintRaw(ext: Externals, k: Key, t: FpType): (r: Option<seq<byte>>)
    requires Fingerprintable(k)
    ensures r.None? <==> k.kind == Unspec
    ensures r.Some? ==> |r.value| == DigestBytes(HashAlgOf(t))
  {
    match Preimage(k)
    case None => None
    case Some(blob) => Some(ext.digest(HashAlgOf(t), blob))
  }

  /** The plain key a certificate is for. */
  function PlainOf(k: Key): Key {
    k.(kind := TypePlain(k.kind), cert := None)
  }

  /** "We want a fingerprint of the key, not of the cert": a certificate
      hashes what its plain key hashes, so the two have one fingerprint
      whatever the certificate says. */
  lemma CertFingerprintIsKeyFingerprint(ext: Externals, k: Key, t: FpType)
    requires IsCertType(k.kind) && HasWireFields(k)
    ensures Fingerprintable(k) && Fingerprintable(PlainOf(k))
    ensures Preimage(k) == Preimage(PlainOf(k))
    ensures FingerprintRaw(ext, k, t) == FingerprintRaw(ext, PlainOf(k), t)
  {
    TypePlainIdempotent(k.kind);
    TypeIsCertExactly(k.kind);
    ValidCaIsPlainNamed(TypePlain(k.kind));
    var p := PlainOf(k);
    assert PublicFields(p) == PublicFields(k);
  }

  /** Two keys that differ only in their certificate have the same
      fingerprint. */
  lemma FingerprintIgnoresCert(ext: Externals, k: Key, c: Option<Cert>, t: FpType)
    requires IsCertType(k.kind) && HasWireFields(k)
    ensures Fingerprintable(k.(cert := c))
    ensures FingerprintRaw(ext, k, t) == FingerprintRaw(ext, k.(cert := c), t)
  {
    CertFingerprintIsKeyFingerprint(ext, k, t);
    CertFingerprintIsKeyFingerprint(ext, k.(cert := c), t);
    assert PlainOf(k.(cert := c)) == PlainOf(k);
  }

  /** An RSA1 fingerprint hashes the minimal big-endian bytes of n, then
      of e, from which both numbers are recovered once the length of n's
      bytes is known. */
  lemma Rsa1Preimage(k: Key)
    requires k.kind == Rsa1 && k.rsa.Some?
    ensures Fingerprintable(k) && Preimage(k).Some?
    ensures var b := Preimage(k).value; var w := |MinBE(k.rsa.value.n)|;
      w <= |b| && FromBE(b[..w]) == k.rsa.value.n && FromBE(b[w..]) == k.rsa.value.e
  {
    var b := Preimage(k).value;
    var w := |MinBE(k.rsa.value.n)|;
    assert b[..w] == MinBE(k.rsa.value.n);
    assert b[w..] == MinBE(k.rsa.value.e);
    MinBEValue(k.rsa.value.n);
    MinBEValue(k.rsa.value.e);
  }

  // ---------------------------------------------------------------
  // key_fingerprint_hex.

  const HEX_DIGITS: string := "0123456789abcdef"

  /** "%02x:" of one byte. */
  function HexGroup(b: byte): (r: string)
    ensures |r| == 3
  {
    [HEX_DIGITS[b / 16], HEX_DIGITS[b % 16], ':']
  }

  /** The groups of the bytes, one after another. */
  function HexGroups(d: seq<byte>): (r: string)
    ensures |r| == 3 * |d|
  {
    if d == [] then [] else HexGroups(d[..|d| - 1]) + HexGroup(d[|d| - 1])
  }

  /** The rendering: the groups without the final ':'. */
  function HexOf(d: seq<byte>): (r: string)
    requires |d| >= 1
    ensures |r| == 3 * |d| - 1
  {
    HexGroups(d)[..3 * |d| - 1]
  }

  /** key_fingerprint_hex: a zeroed buffer of 3n+1 characters, each byte
      appended as "%02x:", and the last ':' overwritten with NUL. The
      result is the string up to that NUL. The digest is never empty. */
  method FingerprintHex(d: seq<byte>) returns (s: string)
    requires |d| >= 1
    ensures s == HexOf(d)
  {
    var n := |d|;
    var retval := new char[3 * n + 1](_ => '\0');
    for i := 0 to n
      invariant retval[..3 * i] == HexGroups(d[..i])
    {
      var g := HexGroup(d[i]);
      var j := 3 * i;
      ghost var before := retval[..j];
      retval[j] := g[0];
      retval[j + 1] := g[1];
      retval[j + 2] := g[2];
      assert retval[..j + 3] == before + g;
      HexGroupsSnoc(d, i);
    }
    assert d[..n] == d;
    retval[3 * n - 1] := '\0';
    s := retval[..3 * n - 1];
  }

  lemma HexGroupsSnoc(d: seq<byte>, i: nat)
    requires i < |d|
    ensures HexGroups(d[..i + 1]) == HexGroups(d[..i]) + HexGroup(d[i])
  {
    assert d[..i + 1][..i] == d[..i];
  }

  /** The characters of the groups: the high digit, the low digit and
      ':' for each byte. */
  lemma {:induction false} HexGroupsAt(d: seq<byte>, i: nat)
    requires i < |d|
    ensures HexGroups(d)[3 * i] == HEX_DIGITS[d[i] / 16]
    ensures HexGroups(d)[3 * i + 1] == HEX_DIGITS[d[i] % 16]
    ensures HexGroups(d)[3 * i + 2] == ':'
  {
    var p := d[..|d| - 1];
    if i < |d| - 1 {
      HexGroupsAt(p, i);
      assert p[i] == d[i];
    }
  }

  /** The value of a lowercase hex digit. */
  function DigitValue(c: char): nat {
    if '0' <= c <= '9' then (c as int - '0' as int) as nat
    else if 'a' <= c <= 'f' then (c as int - 'a' as int + 10) as nat
    else 0
  }

  /** Reading n hex bytes back from a rendering. */
  function HexDecode(s: string, n: nat): (r: seq<byte>)
    requires |s| >= 3 * n - 1
    ensures |r| == n
  {
    if n == 0 then []
    else
      var hi := DigitValue(s[3 * (n - 1)]);
      var lo := DigitValue(s[3 * (n - 1) + 1]);
      HexDecode(s, n - 1) + [if hi < 16 && lo < 16 then 16 * hi + lo else 0]
  }

  lemma DigitValueOf(v: nat)
    requires v < 16
    ensures DigitValue(HEX_DIGITS[v]) == v
  {
  }

  /** The hex rendering is 3n-1 characters, a digit pair per byte with
      ':' between, and it determines the digest: reading it back gives
      the bytes. */
  lemma {:induction false} HexRoundTrip(d: seq<byte>, m: nat)
    requires |d| >= 1 && m <= |d|
    ensures HexDecode(HexOf(d), m) == d[..m]
  {
    if m > 0 {
      HexRoundTrip(d, m - 1);
      var i := m - 1;
      HexGroupsAt(d, i);
      DigitValueOf(d[i] / 16);
      DigitValueOf(d[i] % 16);
      assert d[..m] == d[..m - 1] + [d[i]];
    }
  }

  /** Different digests of one length render differently. */
  lemma HexInjective(d1: seq<byte>, d2: seq<byte>)
    requires |d1| == |d2| >= 1 && HexOf(d1) == HexOf(d2)
    ensures d1 == d2
  {
    HexRoundTrip(d1, |d1|);
    HexRoundTrip(d2, |d2|);
    assert d1[..|d1|] == d1 && d2[..|d2|] == d2;
  }

  /** The shape of the rendering: ':' exactly between the digit pairs. */
  lemma HexShape(d: seq<byte>, j: nat)
    requires |d| >= 1 && j < 3 * |d| - 1
    ensures (HexOf(d)[j] == ':') <==> (j % 3 == 2)
  {
    var i := j / 3;
    assert j == 3 * i + j % 3;
    HexGroupsAt(d, i);
    assert HexOf(d)[j] == HexGroups(d)[j];
    assert forall v :: 0 <= v < 16 ==> HEX_DIGITS[v] != ':';
  }
}
