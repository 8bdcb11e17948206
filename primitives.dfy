// What key.c calls but does not define: the per-algorithm signature
// code (ssh-dss.c, ssh-ecdsa.c, ssh-rsa.c, ssh-ed25519.c), the digest
// code, the EC validity checks, RSA blinding and the CRT parameters,
// and base64 (uuencode.c).
// Each is an uninterpreted function, gathered in one record that the
// operations take as a parameter; key_sign and key_verify, which only
// dispatch to them, are modelled here.
module Primitives {
  import opened Wrappers
  import opened Wire
  import opened KeyTypes
  import opened Keys

  /** The signature implementations key_sign and key_verify dispatch to. */
  datatype SigAlg = SigDss | SigEcdsa | SigRsa | SigEd25519

  /** What an ssh_*_verify call answers: 1, 0 or -1. */
  datatype Verdict = Good | Bad | Error

  /** ssh_digest_memory writes exactly ssh_digest_bytes(alg) bytes. */
  type DigestFn = f: (DigestAlg, seq<byte>) -> seq<byte> | forall a, m :: |f(a, m)| == DigestBytes(a)
    witness (a: DigestAlg, m: seq<byte>) => seq(DigestBytes(a), i => 0)

  datatype Externals = Externals(
    // ssh_*_sign: the signature blob, or None when it returns non-zero.
    sign: (SigAlg, Key, seq<byte>) -> Option<seq<byte>>,
    // ssh_*_verify(key, signature, data).
    verify: (SigAlg, Key, seq<byte>, seq<byte>) -> Verdict,
    // The octets decode to a point of the curve (EC_POINT_oct2point
    // and the length bound of bufec.c) and key_ec_validate_public
    // accepts it.
    ecPublicValid: (int, seq<byte>) -> bool,
    // key_ec_validate_private.
    ecPrivateValid: (int, nat) -> bool,
    digest: DigestFn,
    // uuencode: the base64 text, or None when it returns n <= 0.
    uuencode: seq<byte> -> Option<string>,
    // uudecode: the decoded bytes, or None when it returns n < 0.
    uudecode: string -> Option<seq<byte>>,
    // RSA_blinding_on succeeds.
    rsaBlindingOn: RsaKey -> bool,
    // rsa_generate_additional_parameters: dmq1 and dmp1 from d, p
    // and q (rsa.c is not part of this model).
    rsaCrt: (nat, nat, nat) -> (nat, nat))

  /** The case groups of the switches of key_sign and key_verify:
      certificate types go to the algorithm of their plain type; RSA1
      and KEY_UNSPEC reach the default case. */
  function SigAlgOf(t: KeyType): Option<SigAlg> {
    match t
    case Dsa | DsaCert | DsaCertV00 => Some(SigDss)
    case Ecdsa | EcdsaCert => Some(SigEcdsa)
    case Rsa | RsaCert | RsaCertV00 => Some(SigRsa)
    case Ed25519 | Ed25519Cert => Some(SigEd25519)
    case Rsa1 | Unspec => None
  }

  /** key_sign: the signature, or None (-1) for a type with no signer. */
  function KeySign(ext: Externals, k: Key, data: seq<byte>): (r: Option<seq<byte>>)
    ensures SigAlgOf(k.kind).None? ==> r.None?
    ensures SigAlgOf(k.kind).Some? ==> r == ext.sign(SigAlgOf(k.kind).value, k, data)
  {
    match SigAlgOf(k.kind)
    case None => None
    case Some(alg) => ext.sign(alg, k, data)
  }

  function VerdictCode(v: Verdict): int {
    match v
    case Good => 1
    case Bad => 0
    case Error => -1
  }

  /** key_verify: -1 for an empty signature before any dispatch, -1 for a
      type with no verifier, else the verifier's answer. */
  function KeyVerify(ext: Externals, k: Key, sig: seq<byte>, data: seq<byte>): (r: int)
    ensures r == 1 || r == 0 || r == -1
    ensures r == 1 ==> |sig| > 0 && SigAlgOf(k.kind).Some? && ext.verify(SigAlgOf(k.kind).value, k, sig, data) == Good
    ensures |sig| > 0 && SigAlgOf(k.kind).Some? ==> r == VerdictCode(ext.verify(SigAlgOf(k.kind).value, k, sig, data))
  {
    if |sig| == 0 then -1
    else
      match SigAlgOf(k.kind)
      case None => -1
      case Some(alg) => VerdictCode(ext.verify(alg, k, sig, data))
  }

  /** A zero-length signature is an error (-1), not a bad signature (0),
      whatever the key and the verifier. */
  lemma KeyVerifyEmpty(ext: Externals, k: Key, data: seq<byte>)
    ensures KeyVerify(ext, k, [], data) == -1
  {
  }

  /** Exactly the types with a wire name have a signer, and certificate
      types route to the algorithm of their plain type. */
  lemma SigAlgOfPlain(t: KeyType)
    ensures SigAlgOf(t) == SigAlgOf(TypePlain(t))
    ensures SigAlgOf(t).Some? <==> t != Rsa1 && t != Unspec
    ensures SigAlgOf(t).Some? <==> IsValidCa(TypePlain(t))
  {
  }

  /** Every valid CA type can sign, so key_certify's signing step never
      hits the default case. */
  lemma ValidCaSigns(t: KeyType)
    requires IsValidCa(t)
    ensures SigAlgOf(t).Some?
    ensures SigAlgOf(t).value == SigDss <==> t == Dsa
    ensures SigAlgOf(t).value == SigEcdsa <==> t == Ecdsa
    ensures SigAlgOf(t).value == SigRsa <==> t == Rsa
    ensures SigAlgOf(t).value == SigEd25519 <==> t == Ed25519
  {
  }
}
