# OpenSSH keys and certificates, modelled in Dafny

This project models the key layer of OpenSSH (`openssh/key.c` with its
declarations in `openssh/key.h`) and proves properties of the model.
It covers:

- the `keytypes` table and the lookups over it: names, short names, types, curves, hash per curve, the algorithm list and the name-list validator;
- the `Key` and `KeyCert` records and the record operations: `key_new`, `key_add_private`, `key_equal_public`, `key_equal`, `key_size`, `key_cert_copy`, `key_from_private`, `key_demote`, `key_to_certified` and `key_drop_cert`;
- the public wire blob: `to_blob` and `key_from_blob2`. Both work over a cursor buffer whose reads and writes follow the encodings of section 5 of RFC 4251. The key fields follow section 6.6 of RFC 4253, section 3.1 of RFC 5656 and section 4 of RFC 8709;
- certificates: `cert_parse`, `key_certify` and `key_cert_check_authority`;
- fingerprints: the preimage selection of `key_fingerprint_raw`, and the hex, bubblebabble and random-art renderers, which fill arrays in loops;
- the text line format of `key_read` (with `read_bignum`) and `key_write`;
- the private format of `key_private_serialize` and `key_private_deserialize`.

Cryptography enters as uninterpreted functions, gathered in the `Externals` record of `Primitives`:

- signing and verification;
- the digest;
- EC point and exponent validity;
- base64;
- the RSA CRT parameters;
- RSA blinding.

The modules follow the source's structure:

- **Wrappers**: `Option`.
- **Wire**: the byte encodings and their readers.
- **Buffers**: a `Buffer` class with a cursor.
- **KeyTypes**: the registry.
- **Keys**: the records.
- **Primitives**: the external algorithms, `key_sign` and `key_verify`.
- **NameLists**: `key_alg_list` and `key_names_valid2`.
- **BlobSpec, BlobCodec, BlobProps**: the blob codec. BlobSpec holds its specification functions, BlobCodec the buffer methods, and BlobProps the round trips and refusals.
- **Certificates, CertProps, CertRoundTrip**: `key_certify` against `cert_parse`.
- **Authority**: `key_cert_check_authority`.
- **Fingerprint, Babble, RandomArt**: the fingerprint renderings.
- **Strings, TextFormat, TextProps**: `key_read` and `key_write`.
- **PrivateFormat**: the private key format.

Where `key.c` calls `fatal()`, the model does one of two things:

- when only the caller can cause it (a broken key), it becomes a precondition;
- when a byte string from outside can reach it, it becomes a distinguished outcome (`Fatal`).

A NULL dereference that input can reach becomes `Crash`. The clock, the nonce and the base64 token are parameters.

## Model

| member | source | states |
|---|---|---|
| KeyTypes.Ordinal | openssh/key.h:47-60 | enum values in declaration order: KEY_RSA1 is 0 and KEY_UNSPEC, the last, is 11 |
| KeyTypes.OrdinalInjective | openssh/key.h:47-60 | distinct types have distinct enumerator values |
| KeyTypes.FindIn | openssh/key.c:1013-1017 | the table scan returns the first matching row at or after `from`, or the table length |
| KeyTypes.FindInFirst | openssh/key.c:1013-1017 | no row before the one found matches, and the one found does |
| KeyTypes.Find | openssh/key.c:1013-1017 | the result is a row index, or the table length when no row matches |
| KeyTypes.FindNone | openssh/key.c:1013-1017 | when the scan finds nothing, no row of the table matches |
| KeyTypes.FindFound | openssh/key.c:1013-1017 | when some row matches, the scan finds a row |
| KeyTypes.SshNameFromTypeNid | openssh/key.c:1009-1018 | key_ssh_name_from_type_nid: the NULL name only for RSA1 |
| KeyTypes.EcNidToHashAlg | openssh/key.c:2218-2231 | key_ec_nid_to_hash_alg: SHA-256 up to 256-bit curves, SHA-384 up to 384, SHA-512 above (section 6.2.1 of RFC 5656); an unknown curve is excluded as fatal |
| KeyTypes.HashPerCurve | openssh/key.c:2218-2231 | P-256 gets SHA-256, P-384 SHA-384, P-521 SHA-512 |
| KeyTypes.NoRowIsUnspec | openssh/key.c:962-994 | no row of the table has type KEY_UNSPEC |
| KeyTypes.TypeFromNameOfTableName | openssh/key.c:1034-1046 | every wire name of the table maps back to its own row's type |
| KeyTypes.NamesDiffer | openssh/key.c:962-994 | two rows never share a wire name, and no wire name has a plain short name's length |
| KeyTypes.EcdsaNidFromTableName | openssh/key.c:1049-1061 | key_ecdsa_nid_from_name gives the curve of every ECDSA row's wire name |
| KeyTypes.EcdsaNidKnown | openssh/key.c:1049-1061 | key_ecdsa_nid_from_name gives -1 or one of the three curves |
| KeyTypes.TypeFromNameUnspec | openssh/key.c:1034-1046 | key_type_from_name is KEY_UNSPEC exactly when no row matches the name exactly or, on a plain row, by short name |
| KeyTypes.SshNameShort | openssh/key.c:962-994 | no wire name is longer than 40 characters |
| KeyTypes.RowOf | openssh/key.c:1009-1018 | the row selected for a type with a wire name matches the type and curve |
| KeyTypes.SshNameRoundTrip | openssh/key.c:1009-1061 | the wire name of a type (and curve) maps back to that type, and for ECDSA to that curve |
| KeyTypes.SshNameWithoutRow | openssh/key.c:1009-1018 | RSA1 has no wire name; KEY_UNSPEC and an ECDSA type with an unknown curve get "ssh-unknown" |
| KeyTypes.FirstRowOf | openssh/key.c:997-1006 | the first row of each type, none for KEY_UNSPEC |
| KeyTypes.FindByType | openssh/key.c:997-1006 | the scan by type finds the type's first row |
| KeyTypes.TypeIsCertExactly | openssh/key.c:1086-1095 | key_type_is_cert holds exactly for the six certificate types, which are exactly those key_type_plain changes (see also lines 1913-1929) |
| KeyTypes.TypePlainIdempotent | openssh/key.c:1913-1929 | key_type_plain is idempotent, never yields a certificate type, and keeps the key family |
| KeyTypes.ValidCaIsPlainNamed | openssh/key.c:1098-1109 | a valid CA type is exactly a plain type with a wire name |
| KeyTypes.ShortNameOfType | openssh/key.c:997-1006 | key_type returns each type's short name and "unknown" for KEY_UNSPEC |
| KeyTypes.ShortNameRoundTrip | openssh/key.c:1034-1046 | a short name reads back as its type exactly for the plain types |
| KeyTypes.CertShortNameRejected | openssh/key.c:1040-1043 | a certificate's short name is not accepted by key_type_from_name |
| KeyTypes.PlainShortNameAccepted | openssh/key.c:1040-1043 | a plain type's short name is accepted as that type |
| KeyTypes.ShortNameAnyCase | openssh/key.c:1041 | any spelling of "RSA" is KEY_RSA (strcasecmp) |
| KeyTypes.EcdsaShortNameHasNoCurve | openssh/key.c:1041 | any spelling of "ECDSA" gives KEY_ECDSA but curve -1 (see also lines 1049-1061) |
| KeyTypes.CurveTablesAgree | openssh/key.c:2162-2214 | the curve name, bits and nid tables agree, and name/bits map back to the nid |
| KeyTypes.CurveNameToNidInverse | openssh/key.c:2162-2177 | a name that maps to a curve is that curve's name |
| KeyTypes.EcdsaNamesCarryCurve | openssh/key.c:962-994 | each ECDSA row's name is "ecdsa-sha2-" and its curve's name (and the certificate suffix) |
| Keys.CertNew | openssh/key.c:70-82 | cert_new: empty buffers, no key id, no principals, no CA key, zero numbers |
| Keys.KeyNew | openssh/key.c:85-148 | key_new: the type, flags 0, nid -1, the algorithm structure of the family (and only it), a fresh certificate exactly for certificate types, nothing private |
| Keys.AddPrivate | openssh/key.c:151-190 | key_add_private: zeroed private numbers for RSA and DSA, everything else unchanged |
| Keys.NewPrivate | openssh/key.c:193-199 | key_new_private: the type, private exactly for the RSA and DSA families |
| Keys.EqualPublic | openssh/key.c:295-349 | true only for keys of one plain type whose public parts are present |
| Keys.Equal | openssh/key.c:352-361 | key_equal: same type, matching certblobs for certificates, and key_equal_public |
| Keys.BitsIsBitLength | openssh/key.c:1112-1133 | BN_num_bits is the bit length: the least r with n < 2^r |
| Keys.KeySize | openssh/key.c:1112-1133 | the bit length of n or p, 256 for Ed25519, the curve bits (0 for an unknown curve), 0 for KEY_ED25519_CERT and KEY_UNSPEC |
| Keys.PublicParts | openssh/key.c:1332-1382 | the public half of each structure goes into `into`, whose type, flags and certificate are kept |
| Keys.FromPrivate | openssh/key.c:1332-1382 | key_from_private: a key of the same type with flags 0 |
| Keys.CertCopy | openssh/key.c:1287-1329 | key_cert_copy: only the certificate changes; it is present exactly when the source's is, equal to it in every field (certblob, critical options, extensions, serial, type, key id, validity, principals) but the CA key, which is present exactly when the source's is |
| Keys.CertCopyCaKey | openssh/key.c:1316-1317 | the copied CA key is key_from_private of the source's: public only, and equal to it |
| Keys.Demote | openssh/key.c:1830-1901 | key_demote: same type and flags |
| Keys.ToCertified | openssh/key.c:1933-1962 | key_to_certified: succeeds exactly for a valid CA type, changing only the type and giving a fresh certificate |
| Keys.DropCert | openssh/key.c:1966-1976 | key_drop_cert: succeeds exactly for certificate types, giving the plain type without a certificate; a certificate type must carry its certificate, which cert_free dereferences |
| Keys.EqualPublicReflexive | openssh/key.c:295-349 | a key is key_equal_public to itself exactly when its public part is present |
| Keys.EqualPublicSymmetric | openssh/key.c:295-349 | key_equal_public is symmetric |
| Keys.EqualPublicTransitive | openssh/key.c:295-349 | key_equal_public is transitive |
| Keys.EqualPublicIgnoresCert | openssh/key.c:295-349 | a certificate is key_equal_public to its plain key (see also lines 1966-1976) |
| Keys.EqualSymmetric | openssh/key.c:352-361 | key_equal is symmetric |
| Keys.FromPrivateIsPublic | openssh/key.c:1332-1382 | key_from_private keeps nothing private, keeps the public part and the presence of a certificate |
| Keys.DemoteIsFromPrivate | openssh/key.c:1830-1901 | key_demote is key_from_private except that flags and ecdsa_nid survive |
| Keys.FromPrivateEqual | openssh/key.c:1332-1382 | the copy is key_equal to the original (see also lines 352-361) |
| Keys.EqualIgnoresFlags | openssh/key.c:352-361 | key_equal reads neither flags nor ecdsa_nid |
| Keys.DemoteEqual | openssh/key.c:1830-1901 | the demoted key is key_equal to the original and holds nothing private |
| Keys.FromPrivateIdempotent | openssh/key.c:1332-1382 | key_from_private is idempotent |
| Keys.DropCertUndoesToCertified | openssh/key.c:1933-1976 | key_drop_cert undoes key_to_certified, whose type is a certificate type, legacy exactly when asked |
| Keys.ToCertifiedUndoesDropCert | openssh/key.c:1933-1976 | key_to_certified undoes key_drop_cert up to a fresh certificate |
| Primitives.KeySign | openssh/key.c:1764-1790 | key_sign: the signer of the type's algorithm, None for a type without one |
| Primitives.KeyVerify | openssh/key.c:1797-1826 | key_verify: 1, 0 or -1; 1 only for a non-empty signature the verifier accepts; otherwise the verifier's verdict |
| Primitives.KeyVerifyEmpty | openssh/key.c:1802-1803 | an empty signature gives -1, whatever the key and verifier |
| Primitives.SigAlgOfPlain | openssh/key.c:1766-1825 | certificate types route to their plain type's algorithm; exactly the named types have one |
| Primitives.ValidCaSigns | openssh/key.c:1098-1109 | every valid CA type has a signer of its own algorithm (see also lines 1766-1790) |
| NameLists.AlgList | openssh/key.c:1064-1083 | key_alg_list: NULL when no row is selected, else the selected wire names in table order joined by newlines |
| NameLists.SelectedNamesMembers | openssh/key.c:1064-1083 | a name is listed exactly when a selected row carries it |
| NameLists.SelectedNamesBothFilters | openssh/key.c:1064-1083 | asking for certificates only and plain only selects nothing |
| NameLists.AlgListMembers | openssh/key.c:1064-1083 | the full, certificate and plain lists hold exactly the named rows, certificate rows and plain rows |
| NameLists.Elements | openssh/key.c:1385-1404 | the strsep elements of a list |
| NameLists.NamesValid2 | openssh/key.c:1385-1404 | key_names_valid2 agrees with NamesValid: NULL and "" invalid, then each element up to the first empty one must name a type other than RSA1 |
| NameLists.ValidPrefixStops | openssh/key.c:1392-1393 | the scan stops at the first empty element |
| NameLists.NamesValidIgnoresAfterEmpty | openssh/key.c:1392-1393 | whatever follows ",," is never checked |
| NameLists.NamesValidSingle | openssh/key.c:1385-1404 | a single name is valid exactly when it is accepted |
| NameLists.ValidPrefixAll | openssh/key.c:1385-1404 | without empty elements, valid exactly when every element is accepted |
| Strings.Split | openssh/key.c:1390-1391 | strsep always yields at least one element, the last rest |
| Strings.SplitJoin | openssh/key.c:1390-1391 | joining the elements with the separator gives the text back |
| Strings.SplitNoSeparator | openssh/key.c:1390-1391 | no element holds a separator |
| Strings.SplitAppend | openssh/key.c:1390-1391 | the elements of `a,b` are those of a, then those of b |
| Strings.SplitDoubleSeparator | openssh/key.c:1392-1393 | two adjacent separators enclose an empty element |
| Strings.Decimal | openssh/key.c:872-941 | "%u" writes at least one digit |
| Strings.DecimalRoundTrip | openssh/key.c:644-691 | written digits read back as the number |
| Strings.DecimalWidth | openssh/key.c:547-548 | a number below 10^4 takes at most four digits |
| Wire.CPrefixOfCStr | openssh/key.c:2499-2501 | a C string's bytes, seen up to the first NUL, are the C string |
| Wire.MinBEValue | openssh/key.c:388-397 | BN_bn2bin's bytes read back as the number |
| Wire.BitsBounds | openssh/key.c:1112-1133 | 2^(bits-1) <= n < 2^bits for n > 0 |
| Wire.ReadStringEnc | openssh/key.c:1549 | a string reads back, leaving what follows (see also lines 1606, 1640) |
| Wire.ReadCStringEnc | openssh/key.c:1549 | a C string reads back, leaving what follows |
| Wire.ReadMpintEnc | openssh/key.c:1570-1596 | an mpint reads back, leaving what follows |
| Wire.ReadEcPointEnc | openssh/key.c:1621-1625 | an uncompressed point reads back, leaving what follows |
| Wire.ReadU32Enc | openssh/key.c:1424-1440 | a uint32 reads back |
| Wire.ReadU64Enc | openssh/key.c:1424-1440 | a uint64 reads back |
| Buffers.Buffer.PutString | openssh/key.c:1712-1739 | appends the string encoding to the contents |
| Buffers.Buffer.PutMpint | openssh/key.c:1712-1739 | appends the mpint encoding to the contents |
| Buffers.Buffer.GetString | openssh/key.c:1549-1652 | the reader's value and remaining contents, unchanged on failure |
| Buffers.Buffer.GetMpint | openssh/key.c:1570-1596 | the reader's value and remaining contents, unchanged on failure |
| BlobSpec.BlobOf | openssh/key.c:1686-1755 | to_blob: the certblob for certificates, name and key fields for plain keys, None otherwise |
| BlobSpec.SkipNonce | openssh/key.c:1564-1565 | -v01 types skip the nonce string (a failed read is ignored); the rest never grows (see also lines 1582-1583, 1600-1601, 1636-1637) |
| BlobSpec.DecodeRsa | openssh/key.c:1567-1581 | a decoded key has the type and an RSA structure |
| BlobSpec.DecodeDsa | openssh/key.c:1585-1599 | a decoded key has the type and a DSA structure |
| BlobSpec.DecodeEcdsa | openssh/key.c:1603-1635 | a decoded key has the expected curve, a known one, in both its nid and its group |
| BlobSpec.DecodeEd25519 | openssh/key.c:1639-1652 | a decoded key has a public key of ED25519_PK_SZ bytes |
| BlobSpec.DecodeFields | openssh/key.c:1563-1659 | the switch: KEY_UNSPEC reads nothing, RSA1 is refused |
| BlobSpec.ParseBlob | openssh/key.c:1531-1677 | key_from_blob2 with the unread rest: a key comes only from a readable type string and has its type, and a certificate type only when allowed |
| BlobSpec.DecodeBlob | openssh/key.c:1531-1677 | key_from_blob2: a key has the type of the blob's type string, and a certificate type only when allowed |
| BlobSpec.ReadCert | openssh/key.c:1424-1445 | cert_parse's reads and the signed span |
| BlobSpec.CheckCert | openssh/key.c:1447-1518 | the certificate's checks |
| BlobCodec.ToBlob | openssh/key.c:1686-1755 | to_blob, writing into a buffer, gives BlobOf |
| BlobCodec.KeyFromBlob2 | openssh/key.c:1531-1677 | key_from_blob2, reading from a buffer, gives DecodeBlob |
| BlobCodec.DecodeFieldsFrom | openssh/key.c:1563-1659 | the switch over the buffer agrees with DecodeFields |
| BlobCodec.ReadEd25519 | openssh/key.c:1636-1652 | the Ed25519 case over the buffer agrees with DecodeEd25519 and leaves the rest |
| BlobCodec.ReadEcdsa | openssh/key.c:1603-1635 | the ECDSA case over the buffer agrees with DecodeEcdsa |
| BlobCodec.ReadPrincipals | openssh/key.c:1452-1471 | the principals loop over a scratch buffer agrees with Principals |
| BlobCodec.CheckPairs | openssh/key.c:1472-1491 | the string-pair loop agrees with StringPairs |
| BlobCodec.CertParse | openssh/key.c:1407-1528 | cert_parse over the buffer agrees with ReadCert then CheckCert |
| BlobProps.DecodeFieldsOf | openssh/key.c:1563-1652 | each family reads back its key fields, after the nonce, leaving the rest |
| BlobProps.PlainRoundTrip | openssh/key.c:1563-1652 | key_from_blob2 of to_blob of a plain key is its decoded form, the rest unread (see also lines 1712-1739) |
| BlobProps.PlainRoundTripEqual | openssh/key.c:1531-1755 | the decoded key is key_from_private of the original and key_equal to it, with nothing left |
| BlobProps.UnreadableTypeName | openssh/key.c:1549-1551 | an unreadable type string gives NULL |
| BlobProps.CertificateNotAllowed | openssh/key.c:1559-1561 | a certificate type with allow_cert 0 gives NULL |
| BlobProps.Rsa1NameRefused | openssh/key.c:1656-1658 | "RSA1", in any case, gives NULL |
| BlobProps.UnknownNameIsUnspec | openssh/key.c:1653-1655 | an unknown name gives a KEY_UNSPEC key |
| BlobProps.MissingNumber | openssh/key.c:1570-1596 | a missing first number gives NULL |
| BlobProps.MissingModulus | openssh/key.c:1570-1576 | a missing n after e gives NULL |
| BlobProps.Ed25519WrongLength | openssh/key.c:1644-1647 | a key string not of 32 bytes: the corrected decoder gives NULL; key.c is fatal |
| BlobProps.Ed25519FieldsAsWritten | openssh/key.c:1640-1648 | as written, the case reaches key_free(NULL), fatal, exactly when the key string is missing or not 32 bytes long; otherwise it has the 32-byte string |
| BlobProps.Ed25519FatalBecomesNull | openssh/key.c:1639-1651 | the corrected decoder gives NULL exactly where key.c is fatal, and elsewhere the key key.c builds |
| BlobProps.Ed25519ShortBlobReachesFatal | openssh/key.c:1531-1648 | a blob naming ssh-ed25519 with a missing or short key string reaches the fatal path; the corrected key_from_blob2 gives NULL |
| BlobProps.Ed25519FatalExample | openssh/key.c:1639-1648 | the blob holding only the name "ssh-ed25519" |
| BlobProps.EcdsaCurveMismatch | openssh/key.c:1610-1613 | a curve string not the name's curve gives NULL |
| BlobProps.ShortRsaNameDecodes | openssh/key.c:1041 | a blob named "rsa" decodes as RSA (see also lines 1567-1581) |
| BlobProps.DecodedKeysAreComplete | openssh/key.c:1531-1677 | a decoded key has its family's fields and a known curve; a certificate keeps the whole blob |
| BlobProps.PrincipalsEnc | openssh/key.c:1452-1471 | the principals loop reads back what was written, refusing more than 256 (see also lines 2054-2058) |
| BlobProps.PrincipalsLimit | openssh/key.c:1455-1457 | 256 principals are accepted and the 257th is refused |
| BlobProps.PrincipalsBound | openssh/key.c:1455-1457 | whatever is accepted has at most CERT_MAX_PRINCIPALS entries |
| BlobProps.StringPairsEnc | openssh/key.c:1472-1491 | name and data pairs pass the structure check |
| BlobProps.StringPairsOdd | openssh/key.c:1472-1491 | a name without its data fails it |
| BlobProps.CurveCheckAsWritten | openssh/key.c:1610-1618 | the as-written check: fatal exactly when both nids are -1 |
| BlobProps.EcdsaShortNameReachesFatal | openssh/key.c:1556-1618 | "ECDSA" with an unknown curve reaches the fatal branch as written; the corrected decoder gives NULL |
| BlobProps.EcdsaFatalExample | openssh/key.c:1556-1618 | the concrete blob "ECDSA", "x" |
| Certificates.FieldsOf | openssh/key.c:2048-2078 | the fields written, legacy ones without serial and extensions |
| Certificates.WithCertblob | openssh/key.c:2005-2089 | only the certblob changes |
| Certificates.Certify | openssh/key.c:1980-2093 | 0 or -1; the key unchanged or only its certblob replaced |
| Certificates.KeyCertify | openssh/key.c:1980-2093 | key_certify, writing into a buffer, agrees with Certify |
| Certificates.CertTypeHasFields | openssh/key.c:2014-2044 | every certificate type has a key-field case |
| Certificates.EncodePrincipals | openssh/key.c:2054-2058 | the principals loop writes one C string each |
| Certificates.EncPrincipalsAppend | openssh/key.c:2054-2058 | the principals string of a concatenation is the concatenation |
| CertProps.ReadCertFieldsEnc | openssh/key.c:1424-1440 | cert_parse reads the fields key_certify wrote, in order, in both formats (see also lines 2048-2078) |
| CertProps.SignedSpanIsSigned | openssh/key.c:1440 | the signed span cert_parse computes is exactly what key_certify signed (see also lines 2082-2089) |
| CertProps.ParseBlobCertName | openssh/key.c:1531-1677 | a certificate blob decodes as key fields then cert_parse |
| CertProps.CheckCertPasses | openssh/key.c:1447-1518 | the checks pass for a USER/HOST type, a valid CA and a verifying signature |
| CertRoundTrip.CertTbsLayout | openssh/key.c:2005-2078 | the layout of the signed bytes |
| CertRoundTrip.CertifySucceeds | openssh/key.c:2082-2092 | on a signature, 0 and the certblob is the signed bytes then the signature |
| CertRoundTrip.CertKeyPartParses | openssh/key.c:1549-1652 | the name and key fields decode as the public part |
| CertRoundTrip.CaBlobDecodes | openssh/key.c:1494-1497 | the CA blob decodes as the CA's public part |
| CertRoundTrip.CertBlobParses | openssh/key.c:1407-1528 | a verifying certificate blob parses back as the certified key, nothing left |
| CertRoundTrip.CertifyRoundTrip | openssh/key.c:1407-1528 | key_from_blob2 of key_certify's certblob is the certified key (see also lines 1980-2093) |
| CertRoundTrip.CertifyRefuses | openssh/key.c:1986-2001 | a missing certificate, a non-certificate type or a bad CA type: -1, key untouched |
| CertRoundTrip.CertifySigns | openssh/key.c:2082-2087 | a failed signature: -1 and an empty certblob |
| Authority.CheckAuthority | openssh/key.c:2096-2146 | the return code and reason follow Check |
| Authority.AuthorizedIff | openssh/key.c:2096-2146 | 0 exactly for the right type, valid_after <= now < valid_before, principals when required, and a given name among them |
| Authority.ReasonOrder | openssh/key.c:2096-2146 | which reason is reported, in the order of the checks |
| Authority.NoNameSkipsPrincipals | openssh/key.c:2128-2143 | without a name the list is not compared |
| Authority.MorePrincipalsKeepsName | openssh/key.c:2128-2143 | listing more principals never revokes a listed name |
| Fingerprint.Preimage | openssh/key.c:388-417 | None exactly for KEY_UNSPEC |
| Fingerprint.FingerprintRaw | openssh/key.c:364-430 | None exactly for KEY_UNSPEC, else of the digest's length |
| Fingerprint.CertFingerprintIsKeyFingerprint | openssh/key.c:398-409 | a certificate hashes what its plain key hashes |
| Fingerprint.FingerprintIgnoresCert | openssh/key.c:398-409 | the certificate contents do not change the fingerprint |
| Fingerprint.Rsa1Preimage | openssh/key.c:388-397 | the RSA1 preimage is n then e, both recoverable |
| Fingerprint.FingerprintHex | openssh/key.c:433-448 | key_fingerprint_hex gives HexOf |
| Fingerprint.HexGroupsAt | openssh/key.c:442-445 | high digit, low digit, ':' per byte |
| Fingerprint.HexRoundTrip | openssh/key.c:433-448 | the rendering reads back as the digest |
| Fingerprint.HexInjective | openssh/key.c:433-448 | distinct digests of one length render differently |
| Fingerprint.HexShape | openssh/key.c:433-448 | ':' exactly between the digit pairs |
| Babble.SeedAt | openssh/key.c:464-480 | the seed stays below 36 |
| Babble.ByteLetters | openssh/key.c:466-474 | a byte gives three letters |
| Babble.Tuple | openssh/key.c:462-490 | a full tuple has six letters, the last one three |
| Babble.FingerprintBubbleBabble | openssh/key.c:451-495 | key_fingerprint_bubblebabble gives the rendering: 'x', the tuples in order, 'x' |
| Babble.ByteLettersInjective | openssh/key.c:466-474 | under one seed, the three letters determine the byte |
| Babble.TupleInjective | openssh/key.c:462-490 | under one seed, a tuple determines its bytes |
| Babble.ParityVisible | openssh/key.c:482-488 | the last tuple's middle letter is 'x' exactly for an even length |
| Babble.BabbleInjective | openssh/key.c:451-495 | the rendering determines the digest |
| Babble.BabbleUnique | openssh/key.c:451-495 | the rendering of a digest is unique |
| Babble.BabbleDashes | openssh/key.c:475-476 | a '-' sits inside each full tuple |
| RandomArt.Clamp | openssh/key.c:570-573 | MAX then MIN: within [0, hi] |
| RandomArt.Step | openssh/key.c:565-573 | a move stays in the field |
| RandomArt.Walk | openssh/key.c:559-578 | the walk stays in the field |
| RandomArt.Cell | openssh/key.c:575-585 | a cell's counter never passes the last symbol, the 'E' |
| RandomArt.Crawl | openssh/key.c:559-579 | the walk loop leaves the field counted and returns the end of the walk |
| RandomArt.Mark | openssh/key.c:582-584 | start and end marks set, E over S |
| RandomArt.FingerprintRandomart | openssh/key.c:531-604 | key_fingerprint_randomart gives Art |
| RandomArt.TopLine | openssh/key.c:586-592 | the upper border of 20 characters |
| RandomArt.RowLine | openssh/key.c:595-600 | a row line of 20 characters |
| RandomArt.ArtCell | openssh/key.c:586-603 | each field cell shows its counter's symbol |
| RandomArt.ArtFrame | openssh/key.c:586-603 | the frame's characters |
| RandomArt.CellSymbols | openssh/key.c:575-600 | blank exactly when never visited, 'E' and 'S' only at the marks |
| RandomArt.ArtEnd | openssh/key.c:531-604 | 219 characters; exactly one 'E', at the walk's end; 'S' at the start when they differ |
| RandomArt.HeaderFits | openssh/key.c:586-587 | a short name and a size below 10000 fit the header |
| RandomArt.Ed25519Header | openssh/key.c:586-587 | for Ed25519 (256 bits) snprintf cuts the closing ']' |
| TextFormat.SkipDigitsAt | openssh/key.c:651-655 | the digit scan stops at the end of the run |
| TextFormat.WrappedDecimal | openssh/key.c:711-715 | the u_int count: decimal modulo 2^32 |
| TextFormat.WrappedDecimalValue | openssh/key.c:711-715 | the count is the decimal value modulo 2^32 |
| TextFormat.NumberAt | openssh/key.c:644-678 | read_bignum: blanks, then digits |
| TextFormat.NumberAtDigits | openssh/key.c:644-691 | read_bignum reads what write_bignum wrote |
| TextFormat.ReadBignum | openssh/key.c:644-678 | read_bignum: ok exactly when NumberAt succeeds; the cursor unchanged on failure |
| TextFormat.Rsa1Line | openssh/key.c:710-731 | the RSA1 case returns 1 or -1, and a success moves the cursor forward |
| TextFormat.Transfer | openssh/key.c:802-853 | ret keeps its type, flags and Ed25519 secret |
| TextFormat.NamedLine | openssh/key.c:744-863 | 1 or -1; a failure leaves the cursor where it was, a success moves it past the space |
| TextFormat.ReadLine | openssh/key.c:695-869 | key_read returns 1 or -1 and the cursor never moves back |
| TextFormat.KeyReadRsa1 | openssh/key.c:710-731 | the RSA1 case agrees with Rsa1Line |
| TextFormat.KeyReadNamed | openssh/key.c:744-863 | the named-blob case agrees with NamedLine |
| TextFormat.KeyRead | openssh/key.c:695-869 | key_read agrees with ReadLine |
| TextFormat.KeyWrite | openssh/key.c:872-941 | key_write: 0 or 1, 0 exactly with nothing written, 0 for a certificate without a certblob and for a missing structure |
| TextProps.WireNamesHaveNoBlank | openssh/key.c:962-994 | no wire name holds a blank |
| TextProps.Rsa1LineReads | openssh/key.c:710-731 | the RSA1 line "c e n" reads back |
| TextProps.Rsa1RoundTrip | openssh/key.c:680-731 | key_read of key_write's RSA1 line restores e and n (see also lines 876-889) |
| TextProps.Rsa1ZeroModulusRefused | openssh/key.c:716-717 | a zero modulus writes count 0, which key_read refuses |
| TextProps.Rsa1CountWraps | openssh/key.c:711-725 | a count 2^32 too large is accepted |
| TextProps.Rsa1MismatchKeepsParts | openssh/key.c:720-729 | a wrong count is refused but e, n and the cursor moved |
| TextProps.PlainWritten | openssh/key.c:890-941 | a plain key's line: name, space, base64 of the blob |
| TextProps.PlainLineRoundTrip | openssh/key.c:744-863 | key_read of key_write's line for a plain key gives ret its public parts (see also lines 890-941) |
| TextProps.NoSpaceRefused | openssh/key.c:744-747 | no space after the cursor: refused, nothing changed |
| TextProps.UnknownNameRefused | openssh/key.c:758-761 | an unknown name: refused, nothing changed |
| TextProps.EcdsaShortNameRefused | openssh/key.c:751-755 | "ECDSA" without a curve: refused |
| TextProps.ShortLineRefused | openssh/key.c:763-766 | nothing after the space: refused |
| TextProps.TypeMismatchRefused | openssh/key.c:767-773 | a ret of another type: refused |
| TextProps.FailedDecodeKeepsType | openssh/key.c:767-781 | a ret of no type takes the line's type even if decoding then fails |
| TextProps.DecodedMismatchRefused | openssh/key.c:784-799 | a decoded key of another type or curve: refused |
| PrivateFormat.Serialize | openssh/key.c:2417-2483 | key_private_serialize appends the name and the fields of the key's case, in order |
| PrivateFormat.PutPrivateFields | openssh/key.c:2420-2482 | the fields of each case of the switch |
| PrivateFormat.PutCertTail | openssh/key.c:2435-2438 | the private numbers written after a certblob (see also lines 2453, 2467, 2479-2480) |
| PrivateFormat.RsaPrivate | openssh/key.c:2572-2583 | the KEY_RSA case gives an RSA key with private parts |
| PrivateFormat.DsaPrivate | openssh/key.c:2502-2509 | the KEY_DSA case gives a DSA key with the private value |
| PrivateFormat.EcdsaPrivate | openssh/key.c:2520-2552 | the KEY_ECDSA case only succeeds on a known curve, which the key carries |
| PrivateFormat.Ed25519Private | openssh/key.c:2596-2606 | only the two strings change, 32 and 64 bytes (see also lines 2613-2621) |
| PrivateFormat.CertPrivateFields | openssh/key.c:2515-2519 | a crash exactly when the case dereferences a missing structure of the case's family (see also lines 2557-2570, 2589-2595, 2611-2621) |
| PrivateFormat.RsaCertNumbers | openssh/key.c:2589-2595 | d, iqmp, p, q replaced; n, e, dmq1, dmp1 kept |
| PrivateFormat.RestoredIsKey | openssh/key.c:2486-2643 | a plain key with nothing extra comes back whole but for its flags |
| PrivateFormat.DsaFieldsRead | openssh/key.c:2440-2445 | the DSA case reads back what was written (see also lines 2502-2509) |
| PrivateFormat.RsaFieldsRead | openssh/key.c:2421-2427 | the RSA case reads back what was written (see also lines 2572-2583) |
| PrivateFormat.EcdsaFieldsRead | openssh/key.c:2456-2460 | the ECDSA case reads back what was written (see also lines 2520-2552) |
| PrivateFormat.Ed25519FieldsRead | openssh/key.c:2470-2472 | the Ed25519 case reads back what was written (see also lines 2596-2606) |
| PrivateFormat.NameRead | openssh/key.c:2499-2501 | the type string is read first and selects the case |
| PrivateFormat.BlindingKeeps | openssh/key.c:2627-2641 | blinding keeps a restored RSA key |
| PrivateFormat.PlainPrivateRoundTrip | openssh/key.c:2417-2643 | deserialize of serialize of a plain key restores it, with or without the type check |
| PrivateFormat.CertRestored | openssh/key.c:2510-2621 | the restored certificate key has the written type and the decoded certificate |
| PrivateFormat.CertTailRead | openssh/key.c:2515-2621 | the private numbers after the certblob are read into the certificate's key |
| PrivateFormat.CertName | openssh/key.c:2419 | a certificate's wire name maps back to its type (see also lines 1009-1046) |
| PrivateFormat.CertPrivateRoundTrip | openssh/key.c:2417-2643 | deserialize of serialize of a certificate key is the decoded certificate key with the written private numbers |
| PrivateFormat.CertRestoredKeeps | openssh/key.c:2510-2621 | that key keeps the certblob and the written private numbers |
| PrivateFormat.UnknownTypeRefused | openssh/key.c:2622-2625 | KEY_UNSPEC and RSA1 names: NULL with the buffer cleared |
| PrivateFormat.EmptyNameIsUnspec | openssh/key.c:1034-1046 | the empty name is KEY_UNSPEC |
| PrivateFormat.SshUnknownIsUnspec | openssh/key.c:1034-1046 | "ssh-unknown" is KEY_UNSPEC |
| PrivateFormat.UnspecBlob | openssh/key.c:2419-2483 | a KEY_UNSPEC key writes only "ssh-unknown" |
| PrivateFormat.UnspecNotReadBack | openssh/key.c:2419 | what a KEY_UNSPEC key writes reads back as NULL (see also lines 2622-2625) |
| PrivateFormat.EcdsaShortNameFatal | openssh/key.c:2520-2525 | "ECDSA" in any case is fatal: no curve |
| PrivateFormat.DsaCertMismatch | openssh/key.c:2510-2519 | a DSA-certificate name with a non-DSA certblob crashes as written; NULL with the check |
| PrivateFormat.DsaCertCrashExample | openssh/key.c:2510-2519 | the concrete buffer that crashes |
| PrivateFormat.DecodedKeyFamilies | openssh/key.c:1531-1677 | only a decoded DSA-family key has a DSA structure |
| PrivateFormat.CertPrivateChecked | openssh/key.c:2510-2621 | with the check, a certificate case never crashes and an RSA key has its structure |
| PrivateFormat.CertFieldsComplete | openssh/key.c:2515-2621 | a certificate key of the announced type has what the case dereferences |
| PrivateFormat.ReadFieldsChecked | openssh/key.c:2501-2626 | with the check, the switch never crashes |
| PrivateFormat.PlainPrivateComplete | openssh/key.c:2502-2606 | the plain cases never crash |
| PrivateFormat.ReadPrivateNeverCrashes | openssh/key.c:2486-2643 | the corrected reader never dereferences a missing structure, whatever the buffer |
| PrivateFormat.CheckOnlyRefuses | openssh/key.c:2486-2643 | where the corrected reader differs from key.c it answers NULL |
| PrivateFormat.PrivateFields | openssh/key.c:2420-2482 | the fields after the name are empty exactly for KEY_UNSPEC, whose case writes nothing |
| PrivateFormat.PrivateBlob | openssh/key.c:2417-2483 | the blob starts with the key's wire name as a string that reads back, and its fields follow |
| PrivateFormat.CertPrivate | openssh/key.c:2510-2519 | a certificate case: no certblob string is fatal; with the type check a restored key has the announced type |
| PrivateFormat.CertKeyPrivate | openssh/key.c:2515-2519 | the restored key keeps the decoded certificate key's type and certificate |
| PrivateFormat.ReadFields | openssh/key.c:2501-2626 | the switch: KEY_UNSPEC and RSA1 names give NULL with the buffer cleared; a restored key of a plain name has that name's type |
| PrivateFormat.PlainPrivate | openssh/key.c:2502-2606 | the plain cases never crash; NULL exactly for KEY_UNSPEC and RSA1, with the buffer cleared; a restored key has the name's type |
| PrivateFormat.Blinding | openssh/key.c:2629-2641 | only an RSA-family key can change: a crash when it has no RSA structure, NULL with the rest when RSA_blinding_on fails; a key with blinding on is kept |
| PrivateFormat.ReadPrivateWith | openssh/key.c:2486-2643 | either reader: a missing type string is fatal; a restored key has its name's type when checked or plain |
| PrivateFormat.ReadPrivateAsWritten | openssh/key.c:2486-2643 | key_private_deserialize as written: a missing type string is fatal; a restored key of a plain name has that name's type |
| PrivateFormat.ReadPrivate | openssh/key.c:2486-2643 | the corrected reader: a missing type string is fatal; every restored key has its name's type |

## Left out

- Key generation (`rsa_generate_private_key`, `dsa_generate_private_key`, `ecdsa_generate_private_key`, `key_generate`): cryptographic, not part of this model.
- `key_ecdsa_key_to_nid`, `key_ec_validate_public`, `key_ec_validate_private`: EC arithmetic. Point and exponent validity are the uninterpreted `ecPublicValid` and `ecPrivateValid`.
- `key_dump_ec_point` and `key_dump_ec_key`: debug output.
- `key_free` and `cert_free` as operations, and the wiping of memory. `key_free(NULL)` is fatal (openssh/key.c:221-222); the Ed25519 finding below rests on it. `cert_free(NULL)` dereferences NULL (openssh/key.c:205); Keys.DropCert requires the certificate that prevents it.
- `key_fingerprint`: the dispatch from the representation to the three renderers is not a member of its own, and the digest is uninterpreted. Each renderer is modelled.
- `key_ssh_name`, `key_ssh_name_plain`, `key_cert_type`: thin wrappers. They are used through `SshNameFromTypeNid` with the key's type (or `TypePlain` of it) and curve.
- buffer.c is not part of this model. The Buffer class follows section 5 of RFC 4251 for the calls key.c makes. A getter without `_ret` is taken to be fatal on failure. The getters' size caps are not modelled: strings of more than 256 KiB, bignums of more than 8 KiB and EC points longer than MAX_ECPOINT are refused by buffer.c, bufbn.c and bufec.c, and the model reads them.
- Base64 (`uuencode`, `uudecode`): uninterpreted functions; TokenFor states what a round trip needs of them.
- FILE output: `key_write` returns the text it would `fprintf`.
- BN allocation failures and `fatal` on out-of-memory are not modelled.
- The `Key` is a value, not a heap object. `key_to_certified`, `key_drop_cert`, `key_cert_copy`, and the updates of `ret` in `key_read`, return the new record. Aliasing between keys is therefore not modelled.
- `key_private_deserialize` is a function over the buffer's bytes, not a method on a Buffer. Its result says what would be left in the buffer.
- `rsa_generate_additional_parameters` is the uninterpreted `rsaCrt`, and `RSA_blinding_on` is `rsaBlindingOn`.
- PrivateFormat.CertRestored: for RSA certificates, dmq1 and dmp1 stay at the zeros of key_add_private, because key.c does not compute them in that case.
- The private format of RSA1 keys has no case in key.c's switch. It is modelled only as the default case.
- TextFormat.WrappedDecimal: the bit count is modelled as a u_int. The other integer widths are unbounded, because each field fits its type wherever key.c writes it (PrivateFits, FieldsFit).
- The `#ifdef` variants: the model is the full-featured build, with ECC and P-521.
- BlobSpec.DecodeEd25519: follows the corrected Ed25519 case of the finding on openssh/key.c:1639-1648, giving NULL where key.c is fatal.
- BlobCodec.ReadEd25519: the same as DecodeEd25519, over a buffer.
- BlobSpec.DecodeFields: its Ed25519 cases give NULL where key.c is fatal (the finding on openssh/key.c:1639-1648).
- BlobSpec.ParseBlob: a blob of an Ed25519 type with a missing or wrongly sized key string gives NULL where key.c is fatal (the same finding). This holds also for an Ed25519 CA key inside a certificate.
- BlobSpec.DecodeBlob: the same as ParseBlob.
- BlobCodec.KeyFromBlob2: the same as ParseBlob, over a buffer.
- BlobCodec.DecodeFieldsFrom: the same as DecodeFields, over a buffer.
- TextFormat.NamedLine: for such an Ed25519 blob it gives -1 where key.c exits.
- TextFormat.ReadLine: for such an Ed25519 blob it gives -1 where key.c exits.
- TextFormat.KeyReadNamed: for such an Ed25519 blob it gives -1 where key.c exits.
- TextFormat.KeyRead: for such an Ed25519 blob it gives -1 where key.c exits.
- Logging (`error`, `debug`) and the previous value of `*reason`, which the model leaves as None.

## Findings

| source | as written | input that shows it | evidently intended | confidence | as-written member | corrected member |
|---|---|---|---|---|---|---|
| openssh/key.c:1556-1618 | For the type name "ECDSA" (the short name, any case), key_ecdsa_nid_from_name gives -1. A curve string naming no known curve also maps to -1, so the curve check passes. EC_KEY_new_by_curve_name(-1) then fails, and key_from_blob2 calls fatal() on a blob from outside. | the blob `string "ECDSA"`, `string "x"` | refuse the blob (NULL), as for any other curve mismatch | not executed | BlobProps.CurveCheckAsWritten, BlobProps.EcdsaFatalExample | BlobSpec.DecodeEcdsa, BlobProps.EcdsaShortNameReachesFatal |
| openssh/key.c:2510-2519 | key_private_deserialize decodes the certblob of a certificate case but never checks that the key it gets is of the case's family. It then writes into `k->dsa` (or `k->rsa`, `k->ecdsa`), which may be NULL. | the name `ssh-dss-cert-v01@openssh.com`, then a certblob holding only an empty type name, which decodes to a KEY_UNSPEC key | return NULL when the decoded key is not of the announced type | not executed | PrivateFormat.ReadPrivateAsWritten, PrivateFormat.DsaCertCrashExample | PrivateFormat.ReadPrivate, PrivateFormat.ReadPrivateNeverCrashes |
| openssh/key.c:1639-1648 | When the Ed25519 key string is missing or not ED25519_PK_SZ bytes, the case jumps to `badkey` before any key exists. There key_free(NULL) calls fatal(), so a blob from outside ends the process. | the blob `string "ssh-ed25519"` and nothing else | refuse the blob (NULL), as the error messages say | not executed | BlobProps.Ed25519FieldsAsWritten, BlobProps.Ed25519FatalExample | BlobSpec.DecodeEd25519, BlobProps.Ed25519FatalBecomesNull |
