// key_read and key_write: the one-line text form of a public key. An
// RSA1 key is its bit count, public exponent and modulus in decimal;
// every other key is its wire name, a space and the base64 of its blob.
// The line key_read scans is a C string; a position past its end reads
// the terminating NUL. key_read overwrites a character with NUL and
// puts it back, so the line is unchanged on return and is a value here.
module TextFormat {
  import opened Wrappers
  import opened Wire
  import opened KeyTypes
  import opened Keys
  import opened Primitives
  import opened Strings
  import opened BlobSpec

  // ---------------------------------------------------------------
  // Scanning a C string.

  /** *cp: the character at i, or the terminating NUL at and past the end. */
  function At(s: CStr, i: nat): (c: char)
    ensures c == '\0' <==> i >= |s|
  {
    if i < |s| then s[i] else '\0'
  }

  predicate IsDigit(c: char) {
    '0' <= c <= '9'
  }

  predicate IsBlank(c: char) {
    c == ' ' || c == '\t'
  }

  /** The first position from i that is not a space or a tab. */
  function SkipBlanks(s: CStr, i: nat): (j: nat)
    requires i <= |s|
    ensures i <= j <= |s| && !IsBlank(At(s, j))
    ensures forall k :: i <= k < j ==> IsBlank(s[k])
    decreases |s| - i
  {
    if i < |s| && IsBlank(s[i]) then SkipBlanks(s, i + 1) else i
  }

  /** The first position from i that is not a decimal digit. */
  function SkipDigits(s: CStr, i: nat): (j: nat)
    requires i <= |s|
    ensures i <= j <= |s| && !IsDigit(At(s, j))
    ensures forall k :: i <= k < j ==> IsDigit(s[k])
    decreases |s| - i
  {
    if i < |s| && IsDigit(s[i]) then SkipDigits(s, i + 1) else i
  }

  /** The end of the token at i: the next space, tab or NUL. */
  function SkipToken(s: CStr, i: nat): (j: nat)
    requires i <= |s|
    ensures i <= j <= |s| && (j < |s| ==> IsBlank(s[j]))
    ensures forall k :: i <= k < j ==> !IsBlank(s[k])
    decreases |s| - i
  {
    if i < |s| && !IsBlank(s[i]) then SkipToken(s, i + 1) else i
  }

  /** strchr(cp, ' '): the first space from i, if there is one. */
  function FindSpace(s: CStr, i: nat): (r: Option<nat>)
    requires i <= |s|
    ensures r.Some? ==> i <= r.value < |s| && s[r.value] == ' '
    ensures r.Some? ==> forall k :: i <= k < r.value ==> s[k] != ' '
    ensures r.None? ==> forall k :: i <= k < |s| ==> s[k] != ' '
    decreases |s| - i
  {
    if i == |s| then None else if s[i] == ' ' then Some(i) else FindSpace(s, i + 1)
  }

  /** A scan stops at the one position that ends the run: the three
      scans above are determined by their contracts. */
  lemma {:induction false} SkipDigitsAt(s: CStr, i: nat, j: nat)
    requires i <= j <= |s| && !IsDigit(At(s, j))
    requires forall k :: i <= k < j ==> IsDigit(s[k])
    ensures SkipDigits(s, i) == j
    decreases j - i
  {
    if i < j {
      SkipDigitsAt(s, i + 1, j);
    }
  }

  lemma {:induction false} SkipBlanksAt(s: CStr, i: nat, j: nat)
    requires i <= j <= |s| && !IsBlank(At(s, j))
    requires forall k :: i <= k < j ==> IsBlank(s[k])
    ensures SkipBlanks(s, i) == j
    decreases j - i
  {
    if i < j {
      SkipBlanksAt(s, i + 1, j);
    }
  }

  lemma {:induction false} SkipTokenAt(s: CStr, i: nat, j: nat)
    requires i <= j <= |s| && (j < |s| ==> IsBlank(s[j]))
    requires forall k :: i <= k < j ==> !IsBlank(s[k])
    ensures SkipToken(s, i) == j
    decreases j - i
  {
    if i < j {
      SkipTokenAt(s, i + 1, j);
    }
  }

  lemma {:induction false} FindSpaceAt(s: CStr, i: nat, j: nat)
    requires i <= j < |s| && s[j] == ' '
    requires forall k :: i <= k < j ==> s[k] != ' '
    ensures FindSpace(s, i) == Some(j)
    decreases j - i
  {
    if i < j {
      FindSpaceAt(s, i + 1, j);
    }
  }

  // ---------------------------------------------------------------
  // Numbers.

  function DigitOf(c: char): nat {
    if '0' <= c <= '9' then c as int - '0' as int else 0
  }

  /** The bit count as key_read accumulates it in a u_int: ten times the
      count so far plus the digit, modulo 2^32. */
  function WrappedDecimal(t: string): (r: nat)
    ensures r < TWO32
  {
    if t == [] then 0 else (10 * WrappedDecimal(t[..|t| - 1]) + DigitOf(t[|t| - 1])) % TWO32
  }

  lemma TenTimesMod(v: nat, d: nat)
    ensures (10 * (v % TWO32) + d) % TWO32 == (10 * v + d) % TWO32
  {
    var q := v / TWO32;
    var m := v % TWO32;
    assert v == q * TWO32 + m;
    assert 10 * v + d == (10 * m + d) + (10 * q) * TWO32;
    ModMultiple(10 * m + d, 10 * q);
  }

  lemma ModMultiple(x: nat, q: nat)
    ensures (x + q * TWO32) % TWO32 == x % TWO32
  {
    var a := x / TWO32;
    var b := x % TWO32;
    assert x + q * TWO32 == (a + q) * TWO32 + b;
  }

  /** The u_int count is the decimal value modulo 2^32. */
  lemma {:induction false} WrappedDecimalValue(t: string)
    ensures WrappedDecimal(t) == DecimalValue(t) % TWO32
  {
    if t != [] {
      var p := t[..|t| - 1];
      WrappedDecimalValue(p);
      TenTimesMod(DecimalValue(p), DigitOf(t[|t| - 1]));
    }
  }

  /** A number read_bignum parsed, and where it stopped. */
  datatype Number = Number(value: nat, end: nat)

  /** read_bignum: blanks are skipped; a digit must follow, else it
      fails without moving the cursor; the number is the run of digits
      (BN_dec2bn) and the cursor moves past it. BN_dec2bn's allocation
      failure is not modelled. */
  function NumberAt(s: CStr, i: nat): (r: Option<Number>)
    requires i <= |s|
    ensures r.None? <==> !IsDigit(At(s, SkipBlanks(s, i)))
    ensures r.Some? ==> i < r.value.end <= |s| && !IsDigit(At(s, r.value.end))
  {
    var start := SkipBlanks(s, i);
    if !IsDigit(At(s, start)) then None
    else
      var end := SkipDigits(s, start);
      Some(Number(DecimalValue(s[start..end]), end))
  }

  /** A run of digits followed by anything but a digit is the run
      SkipDigits finds. */
  lemma {:induction false} DigitsRun(s: CStr, j: nat, d: string)
    requires j + |d| <= |s| && s[j..j + |d|] == d
    requires AllDigits(d)
    requires !IsDigit(At(s, j + |d|))
    ensures SkipDigits(s, j) == j + |d|
    ensures |d| > 0 ==> IsDigit(s[j])
    decreases |d|
  {
    if |d| > 0 {
      assert s[j] == d[0];
      assert s[j + 1..j + 1 + |d[1..]|] == d[1..];
      DigitsRun(s, j + 1, d[1..]);
    }
  }

  /** read_bignum reads back what write_bignum wrote: a blank-led run of
      digits, followed by anything but a digit, is its decimal value. */
  lemma NumberAtDigits(s: CStr, i: nat, blanks: nat, d: string)
    requires i + blanks + |d| <= |s| && |d| >= 1 && AllDigits(d)
    requires forall k :: i <= k < i + blanks ==> IsBlank(s[k])
    requires s[i + blanks..i + blanks + |d|] == d
    requires !IsDigit(At(s, i + blanks + |d|))
    ensures NumberAt(s, i) == Some(Number(DecimalValue(d), i + blanks + |d|))
  {
    var j := i + blanks;
    var end := j + |d|;
    DigitsRun(s, j, d);
    SkipBlanksAt(s, i, j);
    ghost var t := s[j..end];
    assert NumberAt(s, i) == Some(Number(DecimalValue(t), end));
  }

  // ---------------------------------------------------------------
  // key_read as functions.

  /** What key_read leaves behind: its return value, `ret` as it leaves
      it, and *cpp. */
  datatype TextRead = TextRead(rc: int, key: Key, cursor: nat)

  /** The RSA1 case: a bit count that must start with a digit and be
      non-zero, then e and n with read_bignum; *cpp moves past each part
      read, and `ret` keeps an e it has read even when n then fails. The
      count must match the bits of n as a u_int. */
  function Rsa1Line(ret: Key, s: CStr, cp: nat): (r: TextRead)
    requires cp <= |s| && ret.rsa.Some?
    ensures r.rc == 1 || r.rc == -1
    ensures cp <= r.cursor <= |s| && (r.rc == 1 ==> r.cursor > cp)
  {
    if !IsDigit(At(s, cp)) then TextRead(-1, ret, cp)
    else
      var e0 := SkipDigits(s, cp);
      var bits := WrappedDecimal(s[cp..e0]);
      if bits == 0 then TextRead(-1, ret, cp)
      else match NumberAt(s, e0)
        case None => TextRead(-1, ret, e0)
        case Some(e) =>
          var r1 := ret.(rsa := Some(ret.rsa.value.(e := e.value)));
          match NumberAt(s, e.end)
          case None => TextRead(-1, r1, e.end)
          case Some(n) =>
            var r2 := r1.(rsa := Some(r1.rsa.value.(n := n.value)));
            TextRead(if Bits(n.value) % TWO32 != bits then -1 else 1, r2, n.end)
  }

  /** The moves from the decoded key `k` into `ret`: its certificate for
      a certificate type, then the structure of the type's family, which
      replaces `ret`'s whole RSA, DSA or ECDSA structure, private numbers
      included. The other fields of `ret`, ed25519_sk among them, are kept. */
  function Transfer(ret: Key, k: Key): (r: Key)
    ensures r.kind == ret.kind && r.flags == ret.flags && r.ed25519Sk == ret.ed25519Sk
  {
    var a := if IsCert(ret) then ret.(cert := k.cert) else ret;
    match TypePlain(a.kind)
    case Rsa => a.(rsa := k.rsa)
    case Dsa => a.(dsa := k.dsa)
    case Ecdsa => a.(ecdsa := k.ecdsa, ecdsaNid := k.ecdsaNid)
    case Ed25519 => a.(ed25519Pk := k.ed25519Pk)
    case _ => a
  }

  /** The other cases: the name up to the first space gives the type,
      and for the ECDSA family the curve (curve_nid, -1 otherwise). */
  function BlobLine(ext: Externals, ret: Key, s: CStr, cp: nat): (r: TextRead)
    requires cp <= |s|
    ensures r.rc == 1 || r.rc == -1
    ensures cp <= r.cursor <= |s| && (r.rc == 1 ==> r.cursor > cp)
  {
    match FindSpace(s, cp)
    case None => TextRead(-1, ret, cp)
    case Some(sp) =>
      var name := s[cp..sp];
      var t := TypeFromName(name);
      NamedLine(ext, ret, s, cp, sp, t, if TypePlain(t) == Ecdsa then EcdsaNidFromName(name) else -1)
  }

  /** Given the type t and curve nid of the name ending at the space sp:
      an ECDSA name must name a curve and the type must be known;
      something must follow the space; a KEY_UNSPEC `ret` takes the
      type, another type must agree; the rest of the line is base64 of a
      blob that must decode as a key of that type and curve. On success
      `ret` gets the decoded parts and *cpp moves past the base64 token;
      on failure *cpp stays where it was. The check that a certificate
      `ret` gets a certificate cannot fail: both keys have type t. */
  function NamedLine(ext: Externals, ret: Key, s: CStr, cp: nat, sp: nat, t: KeyType, nid: int): (r: TextRead)
    requires cp <= sp < |s|
    ensures r.rc == 1 || r.rc == -1
    ensures r.rc == -1 ==> r.cursor == cp
    ensures r.rc == 1 ==> sp < r.cursor <= |s|
  {
    if TypePlain(t) == Ecdsa && nid == -1 then TextRead(-1, ret, cp)
    else if t == Unspec then TextRead(-1, ret, cp)
    else if At(s, sp + 1) == '\0' then TextRead(-1, ret, cp)
    else if ret.kind != Unspec && ret.kind != t then TextRead(-1, ret, cp)
    else
      var r1 := ret.(kind := t);
      match ext.uudecode(s[sp + 1..])
      case None => TextRead(-1, r1, cp)
      case Some(blob) =>
        match DecodeBlob(ext, blob, true)
        case None => TextRead(-1, r1, cp)
        case Some(k) =>
          if k.kind != t then TextRead(-1, r1, cp)
          else if TypePlain(t) == Ecdsa && nid != k.ecdsaNid then TextRead(-1, r1, cp)
          else TextRead(1, Transfer(r1, k), SkipToken(s, SkipBlanks(s, sp + 1)))
  }

  /** key_read: the RSA1 case for an RSA1 `ret`, the named-blob case for
      every other type. It returns 1 or -1, and *cpp never moves back. */
  function ReadLine(ext: Externals, ret: Key, s: CStr, cp: nat): (r: TextRead)
    requires cp <= |s|
    requires ret.kind == Rsa1 ==> ret.rsa.Some?
    ensures r.rc == 1 || r.rc == -1
    ensures cp <= r.cursor <= |s|
    ensures r.rc == 1 ==> r.cursor > cp
  {
    if ret.kind == Rsa1 then Rsa1Line(ret, s, cp) else BlobLine(ext, ret, s, cp)
  }

  // ---------------------------------------------------------------
  // key_read as the C code runs it.

  method ScanBlanks(s: CStr, i: nat) returns (j: nat)
    requires i <= |s|
    ensures j == SkipBlanks(s, i)
  {
    j := i;
    while At(s, j) == ' ' || At(s, j) == '\t'
      invariant i <= j <= |s| && SkipBlanks(s, j) == SkipBlanks(s, i)
      decreases |s| - j
    {
      j := j + 1;
    }
  }

  method ScanDigits(s: CStr, i: nat) returns (j: nat)
    requires i <= |s|
    ensures j == SkipDigits(s, i)
  {
    j := i;
    while '0' <= At(s, j) <= '9'
      invariant i <= j <= |s| && SkipDigits(s, j) == SkipDigits(s, i)
      decreases |s| - j
    {
      j := j + 1;
    }
  }

  method ScanToken(s: CStr, i: nat) returns (j: nat)
    requires i <= |s|
    ensures j == SkipToken(s, i)
  {
    j := i;
    while At(s, j) != '\0' && At(s, j) != ' ' && At(s, j) != '\t'
      invariant i <= j <= |s| && SkipToken(s, j) == SkipToken(s, i)
      decreases |s| - j
    {
      j := j + 1;
    }
  }

  /** strchr(cp, ' '). */
  method ScanSpace(s: CStr, i: nat) returns (r: Option<nat>)
    requires i <= |s|
    ensures r == FindSpace(s, i)
  {
    var j := i;
    while j < |s| && s[j] != ' '
      invariant i <= j <= |s| && FindSpace(s, j) == FindSpace(s, i)
      decreases |s| - j
    {
      j := j + 1;
    }
    r := if j < |s| then Some(j) else None;
  }

  /** The bit-count loop: a u_int multiplied by ten and added to. */
  method ScanBits(s: CStr, i: nat) returns (bits: nat, j: nat)
    requires i <= |s|
    ensures j == SkipDigits(s, i) && bits == WrappedDecimal(s[i..j])
  {
    bits := 0;
    j := i;
    while '0' <= At(s, j) <= '9'
      invariant i <= j <= |s| && SkipDigits(s, j) == SkipDigits(s, i)
      invariant bits == WrappedDecimal(s[i..j])
      decreases |s| - j
    {
      ghost var t := s[i..j + 1];
      assert t[..|t| - 1] == s[i..j] && t[|t| - 1] == s[j];
      bits := (10 * bits + (s[j] as int - '0' as int)) % TWO32;
      j := j + 1;
    }
  }

  /** read_bignum: ok is its return value; on success `end` is the
      position past the number, on failure the cursor is unchanged. */
  method ReadBignum(s: CStr, i: nat) returns (ok: bool, value: nat, end: nat)
    requires i <= |s|
    ensures ok <==> NumberAt(s, i).Some?
    ensures ok ==> NumberAt(s, i) == Some(Number(value, end))
    ensures !ok ==> end == i
  {
    var cp := ScanBlanks(s, i);
    if At(s, cp) < '0' || At(s, cp) > '9' {
      return false, 0, i;
    }
    var start := cp;
    cp := ScanDigits(s, cp);
    value := DecimalValue(s[start..cp]);
    return true, value, cp;
  }

  /** The KEY_RSA1 case of key_read. */
  method KeyReadRsa1(ret: Key, s: CStr, cpp: nat) returns (rc: int, key: Key, cursor: nat)
    requires cpp <= |s| && ret.rsa.Some?
    ensures TextRead(rc, key, cursor) == Rsa1Line(ret, s, cpp)
  {
    if At(s, cpp) < '0' || At(s, cpp) > '9' {
      return -1, ret, cpp;
    }
    var bits, cp := ScanBits(s, cpp);
    if bits == 0 {
      return -1, ret, cpp;
    }
    cursor := cp;
    var ok, e, c1 := ReadBignum(s, cursor);
    if !ok {
      return -1, ret, cursor;
    }
    key := ret.(rsa := Some(ret.rsa.value.(e := e)));
    cursor := c1;
    var ok2, n, c2 := ReadBignum(s, cursor);
    if !ok2 {
      return -1, key, cursor;
    }
    key := key.(rsa := Some(key.rsa.value.(n := n)));
    cursor := c2;
    if Bits(n) % TWO32 != bits {
      return -1, key, cursor;
    }
    rc := 1;
  }

  /** The named-blob cases of key_read: the name and its type. */
  method KeyReadBlob(ext: Externals, ret: Key, s: CStr, cpp: nat) returns (rc: int, key: Key, cursor: nat)
    requires cpp <= |s|
    ensures TextRead(rc, key, cursor) == BlobLine(ext, ret, s, cpp)
  {
    var space := ScanSpace(s, cpp);
    if space.None? {
      return -1, ret, cpp;
    }
    var name := s[cpp..space.value];
    var t := TypeFromName(name);
    var curveNid := -1;
    if TypePlain(t) == Ecdsa {
      curveNid := EcdsaNidFromName(name);
    }
    rc, key, cursor := KeyReadNamed(ext, ret, s, cpp, space.value, t, curveNid);
  }

  /** The rest of the named-blob cases, from the curve check on. */
  method KeyReadNamed(ext: Externals, ret: Key, s: CStr, cpp: nat, space: nat, t: KeyType, curveNid: int)
    returns (rc: int, key: Key, cursor: nat)
    requires cpp <= space < |s|
    ensures TextRead(rc, key, cursor) == NamedLine(ext, ret, s, cpp, space, t, curveNid)
  {
    if TypePlain(t) == Ecdsa && curveNid == -1 {
      return -1, ret, cpp;
    }
    if t == Unspec {
      return -1, ret, cpp;
    }
    var cp := space + 1;
    if At(s, cp) == '\0' {
      return -1, ret, cpp;
    }
    key := ret;
    if key.kind == Unspec {
      key := key.(kind := t);
    } else if key.kind != t {
      return -1, ret, cpp;
    }
    var blob := ext.uudecode(s[cp..]);
    if blob.None? {
      return -1, key, cpp;
    }
    var k := DecodeBlob(ext, blob.value, true);
    if k.None? {
      return -1, key, cpp;
    }
    if k.value.kind != t {
      return -1, key, cpp;
    }
    if TypePlain(t) == Ecdsa && curveNid != k.value.ecdsaNid {
      return -1, key, cpp;
    }
    key := Transfer(key, k.value);
    cp := ScanBlanks(s, cp);
    cursor := ScanToken(s, cp);
    rc := 1;
  }

  /** key_read(ret, cpp) on the line s with *cpp at cpp. An RSA1 `ret`
      is dereferenced without a check; the fatal default case is for
      types outside the enumeration, which the datatype excludes. */
  method KeyRead(ext: Externals, ret: Key, s: CStr, cpp: nat) returns (rc: int, key: Key, cursor: nat)
    requires cpp <= |s|
    requires ret.kind == Rsa1 ==> ret.rsa.Some?
    ensures TextRead(rc, key, cursor) == ReadLine(ext, ret, s, cpp)
  {
    if ret.kind == Rsa1 {
      rc, key, cursor := KeyReadRsa1(ret, s, cpp);
    } else {
      rc, key, cursor := KeyReadBlob(ext, ret, s, cpp);
    }
  }

  // ---------------------------------------------------------------
  // key_write.

  /** What key_write returns, and the text it writes to the file. */
  datatype Written = Written(rc: int, text: string)

  /** The NULL checks of key_write's switch: the structure of the
      key's family is present. KEY_UNSPEC reaches the default case. */
  predicate HasFamilyStruct(k: Key) {
    if IsRsaFamily(k.kind) then k.rsa.Some?
    else if IsDsaFamily(k.kind) then k.dsa.Some?
    else if IsEcdsaFamily(k.kind) then k.ecdsa.Some?
    else if IsEd25519Family(k.kind) then k.ed25519Pk.Some?
    else false
  }

  /** What key_to_blob then dereferences unchecked for a plain type:
      the key fields, which for ECDSA include a known curve and the
      public point, and for Ed25519 the 32 bytes of the public key. */
  predicate WriteSafe(k: Key) {
    IsValidCa(k.kind) && HasFamilyStruct(k) ==> HasWireFields(k)
  }

  /** key_write: a certificate type without a certificate or without a
      signed blob writes nothing and returns 0; so does a key whose
      family structure is missing, and KEY_UNSPEC. RSA1 writes its bit
      count (a u_int), then e and n, in decimal with single spaces.
      Every other type writes its wire name, a space and the base64 of
      its blob (the certblob for certificates); a uuencode failure
      writes nothing and returns 0. The allocation failures of
      BN_bn2dec are not modelled. */
  function KeyWrite(ext: Externals, k: Key): (w: Written)
    requires WriteSafe(k)
    ensures w.rc == 0 || w.rc == 1
    ensures w.rc == 0 <==> w.text == []
    ensures IsCert(k) && (k.cert.None? || k.cert.value.certblob == []) ==> w.rc == 0
    ensures k.kind == Unspec || !HasFamilyStruct(k) ==> w.rc == 0
  {
    TypeIsCertExactly(k.kind);
    if IsCert(k) && (k.cert.None? || |k.cert.value.certblob| == 0) then Written(0, [])
    else if k.kind == Rsa1 then
      if k.rsa.None? then Written(0, [])
      else
        var r := k.rsa.value;
        Written(1, Decimal(Bits(r.n) % TWO32) + " " + Decimal(r.e) + " " + Decimal(r.n))
    else if !HasFamilyStruct(k) then Written(0, [])
    else
      var blob := BlobOf(k, false).value;
      match ext.uuencode(blob)
      case None => Written(0, [])
      case Some(uu) => Written(1, SshNameFromTypeNid(k.kind, k.ecdsaNid).value + " " + uu)
  }
}
