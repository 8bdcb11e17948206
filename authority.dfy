// key_cert_check_authority: whether a certificate may be used, as a host
// or as a user certificate, at a given time and for a given name. The
// clock is a parameter; the error() log line of a negative clock is not
// modelled.
module Authority {
  import opened Wrappers
  import opened Wire
  import opened KeyTypes
  import opened Keys

  const REASON_NOT_HOST: string := "Certificate invalid: not a host certificate"
  const REASON_NOT_USER: string := "Certificate invalid: not a user certificate"
  const REASON_NOT_YET_VALID: string := "Certificate invalid: not yet valid"
  const REASON_EXPIRED: string := "Certificate invalid: expired"
  const REASON_NO_PRINCIPALS: string := "Certificate lacks principal list"
  const REASON_NOT_LISTED: string := "Certificate invalid: name is not a listed principal"

  /** The verdict: 0, or -1 with the reason string. */
  datatype Decision = Authorized | Rejected(reason: string)

  /** The checks in the order key_cert_check_authority makes them: the
      certificate type, the clock against the validity interval
      [valid_after, valid_before), then the principals, which only a
      certificate with principals and a caller with a name compare. */
  function Check(c: Cert, wantHost: bool, requirePrincipal: bool, name: Option<CStr>, now: int): Decision {
    if wantHost && c.certType != SSH2_CERT_TYPE_HOST then Rejected(REASON_NOT_HOST)
    else if !wantHost && c.certType != SSH2_CERT_TYPE_USER then Rejected(REASON_NOT_USER)
    else if now < 0 || now < c.validAfter then Rejected(REASON_NOT_YET_VALID)
    else if now >= c.validBefore then Rejected(REASON_EXPIRED)
    else if |c.principals| == 0 then (if requirePrincipal then Rejected(REASON_NO_PRINCIPALS) else Authorized)
    else if name.Some? && name.value !in c.principals then Rejected(REASON_NOT_LISTED)
    else Authorized
  }

  /** key_cert_check_authority: the return code, and the reason it
      stores on failure (None: *reason is left as it was). */
  method CheckAuthority(k: Key, wantHost: bool, requirePrincipal: bool, name: Option<CStr>, now: int)
    returns (rc: int, reason: Option<string>)
    requires k.cert.Some?
    ensures var v := Check(k.cert.value, wantHost, requirePrincipal, name, now);
      (rc == 0 <==> v.Authorized?) && (rc == 0 || rc == -1) &&
      reason == (if v.Rejected? then Some(v.reason) else None)
  {
    var c := k.cert.value;
    if wantHost {
      if c.certType != SSH2_CERT_TYPE_HOST {
        return -1, Some(REASON_NOT_HOST);
      }
    } else {
      if c.certType != SSH2_CERT_TYPE_USER {
        return -1, Some(REASON_NOT_USER);
      }
    }
    if now < 0 {
      return -1, Some(REASON_NOT_YET_VALID);
    }
    if now < c.validAfter {
      return -1, Some(REASON_NOT_YET_VALID);
    }
    if now >= c.validBefore {
      return -1, Some(REASON_EXPIRED);
    }
    if |c.principals| == 0 {
      if requirePrincipal {
        return -1, Some(REASON_NO_PRINCIPALS);
      }
    } else if name.Some? {
      var matches := false;
      var i := 0;
      while i < |c.principals|
        invariant 0 <= i <= |c.principals|
        invariant forall j :: 0 <= j < i ==> c.principals[j] != name.value
      {
        if name.value == c.principals[i] {
          matches := true;
          break;
        }
        i := i + 1;
      }
      if !matches {
        return -1, Some(REASON_NOT_LISTED);
      }
    }
    return 0, None;
  }

  /** A certificate passes exactly when it is of the wanted type, the
      clock is inside its validity interval, it has principals if the
      caller requires them, and a name the caller gives is one of them. */
  lemma AuthorizedIff(c: Cert, wantHost: bool, requirePrincipal: bool, name: Option<CStr>, now: int)
    ensures Check(c, wantHost, requirePrincipal, name, now).Authorized? <==>
      c.certType == (if wantHost then SSH2_CERT_TYPE_HOST else SSH2_CERT_TYPE_USER) &&
      0 <= c.validAfter <= now < c.validBefore &&
      (requirePrincipal ==> |c.principals| > 0) &&
      (name.Some? && |c.principals| > 0 ==> exists j :: 0 <= j < |c.principals| && c.principals[j] == name.value)
  {
    if name.Some? && name.value in c.principals {
      var j :| 0 <= j < |c.principals| && c.principals[j] == name.value;
    }
  }

  /** The first check that fails names the reason: a wrong type is
      reported whatever the time, a time outside the interval whatever
      the principals. */
  lemma ReasonOrder(c: Cert, wantHost: bool, requirePrincipal: bool, name: Option<CStr>, now: int)
    ensures var v := Check(c, wantHost, requirePrincipal, name, now);
      var wanted := if wantHost then SSH2_CERT_TYPE_HOST else SSH2_CERT_TYPE_USER;
      (c.certType != wanted ==> v == Rejected(if wantHost then REASON_NOT_HOST else REASON_NOT_USER)) &&
      (c.certType == wanted && now < c.validAfter ==> v == Rejected(REASON_NOT_YET_VALID)) &&
      (c.certType == wanted && c.validAfter <= now && now >= c.validBefore ==> v == Rejected(REASON_EXPIRED)) &&
      (c.certType == wanted && c.validAfter <= now < c.validBefore && |c.principals| == 0 ==>
         v == (if requirePrincipal then Rejected(REASON_NO_PRINCIPALS) else Authorized))
  {
  }

  /** A caller that gives no name accepts any certificate with
      principals, of the right type and inside its interval: only the
      name is compared against the list. */
  lemma NoNameSkipsPrincipals(c: Cert, wantHost: bool, requirePrincipal: bool, now: int)
    requires |c.principals| > 0
    ensures Check(c, wantHost, requirePrincipal, None, now) ==
      Check(c.(principals := [c.principals[0]]), wantHost, requirePrincipal, None, now)
  {
  }

  /** The verdict depends on the principals only through whether the
      name is among them: listing more names never revokes a name. */
  lemma MorePrincipalsKeepsName(c: Cert, wantHost: bool, requirePrincipal: bool, n: CStr, now: int, more: seq<CStr>)
    requires Check(c, wantHost, requirePrincipal, Some(n), now).Authorized?
    requires |c.principals| > 0
    ensures Check(c.(principals := c.principals + more), wantHost, requirePrincipal, Some(n), now).Authorized?
  {
    assert n in c.principals;
    var j :| 0 <= j < |c.principals| && c.principals[j] == n;
    assert (c.principals + more)[j] == n;
  }
}
