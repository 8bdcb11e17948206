// The two string-list operations over the registry: key_alg_list,
// which joins the selected wire names with newlines, and
// key_names_valid2, which checks a comma-separated list of names.
module NameLists {
  import opened Wrappers
  import opened Wire
  import opened KeyTypes
  import opened Strings

  // ---------------------------------------------------------------
  // key_alg_list

  /** The rows key_alg_list keeps: named rows, certificates only or
      plain types only when asked. */
  predicate Selects(e: KeyTypeInfo, certsOnly: bool, plainOnly: bool) {
    e.name.Some? && !(certsOnly && !e.cert) && !(plainOnly && e.cert)
  }

  /** The wire names of the selected rows of `tbl`, in table order. */
  function SelectedNames(tbl: seq<KeyTypeInfo>, certsOnly: bool, plainOnly: bool): seq<CStr> {
    if tbl == [] then []
    else
      var e := tbl[|tbl| - 1];
      SelectedNames(tbl[..|tbl| - 1], certsOnly, plainOnly) + (if Selects(e, certsOnly, plainOnly) then [e.name.value] else [])
  }

  /** key_alg_list: NULL when no row is selected, else the selected
      wire names joined with newlines. */
  method AlgList(certsOnly: bool, plainOnly: bool) returns (r: Option<string>)
    ensures r == (if SelectedNames(KeyTable, certsOnly, plainOnly) == [] then None
                  else Some(Join(SelectedNames(KeyTable, certsOnly, plainOnly), '\n')))
  {
    var tbl := KeyTable;
    r := None;
    var i := 0;
    while i < |tbl|
      invariant 0 <= i <= |tbl|
      invariant r == (if SelectedNames(tbl[..i], certsOnly, plainOnly) == [] then None
                      else Some(Join(SelectedNames(tbl[..i], certsOnly, plainOnly), '\n')))
    {
      var kt := tbl[i];
      ghost var sel := SelectedNames(tbl[..i], certsOnly, plainOnly);
      SelectedNamesStep(tbl, i, certsOnly, plainOnly);
      assert SelectedNames(tbl[..i + 1], certsOnly, plainOnly) == sel + (if Selects(kt, certsOnly, plainOnly) then [kt.name.value] else []);
      if kt.name.Some? && !(certsOnly && !kt.cert) && !(plainOnly && kt.cert) {
        if r.Some? {
          JoinSnoc(SelectedNames(tbl[..i], certsOnly, plainOnly), kt.name.value, '\n');
          r := Some(r.value + ['\n'] + kt.name.value);
        } else {
          assert sel + [kt.name.value] == [kt.name.value];
          r := Some(kt.name.value);
        }
      } else {
        assert sel + [] == sel;
      }
      i := i + 1;
    }
    assert tbl[..|tbl|] == tbl;
  }

  lemma SelectedNamesStep(tbl: seq<KeyTypeInfo>, i: nat, certsOnly: bool, plainOnly: bool)
    requires i < |tbl|
    ensures SelectedNames(tbl[..i + 1], certsOnly, plainOnly) ==
      SelectedNames(tbl[..i], certsOnly, plainOnly) + (if Selects(tbl[i], certsOnly, plainOnly) then [tbl[i].name.value] else [])
  {
    assert tbl[..i + 1][..i] == tbl[..i];
  }

  /** A name is listed exactly when some selected row carries it. */
  lemma {:induction false} SelectedNamesMembers(tbl: seq<KeyTypeInfo>, certsOnly: bool, plainOnly: bool, x: CStr)
    ensures x in SelectedNames(tbl, certsOnly, plainOnly) <==>
      exists i :: 0 <= i < |tbl| && Selects(tbl[i], certsOnly, plainOnly) && tbl[i].name == Some(x)
  {
    if tbl != [] {
      var front := tbl[..|tbl| - 1];
      SelectedNamesMembers(front, certsOnly, plainOnly, x);
      if exists i :: 0 <= i < |tbl| && Selects(tbl[i], certsOnly, plainOnly) && tbl[i].name == Some(x) {
        var i :| 0 <= i < |tbl| && Selects(tbl[i], certsOnly, plainOnly) && tbl[i].name == Some(x);
        if i < |front| {
          assert front[i] == tbl[i];
        }
      }
      if x in SelectedNames(front, certsOnly, plainOnly) {
        var i :| 0 <= i < |front| && Selects(front[i], certsOnly, plainOnly) && front[i].name == Some(x);
        assert tbl[i] == front[i];
      }
    }
  }

  /** Asking for certificates only and plain types only selects nothing,
      so key_alg_list returns NULL. */
  lemma {:induction false} SelectedNamesBothFilters(tbl: seq<KeyTypeInfo>)
    ensures SelectedNames(tbl, true, true) == []
  {
    if tbl != [] {
      SelectedNamesBothFilters(tbl[..|tbl| - 1]);
    }
  }

  /** Every plain wire name and every certificate wire name is in the
      unfiltered list, and the two filtered lists split it by the `cert`
      column. */
  lemma AlgListMembers(x: CStr)
    ensures x in SelectedNames(KeyTable, false, false) <==>
      exists i :: 0 <= i < |KeyTable| && KeyTable[i].name == Some(x)
    ensures x in SelectedNames(KeyTable, true, false) <==>
      exists i :: 0 <= i < |KeyTable| && KeyTable[i].cert && KeyTable[i].name == Some(x)
    ensures x in SelectedNames(KeyTable, false, true) <==>
      exists i :: 0 <= i < |KeyTable| && !KeyTable[i].cert && KeyTable[i].name == Some(x)
  {
    SelectedNamesMembers(KeyTable, false, false, x);
    SelectedNamesMembers(KeyTable, true, false, x);
    SelectedNamesMembers(KeyTable, false, true, x);
  }

  // ---------------------------------------------------------------
  // key_names_valid2

  /** A name key_names_valid2 rejects. */
  predicate Rejected(name: CStr) {
    TypeFromName(name) == Rsa1 || TypeFromName(name) == Unspec
  }

  /** The elements up to the first empty one are all accepted names. */
  predicate ValidPrefix(ts: seq<CStr>) {
    |ts| == 0 || ts[0] == [] || (!Rejected(ts[0]) && ValidPrefix(ts[1..]))
  }

  function Elements(s: CStr): (r: seq<CStr>)
    ensures r == Split(s, ',')
  {
    SplitCStr(s, ',');
    Split(s, ',')
  }

  /** key_names_valid2: NULL and "" are invalid; otherwise every element
      before the first empty one must name a type other than RSA1. */
  predicate NamesValid(names: Option<CStr>) {
    names.Some? && names.value != [] && ValidPrefix(Elements(names.value))
  }

  /** The element that starts at `start` ends at the next separator `k`. */
  lemma ElementsStep(s: CStr, start: nat, k: nat)
    requires start <= k <= |s|
    requires forall m :: start <= m < k ==> s[m] != ','
    requires k < |s| ==> s[k] == ','
    ensures Elements(s[start..]) == [s[start..k]] + (if k < |s| then Elements(s[k + 1..]) else [])
  {
    var t := s[start..];
    SplitAt(t, ',', k - start);
    assert s[start..k] == t[..k - start];
    if k < |s| {
      assert t[k - start + 1..] == s[k + 1..];
    }
  }

  lemma ValidPrefixCons(p: CStr, rest: seq<CStr>)
    ensures ValidPrefix([p] + rest) == (p == [] || (!Rejected(p) && ValidPrefix(rest)))
  {
    assert ([p] + rest)[1..] == rest;
  }

  /** One step of the strsep loop: the element at `start` is checked,
      then the scan goes on after the separator, if there is one. */
  lemma NamesValidStep(s: CStr, start: nat, k: nat)
    requires start <= k <= |s|
    requires forall m :: start <= m < k ==> s[m] != ','
    requires k < |s| ==> s[k] == ','
    ensures ValidPrefix(Elements(s[start..])) ==
      (s[start..k] == [] || (!Rejected(s[start..k]) && (k == |s| || ValidPrefix(Elements(s[k + 1..])))))
  {
    ElementsStep(s, start, k);
    ValidPrefixCons(s[start..k], if k < |s| then Elements(s[k + 1..]) else []);
  }

  method NamesValid2(names: Option<CStr>) returns (ok: bool)
    ensures ok == NamesValid(names)
  {
    if names.None? || names.value == [] {
      return false;
    }
    var s := names.value;
    assert s[0..] == s;
    // The strsep cursor `cp`; None once it has become NULL.
    var cp: Option<nat> := Some(0);
    while true
      invariant cp.Some? ==> cp.value <= |s|
      invariant NamesValid(names) == (cp.None? || ValidPrefix(Elements(s[cp.value..])))
      decreases if cp.Some? then |s| - cp.value + 1 else 0
    {
      if cp.None? {
        return true;
      }
      var start := cp.value;
      var k := start;
      while k < |s| && s[k] != ','
        invariant start <= k <= |s|
        invariant forall m :: start <= m < k ==> s[m] != ','
      {
        k := k + 1;
      }
      NamesValidStep(s, start, k);
      var p: CStr := s[start..k];
      if k < |s| {
        cp := Some(k + 1);
      } else {
        cp := None;
      }
      if p == [] {
        return true;
      }
      if Rejected(p) {
        return false;
      }
    }
  }

  /** The scan stops at the first empty element: whatever follows ",,"
      is never looked at. */
  lemma ValidPrefixStops(ts: seq<CStr>, us: seq<CStr>)
    ensures ValidPrefix(ts + [[]] + us) == ValidPrefix(ts)
  {
    if ts != [] {
      assert (ts + [[]] + us)[1..] == ts[1..] + [[]] + us;
      ValidPrefixStops(ts[1..], us);
    }
  }

  lemma NamesValidIgnoresAfterEmpty(a: CStr, b: CStr)
    ensures NamesValid(Some(a + [','] + [','] + b)) == ValidPrefix(Elements(a))
  {
    SplitDoubleSeparator(a, b, ',');
    ValidPrefixStops(Elements(a), Elements(b));
  }

  /** A one-element list is valid exactly when its name is accepted. */
  lemma NamesValidSingle(name: CStr)
    requires name != [] && ',' !in name
    ensures NamesValid(Some(name)) == !Rejected(name)
  {
    SplitAt(name, ',', |name|);
    assert name[..|name|] == name;
    assert Elements(name) == [name];
    ValidPrefixCons(name, []);
    assert [name] + [] == [name];
  }

  /** Without empty elements, a list is valid exactly when every
      element names an accepted type. */
  lemma {:induction false} ValidPrefixAll(ts: seq<CStr>)
    requires forall j :: 0 <= j < |ts| ==> ts[j] != []
    ensures ValidPrefix(ts) <==> forall j :: 0 <= j < |ts| ==> !Rejected(ts[j])
  {
    if ts != [] {
      ValidPrefixAll(ts[1..]);
      assert forall j :: 1 <= j < |ts| ==> ts[j] == ts[1..][j - 1];
    }
  }
}
