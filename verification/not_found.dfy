/**
 The "treat as empty result" predicate a table installs as its
 `ShouldIgnoreError`: a 403 is ignorable only when its text says the API
 is disabled for the project; any other Google API error is ignorable when
 its code's decimal text is in the table's allow-list; no other error is.
 */
module NotFound {
  import opened Common
  import opened Decimal

  /** The whitespace class `\s` of Go's regular expressions: `[\t\n\f\r ]`. */
  predicate IsSpace(c: char)
  {
    c == ' ' || c == '\t' || c == '\n' || c as int == 12 || c == '\r'
  }

  /** The literal pieces of
      `googleapi: Error 403: [^\s]+ API has not been used in project [0-9]+ before or it is disabled\.`
      around its two repeated character classes. */
  const Lead: string := "googleapi: Error 403: "
  const Middle: string := " API has not been used in project "
  const Tail: string := " before or it is disabled."

  /** From `j` on, `t` reads ` API has not been used in project `, a
      project number ending at `k`, then ` before or it is disabled.`. */
  ghost predicate ProjectAt(t: string, j: int, k: int)
  {
    && 0 <= j && j + |Middle| < k && k + |Tail| <= |t|
    && t[j..j + |Middle|] == Middle
    && (forall m :: j + |Middle| <= m < k ==> IsDigit(t[m]))
    && t[k..k + |Tail|] == Tail
  }

  /** `t` holds a match of the disabled-API pattern that starts at `i`,
      whose service name ends at `j` and whose project number ends at `k`. */
  ghost predicate DisabledAt(t: string, i: int, j: int, k: int)
  {
    && 0 <= i && i + |Lead| < j <= |t|
    && t[i..i + |Lead|] == Lead
    && (forall m :: i + |Lead| <= m < j ==> !IsSpace(t[m]))
    && ProjectAt(t, j, k)
  }

  /** The unanchored regular-expression search succeeds on `t`. */
  ghost predicate MentionsDisabledApi(t: string)
  {
    exists i, j, k :: DisabledAt(t, i, j, k)
  }

  /** The end of the longest run of non-whitespace characters from `p`. */
  function NonSpaceEnd(t: string, p: nat): (r: nat)
    requires p <= |t|
    ensures p <= r <= |t|
    ensures forall m :: p <= m < r ==> !IsSpace(t[m])
    ensures r < |t| ==> IsSpace(t[r])
    decreases |t| - p
  {
    if p == |t| || IsSpace(t[p]) then p else NonSpaceEnd(t, p + 1)
  }

  /** The end of the longest run of decimal digits from `p`. */
  function DigitEnd(t: string, p: nat): (r: nat)
    requires p <= |t|
    ensures p <= r <= |t|
    ensures forall m :: p <= m < r ==> IsDigit(t[m])
    ensures r < |t| ==> !IsDigit(t[r])
    decreases |t| - p
  {
    if p == |t| || !IsDigit(t[p]) then p else DigitEnd(t, p + 1)
  }

  /** `lit` occurs in `t` at position `p`. */
  predicate LiteralAt(t: string, p: nat, lit: string)
  {
    p + |lit| <= |t| && t[p..p + |lit|] == lit
  }

  /** The pattern's part after the service name matches at `j`. The
      project number stops at a space, where the tail begins, so it must
      be the longest run of digits. */
  predicate ProjectMatch(t: string, j: nat)
  {
    LiteralAt(t, j, Middle) &&
    var d := j + |Middle|;
    var k := DigitEnd(t, d);
    d < k && LiteralAt(t, k, Tail)
  }

  lemma ProjectMatchSound(t: string, j: nat)
    ensures ProjectMatch(t, j) <==> exists k :: ProjectAt(t, j, k)
  {
    if ProjectMatch(t, j) {
      assert ProjectAt(t, j, DigitEnd(t, j + |Middle|));
    }
    if k :| ProjectAt(t, j, k) {
      assert t[k] == Tail[0];
      assert DigitEnd(t, j + |Middle|) == k;
    }
  }

  /** The pattern matches at `i`. The service name stops at a space, where
      the middle literal begins, so it must be the longest run of
      non-whitespace and no backtracking is needed. */
  predicate DisabledMatchAt(t: string, i: nat)
  {
    var s := i + |Lead|;
    LiteralAt(t, i, Lead) &&
    var j := NonSpaceEnd(t, s);
    s < j && ProjectMatch(t, j)
  }

  lemma DisabledMatchAtSound(t: string, i: nat)
    ensures DisabledMatchAt(t, i) <==> exists j, k :: DisabledAt(t, i, j, k)
  {
    var s := i + |Lead|;
    if DisabledMatchAt(t, i) {
      var j := NonSpaceEnd(t, s);
      ProjectMatchSound(t, j);
      var k :| ProjectAt(t, j, k);
      assert DisabledAt(t, i, j, k);
    }
    if j, k :| DisabledAt(t, i, j, k) {
      assert t[j] == Middle[0];
      assert NonSpaceEnd(t, s) == j;
      ProjectMatchSound(t, j);
    }
  }

  /** Search for a match starting at `from` or later. */
  function SearchFrom(t: string, from: nat): (r: bool)
    requires from <= |t|
    ensures r <==> exists i, j, k :: from <= i && DisabledAt(t, i, j, k)
    decreases |t| - from
  {
    DisabledMatchAtSound(t, from);
    if from == |t| then false
    else DisabledMatchAt(t, from) || SearchFrom(t, from + 1)
  }

  /** `regexp.MatchString` of the disabled-API pattern on `t`. */
  function DisabledApiText(t: string): (r: bool)
    ensures r <==> MentionsDisabledApi(t)
  {
    SearchFrom(t, 0)
  }

  /** `isNotFoundError(allow)` applied to `err`: errors that are not
      Google API errors are never ignored; a 403 is ignored exactly when
      its text mentions a disabled API; any other code exactly when its
      decimal text is allowed. */
  function IsNotFoundError(allow: seq<string>, err: Error): (r: bool)
    ensures err.OtherError? ==> !r
    ensures err.ApiError? && err.code == 403 ==> (r <==> MentionsDisabledApi(err.text))
    ensures err.ApiError? && err.code != 403 ==> (r <==> DecimalString(err.code) in allow)
  {
    match err
    case OtherError(_) => false
    case ApiError(code, text) =>
      Text403(code);
      if DecimalString(code) == "403" then DisabledApiText(text)
      else DecimalString(code) in allow
  }

  /** Listing "403" in the allow-list changes nothing. */
  lemma Listing403HasNoEffect(allow: seq<string>, err: Error)
    ensures IsNotFoundError(allow + ["403"], err) == IsNotFoundError(allow, err)
  {
    if err.ApiError? {
      Text403(err.code);
    }
  }

  /* The service name in the pattern is `[^\s]+`, yet the Directory API's
     own service is titled "Admin SDK API": its disabled-API text has a
     space inside the name, so the pattern never matches it. The intended
     classifier below takes the name to be any non-empty run of characters
     other than a newline (`.+`). The tables use the classifier as written
     (`IsNotFoundError`); this corrected one is kept alongside it for
     comparison. */

  /** The disabled-API pattern with a service name of any characters but
      newline matches `t` at `i`, with name end `j` and number end `k`. */
  ghost predicate DisabledAnyNameAt(t: string, i: int, j: int, k: int)
  {
    && 0 <= i && i + |Lead| < j <= |t|
    && t[i..i + |Lead|] == Lead
    && (forall m :: i + |Lead| <= m < j ==> t[m] != '\n')
    && ProjectAt(t, j, k)
  }

  ghost predicate MentionsDisabledApiAnyName(t: string)
  {
    exists i, j, k :: DisabledAnyNameAt(t, i, j, k)
  }

  /** A newline-free service name runs from `s` to `e`, and the rest of
      the pattern follows it with a project number ending at `k`. */
  ghost predicate NameEndsAt(t: string, s: int, e: int, k: int)
  {
    && 0 <= s < e <= |t|
    && (forall m :: s <= m < e ==> t[m] != '\n')
    && ProjectAt(t, e, k)
  }

  /** Search for the end, at `j` or later, of a service name starting at
      `s` that the rest of the pattern follows. */
  predicate ServiceEndSearch(t: string, s: nat, j: nat)
    requires s < j <= |t|
    decreases |t| - j
  {
    if ProjectMatch(t, j) then true
    else if j == |t| || t[j] == '\n' then false
    else ServiceEndSearch(t, s, j + 1)
  }

  lemma {:induction false} ServiceEndSearchSound(t: string, s: nat, j: nat)
    requires s < j <= |t|
    requires forall m :: s <= m < j ==> t[m] != '\n'
    ensures ServiceEndSearch(t, s, j) <==> exists e, k :: j <= e && NameEndsAt(t, s, e, k)
    decreases |t| - j
  {
    ProjectMatchSound(t, j);
    if ProjectMatch(t, j) {
      assert NameEndsAt(t, s, j, DigitEnd(t, j + |Middle|));
    } else if j == |t| || t[j] == '\n' {
      if e, k :| j <= e && NameEndsAt(t, s, e, k) {
        assert false;
      }
    } else {
      ServiceEndSearchSound(t, s, j + 1);
      if e, k :| j <= e && NameEndsAt(t, s, e, k) {
        assert e != j;
        assert j + 1 <= e;
      }
    }
  }

  predicate DisabledAnyNameMatchAt(t: string, i: nat)
  {
    var s := i + |Lead|;
    LiteralAt(t, i, Lead) && s < |t| && t[s] != '\n' && ServiceEndSearch(t, s, s + 1)
  }

  lemma DisabledAnyNameMatchAtSound(t: string, i: nat)
    ensures DisabledAnyNameMatchAt(t, i) <==> exists j, k :: DisabledAnyNameAt(t, i, j, k)
  {
    var s := i + |Lead|;
    if LiteralAt(t, i, Lead) && s < |t| && t[s] != '\n' {
      ServiceEndSearchSound(t, s, s + 1);
    }
    if DisabledAnyNameMatchAt(t, i) {
      var j, k :| s + 1 <= j && NameEndsAt(t, s, j, k);
      assert DisabledAnyNameAt(t, i, j, k);
    }
    if j, k :| DisabledAnyNameAt(t, i, j, k) {
      assert t[s] != '\n';
      assert NameEndsAt(t, s, j, k);
    }
  }

  function SearchAnyNameFrom(t: string, from: nat): (r: bool)
    requires from <= |t|
    ensures r <==> exists i, j, k :: from <= i && DisabledAnyNameAt(t, i, j, k)
    decreases |t| - from
  {
    DisabledAnyNameMatchAtSound(t, from);
    if from == |t| then false
    else DisabledAnyNameMatchAt(t, from) || SearchAnyNameFrom(t, from + 1)
  }

  function DisabledApiTextAnyName(t: string): (r: bool)
    ensures r <==> MentionsDisabledApiAnyName(t)
  {
    SearchAnyNameFrom(t, 0)
  }

  /** The intended classifier: as `IsNotFoundError`, but recognising a
      disabled API whatever its service is called. */
  function IsNotFoundErrorIntended(allow: seq<string>, err: Error): (r: bool)
    ensures err.OtherError? ==> !r
    ensures err.ApiError? && err.code == 403 ==> (r <==> MentionsDisabledApiAnyName(err.text))
    ensures err.ApiError? && err.code != 403 ==> (r <==> DecimalString(err.code) in allow)
  {
    match err
    case OtherError(_) => false
    case ApiError(code, text) =>
      Text403(code);
      if DecimalString(code) == "403" then DisabledApiTextAnyName(text)
      else DecimalString(code) in allow
  }

  /** With the allow-list `["404"]` that the group, user and member tables
      install, an API error is ignored exactly when it is a 404 or a 403
      whose text matches the pattern as written. */
  lemma Only404Ignored(code: int, text: string)
    ensures IsNotFoundError(["404"], ApiError(code, text)) <==>
              code == 404 || (code == 403 && MentionsDisabledApi(text))
  {
    Text404(code);
  }

  /** The same allow-list under the corrected classifier: a 404, or a 403
      naming any disabled service. */
  lemma Only404IgnoredIntended(code: int, text: string)
    ensures IsNotFoundErrorIntended(["404"], ApiError(code, text)) <==>
              code == 404 || (code == 403 && MentionsDisabledApiAnyName(text))
  {
    Text404(code);
  }

  /** The correction only widens the 403 case; every other error is
      classified exactly as the source does. */
  lemma IntendedExtendsSource(allow: seq<string>, err: Error)
    ensures IsNotFoundError(allow, err) ==> IsNotFoundErrorIntended(allow, err)
    ensures (err.ApiError? && err.code != 403) ==> IsNotFoundErrorIntended(allow, err) == IsNotFoundError(allow, err)
  {
    if err.ApiError? {
      Text403(err.code);
      if err.code == 403 && DisabledApiText(err.text) {
        var i, j, k :| DisabledAt(err.text, i, j, k);
        assert DisabledAnyNameAt(err.text, i, j, k);
      }
    }
  }

  /** The text the Directory API returns when it is disabled for the
      project, with project number 1. */
  const AdminSdkDisabled: string := Lead + "Admin SDK" + Middle + "1" + Tail

  lemma AdminSdkDisabledLayout()
    ensures |AdminSdkDisabled| == 92
    ensures AdminSdkDisabled[..22] == Lead
    ensures AdminSdkDisabled[22..31] == "Admin SDK"
    ensures AdminSdkDisabled[31..65] == Middle
    ensures AdminSdkDisabled[65..66] == "1"
    ensures AdminSdkDisabled[66..] == Tail
  {
  }

  /** A match in the Admin SDK text can only start at the beginning. */
  lemma AdminSdkLeadAtStart(i: int)
    requires 0 <= i <= 8 && AdminSdkDisabled[i..i + |Lead|] == Lead
    ensures i == 0
  {
    AdminSdkDisabledLayout();
    assert AdminSdkDisabled[i] == AdminSdkDisabled[i..i + |Lead|][0] == 'g';
    assert AdminSdkDisabled[i + 1] == AdminSdkDisabled[i..i + |Lead|][1] == 'o';
    assert forall m :: 0 <= m < 22 ==> AdminSdkDisabled[m] == Lead[m];
  }

  /** The non-whitespace run after the lead is "Admin". */
  lemma AdminSdkNameRun(j: int)
    requires 22 < j < |AdminSdkDisabled|
    requires forall m :: 22 <= m < j ==> !IsSpace(AdminSdkDisabled[m])
    requires AdminSdkDisabled[j] == ' '
    ensures j == 27
  {
    AdminSdkDisabledLayout();
    assert forall m :: 22 <= m < 31 ==> AdminSdkDisabled[m] == "Admin SDK"[m - 22];
    assert IsSpace(AdminSdkDisabled[27]);
  }

  lemma AdminSdkNoMiddleAfterAdmin()
    ensures AdminSdkDisabled[27..27 + |Middle|] != Middle
  {
    AdminSdkDisabledLayout();
    assert AdminSdkDisabled[27..27 + |Middle|][1] == AdminSdkDisabled[28] == 'S';
  }

  /** As written, the classifier does not ignore the Directory API's own
      disabled-API 403, whatever the allow-list. */
  lemma AdminSdkDisabledPropagates(allow: seq<string>)
    ensures !IsNotFoundError(allow, ApiError(403, AdminSdkDisabled))
  {
    Text403(403);
    if i, j, k :| DisabledAt(AdminSdkDisabled, i, j, k) {
      AdminSdkDisabledLayout();
      AdminSdkLeadAtStart(i);
      assert AdminSdkDisabled[j] == AdminSdkDisabled[j..j + |Middle|][0];
      AdminSdkNameRun(j);
      AdminSdkNoMiddleAfterAdmin();
      assert false;
    }
  }

  /** The intended classifier ignores it. */
  lemma AdminSdkDisabledIgnoredAsIntended(allow: seq<string>)
    ensures IsNotFoundErrorIntended(allow, ApiError(403, AdminSdkDisabled))
  {
    Text403(403);
    AdminSdkDisabledLayout();
    assert forall m :: 22 <= m < 31 ==> AdminSdkDisabled[m] == "Admin SDK"[m - 22];
    assert forall m :: 65 <= m < 66 ==> AdminSdkDisabled[m] == '1';
    assert DisabledAnyNameAt(AdminSdkDisabled, 0, 31, 66);
  }
}
