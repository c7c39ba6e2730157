/**
  DataValidator: syntactic checks on logins, names, passwords, server and
  domain names and distinguished names. Each check reports the first rule
  the input breaks. The per-thread "last error" is explicit state here:
  every check takes the current last error and returns it with the verdict,
  changed only when the verdict is negative.
 */
module DataValidator {
  import opened Chars
  import opened Text
  import opened NormalizedUsers

  /** A verdict together with the last error after the call. */
  datatype Checked = Checked(ok: bool, lastError: string)

  function Pass(lastError: string): Checked { Checked(true, lastError) }

  function Fail(message: string): Checked { Checked(false, message) }

  /** Every character of `s` satisfies `p`. */
  function AllMatch(s: string, p: char -> bool): (r: bool)
    ensures r <==> forall i :: 0 <= i < |s| ==> p(s[i])
  {
    if |s| == 0 then true else p(s[0]) && AllMatch(s[1..], p)
  }

  /** Some character of `s` satisfies `p`. */
  function AnyMatch(s: string, p: char -> bool): (r: bool)
    ensures r <==> exists i :: 0 <= i < |s| && p(s[i])
  {
    if |s| == 0 then false
    else if p(s[0]) then true
    else
      var r := AnyMatch(s[1..], p);
      assert r ==> exists i :: 0 <= i < |s| && p(s[i]) by {
        if r {
          var j :| 0 <= j < |s[1..]| && p(s[1..][j]);
          assert p(s[j + 1]);
        }
      }
      r
  }

  // ---- login ---------------------------------------------------------------

  /** The character class [a-zA-Z0-9_-]. */
  predicate IsLoginChar(c: char) { IsAsciiAlnum(c) || c == '_' || c == '-' }

  const MaxLoginLength := 20

  /** The accepted logins: 1..20 characters from the class, the first one a
      letter. */
  predicate IsLogin(login: string) {
    && 1 <= |login| <= MaxLoginLength
    && (forall i :: 0 <= i < |login| ==> IsLoginChar(login[i]))
    && IsLetter(login[0])
  }

  /** isValidLogin */
  function IsValidLogin(login: string, lastError: string): (r: Checked)
    ensures r.ok <==> IsLogin(login)
    ensures r.ok ==> r.lastError == lastError
    ensures |login| == 0 ==> r == Fail("Login cannot be empty")
    ensures |login| > MaxLoginLength ==> r == Fail("Login cannot be longer than 20 characters")
    ensures 1 <= |login| <= MaxLoginLength && (exists i :: 0 <= i < |login| && !IsLoginChar(login[i])) ==>
      r == Fail("Login can only contain letters, numbers, underscores, and hyphens")
    ensures |login| >= 1 && (forall i :: 0 <= i < |login| ==> IsLoginChar(login[i])) && !IsLogin(login) ==>
      |login| > MaxLoginLength || r == Fail("Login must start with a letter")
  {
    if |login| == 0 then Fail("Login cannot be empty")
    else if |login| > MaxLoginLength then Fail("Login cannot be longer than 20 characters")
    else if !AllMatch(login, IsLoginChar) then
      Fail("Login can only contain letters, numbers, underscores, and hyphens")
    else if !IsLetter(login[0]) then Fail("Login must start with a letter")
    else Pass(lastError)
  }

  /** Within the login class, "a letter" means an ASCII letter. */
  lemma LoginStartsWithAsciiLetter(login: string)
    requires IsLogin(login)
    ensures IsAsciiLetter(login[0])
  {
  }

  /** "1abc" fails on its first character, "abc_1" passes and keeps the
      previous error. */
  lemma LoginExamples(lastError: string)
    ensures IsValidLogin("1abc", lastError) == Fail("Login must start with a letter")
    ensures IsValidLogin("abc_1", lastError) == Pass(lastError)
    ensures IsValidLogin("ab c", lastError).lastError
      == "Login can only contain letters, numbers, underscores, and hyphens"
  {
    assert !IsLoginChar("ab c"[2]);
  }

  // ---- full name -----------------------------------------------------------

  /** `\s` of the regular-expression engine without Unicode properties: the
      ASCII whitespace characters. */
  predicate IsRegexSpace(c: char) { c == ' ' || '\t' <= c <= '\r' }

  /** The complement of the class [^\p{L}\s'-]: letters, whitespace, the
      apostrophe and the hyphen. */
  predicate IsNameChar(c: char) { IsLetter(c) || IsRegexSpace(c) || c == '\'' || c == '-' }

  const MaxNameLength := 64

  /** The accepted full names: not blank, at most 64 characters, at least two
      space-separated words, nothing but name characters. */
  predicate IsFullName(name: string) {
    && !IsBlank(name)
    && |name| <= MaxNameLength
    && |Split(name, ' ')| >= 2
    && (forall i :: 0 <= i < |name| ==> IsNameChar(name[i]))
  }

  /** isValidFullName */
  function IsValidFullName(name: string, lastError: string): (r: Checked)
    ensures r.ok <==> IsFullName(name)
    ensures r.ok ==> r.lastError == lastError
    ensures IsBlank(name) ==> r == Fail("Name cannot be empty")
    ensures !IsBlank(name) && |name| > MaxNameLength ==> r == Fail("Name is too long (max 64 characters)")
    ensures !IsBlank(name) && |name| <= MaxNameLength && |Split(name, ' ')| < 2 ==>
      r == Fail("Full name must contain both first and last names")
    ensures (&& !IsBlank(name) && |name| <= MaxNameLength && |Split(name, ' ')| >= 2
             && (exists i :: 0 <= i < |name| && !IsNameChar(name[i]))) ==>
      r == Fail("Name contains invalid characters")
  {
    if AllMatch(name, IsSpace) then Fail("Name cannot be empty")
    else if |name| > MaxNameLength then Fail("Name is too long (max 64 characters)")
    else if |Split(name, ' ')| < 2 then Fail("Full name must contain both first and last names")
    else if !AllMatch(name, IsNameChar) then Fail("Name contains invalid characters")
    else Pass(lastError)
  }

  /** A single word is never a full name, even followed by a space. */
  lemma OneWordIsNotAFullName(w: string)
    requires w != [] && NoSep(w, Char(' '))
    ensures !IsValidFullName(w, "").ok
    ensures !IsValidFullName(w + " ", "").ok
  {
    TokensOfToken(w, Char(' '));
    TokensConcat(w, ' ', [], Char(' '));
    assert w + [' '] + [] == w + " ";
  }

  /** Two words made of name characters and joined by a space make a full
      name, whatever the previous error was. */
  lemma TwoWordsAreAFullName(first: string, last: string, lastError: string)
    requires first != [] && last != []
    requires forall i :: 0 <= i < |first| ==> IsLetter(first[i])
    requires forall i :: 0 <= i < |last| ==> IsLetter(last[i]) || last[i] == '-' || last[i] == '\''
    requires |first| + |last| < MaxNameLength
    ensures IsValidFullName(first + " " + last, lastError) == Pass(lastError)
  {
    var s := first + " " + last;
    assert !IsSpace(s[0]);
    assert NoSep(first, Char(' ')) && NoSep(last, Char(' '));
    TokensConcat(first, ' ', last, Char(' '));
    assert s == first + [' '] + last;
    TokensOfToken(first, Char(' '));
    TokensOfToken(last, Char(' '));
    forall i | 0 <= i < |s| ensures IsNameChar(s[i]) {
      if i > |first| { assert s[i] == last[i - |first| - 1]; }
    }
  }

  // ---- password ------------------------------------------------------------

  const DefaultMinPasswordLength := 8

  /** The accepted passwords: non-empty, at least `minLength` long, with an
      upper-case letter, a lower-case letter and a digit. A symbol is never
      required. */
  predicate IsPassword(password: string, minLength: int) {
    && |password| > 0
    && |password| >= minLength
    && (exists i :: 0 <= i < |password| && IsUpper(password[i]))
    && (exists i :: 0 <= i < |password| && IsLower(password[i]))
    && (exists i :: 0 <= i < |password| && IsDigit(password[i]))
  }

  function TooShortMessage(minLength: int): string {
    "Password must be at least " + IntToString(minLength) + " characters long"
  }

  /** isValidPassword */
  function IsValidPassword(password: string, minLength: int, lastError: string): (r: Checked)
    ensures r.ok <==> IsPassword(password, minLength)
    ensures r.ok ==> r.lastError == lastError
    ensures |password| == 0 ==> r == Fail("Password cannot be empty")
    ensures 0 < |password| < minLength ==> r == Fail(TooShortMessage(minLength))
    ensures 0 < |password| && |password| >= minLength && !IsPassword(password, minLength) ==>
      r == Fail("Password must contain at least one uppercase letter, one lowercase letter, and one digit")
  {
    if |password| == 0 then Fail("Password cannot be empty")
    else if |password| < minLength then Fail(TooShortMessage(minLength))
    else if !(AnyMatch(password, IsUpper) && AnyMatch(password, IsLower) && AnyMatch(password, IsDigit)) then
      Fail("Password must contain at least one uppercase letter, one lowercase letter, and one digit")
    else Pass(lastError)
  }

  /** The length message carries the minimum in decimal; with the default
      minimum of 8 a short password is told so. */
  lemma PasswordTooShortExample(lastError: string)
    ensures TooShortMessage(DefaultMinPasswordLength) == "Password must be at least 8 characters long"
    ensures IsValidPassword("Ab1", DefaultMinPasswordLength, lastError)
      == Fail("Password must be at least 8 characters long")
  {
    assert IntToString(8) == "8";
  }

  /** Upper case, lower case and a digit are enough, symbols are never
      needed; a password of lower-case letters and digits alone is refused. */
  lemma PasswordComplexityExample(lastError: string)
    ensures IsValidPassword("Ab1", 3, lastError) == Pass(lastError)
    ensures IsValidPassword("ab1", 3, lastError)
      == Fail("Password must contain at least one uppercase letter, one lowercase letter, and one digit")
  {
    var p := "Ab1";
    assert IsUpper(p[0]) && IsLower(p[1]) && IsDigit(p[2]);
    var q := "ab1";
    assert !IsUpper(q[0]) && !IsUpper(q[1]) && !IsUpper(q[2]);
  }

  // ---- server name ---------------------------------------------------------

  /** The character class [a-zA-Z0-9-]. */
  predicate IsHostChar(c: char) { IsAsciiAlnum(c) || c == '-' }

  const MaxServerNameLength := 15

  /** The accepted server names: 1..15 characters from the class, neither
      the first nor the last a hyphen. */
  predicate IsServerName(name: string) {
    && 1 <= |name| <= MaxServerNameLength
    && (forall i :: 0 <= i < |name| ==> IsHostChar(name[i]))
    && name[0] != '-' && name[|name| - 1] != '-'
  }

  /** isValidServerName */
  function IsValidServerName(name: string, lastError: string): (r: Checked)
    ensures r.ok <==> IsServerName(name)
    ensures r.ok ==> r.lastError == lastError
    ensures |name| == 0 ==> r == Fail("Server name cannot be empty")
    ensures |name| > MaxServerNameLength ==> r == Fail("Server name cannot be longer than 15 characters")
    ensures 1 <= |name| <= MaxServerNameLength && (exists i :: 0 <= i < |name| && !IsHostChar(name[i])) ==>
      r == Fail("Server name can only contain letters, numbers, and hyphens")
    ensures (&& 1 <= |name| <= MaxServerNameLength && (forall i :: 0 <= i < |name| ==> IsHostChar(name[i]))
             && (name[0] == '-' || name[|name| - 1] == '-')) ==>
      r == Fail("Server name cannot start or end with a hyphen")
  {
    if |name| == 0 then Fail("Server name cannot be empty")
    else if |name| > MaxServerNameLength then Fail("Server name cannot be longer than 15 characters")
    else if !AllMatch(name, IsHostChar) then Fail("Server name can only contain letters, numbers, and hyphens")
    else if name[0] == '-' || name[|name| - 1] == '-' then Fail("Server name cannot start or end with a hyphen")
    else Pass(lastError)
  }

  // ---- domain name ---------------------------------------------------------

  /** One label of the domain pattern, matched case-insensitively:
      [a-z0-9] optionally followed by [a-z0-9-]*[a-z0-9]. */
  predicate IsLabel(l: string) {
    && |l| >= 1
    && (forall i :: 0 <= i < |l| ==> IsHostChar(l[i]))
    && IsAsciiAlnum(l[0]) && IsAsciiAlnum(l[|l| - 1])
  }

  function AllLabels(labels: seq<string>): (r: bool)
    ensures r <==> forall i :: 0 <= i < |labels| ==> IsLabel(labels[i])
  {
    if |labels| == 0 then true else IsLabel(labels[0]) && AllLabels(labels[1..])
  }

  /** The accepted domain names: two or more labels joined by dots. */
  ghost predicate IsDomainName(d: string) {
    exists labels: seq<string> :: IsLabelSequence(labels) && Join(labels, ".") == d
  }

  predicate IsLabelSequence(labels: seq<string>) {
    |labels| >= 2 && forall i :: 0 <= i < |labels| ==> IsLabel(labels[i])
  }

  /** isValidDomainName */
  function IsValidDomainName(d: string, lastError: string): (r: Checked)
    ensures r.ok <==> IsDomainName(d)
    ensures r.ok ==> r.lastError == lastError
    ensures |d| == 0 ==> r == Fail("Domain name cannot be empty")
    ensures |d| > 0 && !IsDomainName(d) ==> r == Fail("Invalid domain name format")
  {
    DomainNameBySegments(d);
    if |d| == 0 then Fail("Domain name cannot be empty")
    else
      var labels := SplitAll(d, '.');
      if !(|labels| >= 2 && AllLabels(labels)) then Fail("Invalid domain name format")
      else Pass(lastError)
  }

  /** Dots never occur inside a label, so the labels are exactly the
      dot-separated segments. */
  lemma DomainNameBySegments(d: string)
    ensures IsDomainName(d) <==> IsLabelSequence(SplitAll(d, '.'))
  {
    var segs := SplitAll(d, '.');
    if IsLabelSequence(segs) {
      SplitAllJoin(d, '.');
      assert Join(segs, ".") == d;
    }
    if IsDomainName(d) {
      var labels :| IsLabelSequence(labels) && Join(labels, ".") == d;
      SplitAllOfJoin(labels, '.');
    }
  }

  /** Splitting a join of separator-free segments gives the segments back. */
  lemma {:induction false} SplitAllOfJoin(ws: seq<string>, c: char)
    requires |ws| >= 1
    requires forall i :: 0 <= i < |ws| ==> NoSep(ws[i], Char(c))
    ensures SplitAll(Join(ws, [c]), c) == ws
  {
    if |ws| == 1 {
      SplitAllSingle(ws[0], c);
    } else {
      SplitAllOfJoin(ws[1..], c);
      SplitAllCons(ws[0], c, Join(ws[1..], [c]));
      assert ws[0] + [c] + Join(ws[1..], [c]) == Join(ws, [c]);
    }
  }

  /** Two labels joined by a dot make a domain name. */
  lemma TwoLabelsAreADomainName(l1: string, l2: string, lastError: string)
    requires IsLabel(l1) && IsLabel(l2)
    ensures IsValidDomainName(l1 + "." + l2, lastError) == Pass(lastError)
  {
    assert Join([l1, l2], ".") == l1 + "." + l2 by {
      assert [l1, l2][1..] == [l2];
    }
    assert IsLabelSequence([l1, l2]);
  }

  /** A single label is not a domain name, and neither is a name with an
      empty label: a doubled, leading or trailing dot. */
  lemma MalformedDomainNames(l1: string, l2: string, lastError: string)
    requires IsLabel(l1) && IsLabel(l2)
    ensures !IsValidDomainName(l1, lastError).ok
    ensures !IsValidDomainName(l1 + ".." + l2, lastError).ok
    ensures !IsValidDomainName("." + l1, lastError).ok
    ensures !IsValidDomainName(l1 + ".", lastError).ok
  {
    assert NoSep(l1, Char('.')) && NoSep(l2, Char('.'));
    SingleLabelRejected(l1, lastError);
    DoubleDotRejected(l1, l2, lastError);
    LeadingDotRejected(l1, lastError);
    TrailingDotRejected(l1, lastError);
  }

  lemma SingleLabelRejected(l: string, lastError: string)
    requires NoSep(l, Char('.'))
    ensures !IsValidDomainName(l, lastError).ok
  {
    DomainNameBySegments(l);
    SplitAllSingle(l, '.');
  }

  lemma DoubleDotRejected(l1: string, l2: string, lastError: string)
    requires NoSep(l1, Char('.')) && NoSep(l2, Char('.'))
    ensures !IsValidDomainName(l1 + ".." + l2, lastError).ok
  {
    DomainNameBySegments(l1 + ".." + l2);
    SplitAllCons(l1, '.', "." + l2);
    assert l1 + ['.'] + ("." + l2) == l1 + ".." + l2;
    SplitAllCons("", '.', l2);
    assert "" + ['.'] + l2 == "." + l2;
    assert !IsLabel(SplitAll(l1 + ".." + l2, '.')[1]);
  }

  lemma LeadingDotRejected(l: string, lastError: string)
    requires NoSep(l, Char('.'))
    ensures !IsValidDomainName("." + l, lastError).ok
  {
    DomainNameBySegments("." + l);
    SplitAllCons("", '.', l);
    assert "" + ['.'] + l == "." + l;
    assert !IsLabel(SplitAll("." + l, '.')[0]);
  }

  lemma TrailingDotRejected(l: string, lastError: string)
    requires NoSep(l, Char('.'))
    ensures !IsValidDomainName(l + ".", lastError).ok
  {
    DomainNameBySegments(l + ".");
    SplitAllCons(l, '.', "");
    assert l + ['.'] + "" == l + ".";
    SplitAllSingle("", '.');
    assert !IsLabel(SplitAll(l + ".", '.')[1]);
  }

  // ---- distinguished name --------------------------------------------------

  /** isValidDistinguishedName: non-empty, with an '=' and a ','. */
  function IsValidDistinguishedName(dn: string, lastError: string): (r: Checked)
    ensures r.ok <==> |dn| > 0 && '=' in dn && ',' in dn
    ensures r.ok ==> r.lastError == lastError
    ensures |dn| == 0 ==> r == Fail("Distinguished name cannot be empty")
    ensures |dn| > 0 && !('=' in dn && ',' in dn) ==>
      r == Fail("Distinguished name must be in LDAP format (e.g., CN=User,OU=Users,DC=example,DC=com)")
  {
    if |dn| == 0 then Fail("Distinguished name cannot be empty")
    else if !(AnyMatch(dn, c => c == '=') && AnyMatch(dn, c => c == ',')) then
      Fail("Distinguished name must be in LDAP format (e.g., CN=User,OU=Users,DC=example,DC=com)")
    else Pass(lastError)
  }

  // ---- user lists ----------------------------------------------------------

  /** The report line for one invalid user. */
  function ReportLine(u: NormalizedUser): string {
    u.originalName + ": " + u.validationError
  }

  /** The report lines of the invalid users, in list order. */
  function InvalidLines(users: seq<NormalizedUser>): (r: seq<string>)
    ensures |r| <= |users|
  {
    if |users| == 0 then []
    else (if users[0].isValid then [] else [ReportLine(users[0])]) + InvalidLines(users[1..])
  }

  /** The report is empty exactly when every user is valid. */
  lemma {:induction false} InvalidLinesEmpty(users: seq<NormalizedUser>)
    ensures (forall i :: 0 <= i < |users| ==> users[i].isValid) <==> InvalidLines(users) == []
  {
    if |users| > 0 {
      InvalidLinesEmpty(users[1..]);
      if forall i :: 0 <= i < |users[1..]| ==> users[1..][i].isValid {
        forall i | 1 <= i < |users| ensures users[i].isValid {
          assert users[i] == users[1..][i - 1];
        }
      }
    }
  }

  /** The report of a concatenated list is the concatenation of the reports:
      every invalid user contributes exactly its own line, in order. */
  lemma {:induction false} InvalidLinesConcat(a: seq<NormalizedUser>, b: seq<NormalizedUser>)
    ensures InvalidLines(a + b) == InvalidLines(a) + InvalidLines(b)
  {
    if |a| == 0 {
      assert a + b == b;
    } else {
      var head := if a[0].isValid then [] else [ReportLine(a[0])];
      assert (a + b)[1..] == a[1..] + b;
      assert (a + b)[0] == a[0];
      assert InvalidLines(a + b) == head + InvalidLines(a[1..] + b);
      assert InvalidLines(a) == head + InvalidLines(a[1..]);
      InvalidLinesConcat(a[1..], b);
      assert head + (InvalidLines(a[1..]) + InvalidLines(b)) == (head + InvalidLines(a[1..])) + InvalidLines(b);
    }
  }

  lemma InvalidLinesSingle(u: NormalizedUser)
    ensures InvalidLines([u]) == if u.isValid then [] else [ReportLine(u)]
  {
  }

  const InvalidUsersHeader := "The following users are invalid:\n"

  /** validateNormalizedUsers: an empty list fails; otherwise the list passes
      when every user is valid, and fails with a report listing exactly the
      invalid users, one per line. */
  method ValidateNormalizedUsers(users: seq<NormalizedUser>, lastError: string) returns (r: Checked)
    ensures |users| == 0 ==> r == Fail("No users to validate")
    ensures |users| > 0 ==> (r.ok <==> forall i :: 0 <= i < |users| ==> users[i].isValid)
    ensures r.ok ==> r.lastError == lastError
    ensures |users| > 0 && !r.ok ==> r.lastError == InvalidUsersHeader + Join(InvalidLines(users), "\n")
  {
    if |users| == 0 {
      return Fail("No users to validate");
    }
    var allValid := true;
    var invalidUsers: seq<string> := [];
    var i := 0;
    while i < |users|
      invariant 0 <= i <= |users|
      invariant invalidUsers == InvalidLines(users[..i])
      invariant allValid <==> invalidUsers == []
    {
      if !users[i].isValid {
        allValid := false;
        invalidUsers := invalidUsers + [ReportLine(users[i])];
      }
      assert users[..i + 1] == users[..i] + [users[i]];
      InvalidLinesSingle(users[i]);
      InvalidLinesConcat(users[..i], [users[i]]);
      i := i + 1;
    }
    assert users[..i] == users;
    InvalidLinesEmpty(users);
    if !allValid {
      r := Fail(InvalidUsersHeader + Join(invalidUsers, "\n"));
    } else {
      r := Pass(lastError);
    }
  }
}
