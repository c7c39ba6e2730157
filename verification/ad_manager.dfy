/**
  ADManager: the directory-facing logic that does not need the directory
  itself: unique login generation against an existence check, the
  distinguished-name builders, and the environment guessed for a server.
  The existence check is the mock used when no directory query is made: a
  case-insensitive lookup in a fixed set of lower-case logins.
 */
module ADManager {
  import opened Chars
  import opened Text
  import DataValidator
  import opened StringUtils
  import Sets

  /** The logins the mock directory reports as taken. */
  const MockUsers: set<string> := {"user1", "user2", "devuser1", "devuser2", "devuser3"}

  /** userExists: never while disconnected; otherwise the lower-cased login
      is looked up in the set of taken logins. */
  predicate UserExists(connected: bool, existing: set<string>, login: string) {
    connected && LowerStr(login) in existing
  }

  /** The ASCII letters and digits of `s`, in order: removal of every match
      of [^a-zA-Z0-9]. */
  function AsciiAlnumOnly(s: string): (r: string)
    ensures |r| <= |s|
    ensures forall i :: 0 <= i < |r| ==> IsAsciiAlnum(r[i])
    ensures (forall i :: 0 <= i < |s| ==> !IsAsciiAlnum(s[i])) ==> r == ""
    ensures (forall i :: 0 <= i < |s| ==> IsAsciiAlnum(s[i])) ==> r == s
  {
    if |s| == 0 then ""
    else (if IsAsciiAlnum(s[0]) then [s[0]] else "") + AsciiAlnumOnly(s[1..])
  }

  lemma {:induction false} AsciiAlnumOnlyConcat(a: string, b: string)
    ensures AsciiAlnumOnly(a + b) == AsciiAlnumOnly(a) + AsciiAlnumOnly(b)
  {
    if |a| == 0 {
      assert a + b == b;
    } else {
      assert (a + b)[0] == a[0];
      assert (a + b)[1..] == a[1..] + b;
      AsciiAlnumOnlyConcat(a[1..], b);
    }
  }

  /** The login before uniqueness: the upper-cased first character of the
      first name followed by the last name, with every character outside
      [A-Za-z0-9] removed. Nothing is transliterated. */
  function BaseLogin(firstName: string, lastName: string): string {
    AsciiAlnumOnly(UpperStr(Initial(firstName)) + lastName)
  }

  /** The k-th candidate: the base itself, then base1, base2, ... */
  function Candidate(base: string, k: nat): string {
    if k == 0 then base else base + NatToString(k)
  }

  /** The lower-cased candidates are pairwise distinct. */
  lemma CandidatesDistinct(base: string, j: nat, k: nat)
    requires j != k
    ensures LowerStr(Candidate(base, j)) != LowerStr(Candidate(base, k))
  {
    if j > 0 { LowerDigits(base, NatToString(j)); }
    if k > 0 { LowerDigits(base, NatToString(k)); }
    if j > 0 && k > 0 {
      if NatToString(j) == NatToString(k) {
        NatToStringInjective(j, k);
      }
      PrefixCancel(LowerStr(base), NatToString(j), NatToString(k));
    }
  }

  lemma PrefixCancel(p: string, x: string, y: string)
    ensures p + x == p + y ==> x == y
  {
    if p + x == p + y {
      assert x == (p + x)[|p|..];
      assert y == (p + y)[|p|..];
    }
  }

  lemma LowerDigits(base: string, d: string)
    requires AllDigits(d)
    ensures LowerStr(base + d) == LowerStr(base) + d
  {
  }

  /** The lower-cased candidates before position k. */
  function Probed(base: string, k: nat): (r: set<string>)
    decreases k, 1
    ensures |r| == k
    ensures forall j :: 0 <= j < k ==> LowerStr(Candidate(base, j)) in r
  {
    if k == 0 then {}
    else
      var prev := Probed(base, k - 1);
      var x := LowerStr(Candidate(base, k - 1));
      assert x !in prev by {
        if x in prev {
          ProbedMembers(base, k - 1, x);
          var j :| 0 <= j < k - 1 && x == LowerStr(Candidate(base, j));
          CandidatesDistinct(base, j, k - 1);
        }
      }
      prev + {x}
  }

  lemma {:induction false} ProbedMembers(base: string, k: nat, x: string)
    requires x in Probed(base, k)
    decreases k, 2
    ensures exists j :: 0 <= j < k && x == LowerStr(Candidate(base, j))
  {
    if x != LowerStr(Candidate(base, k - 1)) {
      ProbedMembers(base, k - 1, x);
    }
  }

  /** The first candidate that is not taken, with every earlier one taken. */
  predicate IsFirstFree(connected: bool, existing: set<string>, base: string, k: nat) {
    && !UserExists(connected, existing, Candidate(base, k))
    && forall j :: 0 <= j < k ==> UserExists(connected, existing, Candidate(base, j))
  }

  /** The first free position is unique. */
  lemma FirstFreeUnique(connected: bool, existing: set<string>, base: string, j: nat, k: nat)
    requires IsFirstFree(connected, existing, base, j) && IsFirstFree(connected, existing, base, k)
    ensures j == k
  {
  }

  /** generateUniqueLogin: the empty string while disconnected; otherwise
      the first of base, base1, base2, ... that is not taken. The probe
      stops after at most |existing| taken candidates, and the result is not
      taken. */
  method GenerateUniqueLogin(connected: bool, existing: set<string>, firstName: string, lastName: string)
    returns (login: string)
    ensures !connected ==> login == ""
    ensures connected ==> exists k: nat :: (k <= |existing|
      && login == Candidate(BaseLogin(firstName, lastName), k)
      && IsFirstFree(connected, existing, BaseLogin(firstName, lastName), k))
    ensures connected ==> LowerStr(login) !in existing
  {
    if !connected {
      return "";
    }
    var base := BaseLogin(firstName, lastName);
    login := base;
    var suffix: nat := 1;
    while UserExists(connected, existing, login)
      invariant 1 <= suffix <= |existing| + 1
      invariant login == Candidate(base, suffix - 1)
      invariant forall j :: 0 <= j < suffix - 1 ==> UserExists(connected, existing, Candidate(base, j))
      decreases |existing| + 1 - suffix
    {
      assert Probed(base, suffix) <= existing by {
        forall x | x in Probed(base, suffix) ensures x in existing {
          ProbedMembers(base, suffix, x);
        }
      }
      Sets.SubsetSize(Probed(base, suffix), existing);
      login := base + NatToString(suffix);
      suffix := suffix + 1;
    }
    assert IsFirstFree(connected, existing, base, suffix - 1);
  }

  /** Cyrillic names lose every letter: "Іван Петренко" gives the empty base
      login. */
  lemma CyrillicNamesVanish(firstName: string, lastName: string)
    requires forall i :: 0 <= i < |firstName| ==> IsCyrillicUpper(firstName[i]) || IsCyrillicLower(firstName[i])
    requires forall i :: 0 <= i < |lastName| ==> IsCyrillicUpper(lastName[i]) || IsCyrillicLower(lastName[i])
    ensures BaseLogin(firstName, lastName) == ""
  {
    var s := UpperStr(Initial(firstName)) + lastName;
    forall i | 0 <= i < |s| ensures !IsAsciiAlnum(s[i]) {
      if i < |UpperStr(Initial(firstName))| {
        assert s[i] == ToUpper(firstName[0]);
      } else {
        assert s[i] == lastName[i - |UpperStr(Initial(firstName))|];
      }
    }
  }

  /** A Latin name keeps its letters: the base is the upper-cased initial
      followed by the last name. */
  lemma LatinNameBase(firstName: string, lastName: string)
    requires |firstName| > 0 && IsAsciiLetter(firstName[0])
    requires forall i :: 0 <= i < |lastName| ==> IsAsciiAlnum(lastName[i])
    ensures BaseLogin(firstName, lastName) == [ToUpper(firstName[0])] + lastName
  {
    assert UpperStr(Initial(firstName)) == [ToUpper(firstName[0])];
    AsciiAlnumOnlyConcat([ToUpper(firstName[0])], lastName);
  }

  /** With the mock directory, "User1" is taken (case does not matter) and
      the generator moves on to "User11"; "Devuser" itself is free. */
  lemma MockExamples()
    ensures UserExists(true, MockUsers, "User1")
    ensures IsFirstFree(true, MockUsers, "User1", 1)
    ensures Candidate("User1", 1) == "User11"
    ensures IsFirstFree(true, MockUsers, "Devuser", 0)
  {
    assert LowerStr("User1") == "user1";
    assert NatToString(1) == "1";
    assert LowerStr("User11") == "user11";
    assert LowerStr("Devuser") == "devuser";
  }

  // ---- distinguished names ---------------------------------------------------

  const LdapPrefix := "LDAP://"

  /** QString::mid(7): the string without its first seven characters. */
  function WithoutPrefix(domainDN: string): string {
    if |domainDN| <= 7 then "" else domainDN[7..]
  }

  predicate NoPercent(s: string) { '%' !in s }

  /** buildUserDN. The arguments are substituted one after another, so a '%'
      in an earlier argument could be taken for a placeholder; none is
      allowed. */
  function BuildUserDN(domainDN: string, login: string, serverName: string): (r: string)
    requires NoPercent(login) && NoPercent(serverName)
    ensures forall d :: domainDN == LdapPrefix + d ==> r == "CN=" + login + ",OU=" + serverName + "," + d
  {
    "CN=" + login + ",OU=" + serverName + "," + WithoutPrefix(domainDN)
  }

  /** buildServerGroupDN */
  function BuildServerGroupDN(domainDN: string, serverName: string): (r: string)
    requires NoPercent(serverName)
    ensures forall d :: domainDN == LdapPrefix + d ==> r == "CN=" + serverName + "-Group,OU=" + serverName + "," + d
  {
    "CN=" + serverName + "-Group,OU=" + serverName + "," + WithoutPrefix(domainDN)
  }

  /** buildServerOUDN */
  function BuildServerOUDN(domainDN: string, serverName: string): (r: string)
    requires NoPercent(serverName)
    ensures forall d :: domainDN == LdapPrefix + d ==> r == "OU=" + serverName + "," + d
  {
    "OU=" + serverName + "," + WithoutPrefix(domainDN)
  }

  /** Every built name passes the distinguished-name check, whatever the
      domain. */
  lemma BuiltNamesAreDistinguishedNames(domainDN: string, login: string, serverName: string, lastError: string)
    requires NoPercent(login) && NoPercent(serverName)
    ensures DataValidator.IsValidDistinguishedName(BuildUserDN(domainDN, login, serverName), lastError).ok
    ensures DataValidator.IsValidDistinguishedName(BuildServerGroupDN(domainDN, serverName), lastError).ok
    ensures DataValidator.IsValidDistinguishedName(BuildServerOUDN(domainDN, serverName), lastError).ok
  {
    UserDNHasSeparators(domainDN, login, serverName);
    GroupDNHasSeparators(domainDN, serverName);
    OUDNHasSeparators(domainDN, serverName);
  }

  lemma UserDNHasSeparators(domainDN: string, login: string, serverName: string)
    requires NoPercent(login) && NoPercent(serverName)
    ensures var u := BuildUserDN(domainDN, login, serverName); '=' in u && ',' in u
  {
    var u := BuildUserDN(domainDN, login, serverName);
    assert u[2] == '=' && u[3 + |login|] == ',';
  }

  lemma GroupDNHasSeparators(domainDN: string, serverName: string)
    requires NoPercent(serverName)
    ensures var g := BuildServerGroupDN(domainDN, serverName); '=' in g && ',' in g
  {
    var g := BuildServerGroupDN(domainDN, serverName);
    assert g[2] == '=' && g[3 + |serverName| + 6] == ',';
  }

  lemma OUDNHasSeparators(domainDN: string, serverName: string)
    requires NoPercent(serverName)
    ensures var o := BuildServerOUDN(domainDN, serverName); '=' in o && ',' in o
  {
    var o := BuildServerOUDN(domainDN, serverName);
    assert o[2] == '=' && o[3 + |serverName|] == ',';
  }

  /** The user's name sits inside the server's organisational unit: the
      user DN is "CN=login," followed by the server's OU name. */
  lemma UserDNInsideServerOU(domainDN: string, login: string, serverName: string)
    requires NoPercent(login) && NoPercent(serverName)
    ensures BuildUserDN(domainDN, login, serverName) == "CN=" + login + "," + BuildServerOUDN(domainDN, serverName)
  {
  }

  // ---- environment -----------------------------------------------------------

  /** The environment getServerInfo records: "dev" when the lower-cased name
      contains "dev", else "test" when it contains "test", else "prod". */
  function EnvironmentOf(serverName: string): (env: string)
    ensures env in {"dev", "test", "prod"}
    ensures env == "prod" <==> !Contains(LowerStr(serverName), "dev") && !Contains(LowerStr(serverName), "test")
    ensures env == "dev" <==> Contains(LowerStr(serverName), "dev")
  {
    var lower := LowerStr(serverName);
    if Contains(lower, "dev") then "dev"
    else if Contains(lower, "test") then "test"
    else "prod"
  }

  /** The mock servers: DEVSERVER is "dev", TESTSERVER is "test", and
      SERVER01 is "prod". */
  lemma EnvironmentExamples()
    ensures EnvironmentOf("DEVSERVER") == "dev"
    ensures EnvironmentOf("TESTSERVER") == "test"
    ensures EnvironmentOf("SERVER01") == "prod"
  {
    DevServerExample();
    TestServerExample();
    ProdServerExample();
  }

  lemma DevServerExample()
    ensures EnvironmentOf("DEVSERVER") == "dev"
  {
    assert LowerStr("DEVSERVER") == "devserver";
    assert OccursAt("devserver", "dev", 0);
  }

  lemma TestServerExample()
    ensures EnvironmentOf("TESTSERVER") == "test"
  {
    assert LowerStr("TESTSERVER") == "testserver";
    assert OccursAt("testserver", "test", 0);
    MissingFirstChar("testserver", "dev");
  }

  lemma ProdServerExample()
    ensures EnvironmentOf("SERVER01") == "prod"
  {
    assert LowerStr("SERVER01") == "server01";
    MissingFirstChar("server01", "dev");
    MissingFirstChar("server01", "test");
  }

}
