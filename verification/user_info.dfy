/**
  UserInfo: a directory user as shown to the operator, with the first/last
  name guessed from the full name and the strings built for display and for
  a remote-desktop connection.
 */
module UserInfos {
  import opened Text
  import NormalizedUsers

  datatype UserInfo = UserInfo(
    login: string,
    fullName: string,
    firstName: string,
    lastName: string,
    distinguishedName: string,
    serverName: string,
    password: string,
    isActive: bool)

  /** The default constructor: an active user with every string empty. */
  function Default(): (u: UserInfo)
    ensures u.isActive
    ensures u.login == u.fullName == u.firstName == u.lastName == ""
    ensures u.distinguishedName == u.serverName == u.password == ""
  {
    UserInfo("", "", "", "", "", "", "", true)
  }

  /** The (login, fullName) constructor: an active user whose first name is
      the first space-separated word of the full name and whose last name is
      the last word; a one-word name has an empty last name. */
  function Create(login: string, fullName: string): (u: UserInfo)
    ensures u.isActive && u.login == login && u.fullName == fullName
    ensures u.distinguishedName == u.serverName == u.password == ""
    ensures var words := Split(fullName, ' ');
      && (|words| == 0 ==> u.firstName == "" && u.lastName == "")
      && (|words| >= 1 ==> u.firstName == words[0] && u.firstName != [])
      && (|words| >= 2 ==> u.lastName == words[|words| - 1] && u.lastName != [])
      && (|words| == 1 ==> u.lastName == "")
  {
    var words := Split(fullName, ' ');
    var first := if |words| >= 1 then words[0] else "";
    var last := if |words| >= 2 then words[|words| - 1] else "";
    UserInfo(login, fullName, first, last, "", "", "", true)
  }

  /** Unlike NormalizedUser, which keeps every word after the first in the
      last name, UserInfo keeps only the final word: the two agree on the
      first name, and on the last name exactly when there are two words. */
  lemma SplitRulesDiffer(login: string, name: string)
    requires |Split(name, ' ')| >= 2
    ensures var u := Create(login, name);
      var n := NormalizedUsers.Create(name, name);
      && u.firstName == n.firstName
      && (u.lastName == n.lastName <==> |Split(name, ' ')| == 2)
  {
    var words := Split(name, ' ');
    var n := NormalizedUsers.Create(name, name);
    var u := Create(login, name);
    var rest := words[1..];
    if |words| == 2 {
      assert rest == [words[1]];
    } else {
      // The joined tail contains a space while a single word does not.
      assert |rest| >= 2;
      assert n.lastName == rest[0] + " " + Join(rest[1..], " ");
      NormalizedUsers.JoinNonEmpty(rest[1..]);
      var tail := Join(rest[1..], " ");
      assert u.lastName == rest[|rest| - 1];
      assert NoSep(u.lastName, Char(' '));
      assert n.lastName[|rest[0]|] == ' ';
    }
  }

  /** getDisplayName: the login alone when there is no full name, otherwise
      "full name (login)": the full name can be read off as the prefix, and
      the login as what stands between the last " (" and the closing ")". */
  function DisplayName(u: UserInfo): (r: string)
    ensures u.fullName == "" ==> r == u.login
    ensures u.fullName != "" ==>
      && |r| == |u.fullName| + |u.login| + 3
      && r[..|u.fullName|] == u.fullName
      && r[|u.fullName|..|u.fullName| + 2] == " ("
      && r[|r| - 1 - |u.login|..|r| - 1] == u.login
      && r[|r| - 1] == ')'
  {
    if u.fullName == "" then u.login else u.fullName + " (" + u.login + ")"
  }

  /** The display name tells users apart: two users with the same login and
      a full name show the same display name only if the full names agree,
      and a user without a full name shows exactly the login. */
  lemma DisplayNameDistinguishes(u: UserInfo, v: UserInfo)
    requires u.login == v.login && u.fullName != "" && v.fullName != ""
    requires DisplayName(u) == DisplayName(v)
    ensures u.fullName == v.fullName
  {
    var a := DisplayName(u);
    var tail := " (" + u.login + ")";
    assert a == u.fullName + tail;
    assert DisplayName(v) == v.fullName + tail;
    assert |u.fullName| == |v.fullName|;
    assert u.fullName == a[..|a| - |tail|];
    assert v.fullName == a[..|a| - |tail|];
  }

  /** getRdpConnectionString: "login:password@host:port", the host being
      the server argument when given and the user's own server otherwise. */
  function RdpConnectionString(u: UserInfo, server: string, port: int): (r: string)
    ensures var host := if server == "" then u.serverName else server;
      && |r| == |u.login| + |u.password| + |host| + |IntToString(port)| + 3
      && r[..|u.login|] == u.login && r[|u.login|] == ':'
      && r[|r| - |IntToString(port)|..] == IntToString(port)
      && r[|r| - |IntToString(port)| - 1] == ':'
  {
    var host := if server == "" then u.serverName else server;
    (u.login + ":" + u.password) + "@" + (host + ":" + IntToString(port))
  }

  predicate Free(s: string, c: char) { NoSep(s, Char(c)) }

  lemma NumberHasNoSeparators(n: int, c: char)
    requires c == ':' || c == '@'
    ensures Free(IntToString(n), c)
  {
    var r := IntToString(n);
    if n < 0 {
      assert r == [r[0]] + r[1..];
      forall i | 0 <= i < |r| ensures r[i] != c {
        if i > 0 { assert r[i] == r[1..][i - 1]; }
      }
    }
  }

  lemma FreeJoin(a: string, d: char, b: string, c: char)
    requires Free(a, c) && Free(b, c) && d != c
    ensures Free(a + [d] + b, c)
  {
    var s := a + [d] + b;
    forall i | 0 <= i < |s| ensures s[i] != c {
      if i > |a| { assert s[i] == b[i - |a| - 1]; }
    }
  }

  lemma SplitTwo(a: string, c: char, b: string)
    requires Free(a, c) && Free(b, c)
    ensures SplitAll(a + [c] + b, c) == [a, b]
  {
    SplitAllCons(a, c, b);
    SplitAllSingle(b, c);
  }

  /** The connection string can be taken apart again: when login, password
      and host contain neither ':' nor '@', cutting at '@' and then at ':'
      gives back the four fields, the port in decimal. */
  lemma RdpConnectionStringParses(u: UserInfo, server: string, port: int)
    requires Free(u.login, ':') && Free(u.login, '@')
    requires Free(u.password, ':') && Free(u.password, '@')
    requires var host := if server == "" then u.serverName else server;
      Free(host, ':') && Free(host, '@')
    ensures var host := if server == "" then u.serverName else server;
      var halves := SplitAll(RdpConnectionString(u, server, port), '@');
      && halves == [u.login + ":" + u.password, host + ":" + IntToString(port)]
      && SplitAll(halves[0], ':') == [u.login, u.password]
      && SplitAll(halves[1], ':') == [host, IntToString(port)]
  {
    var host := if server == "" then u.serverName else server;
    var p := IntToString(port);
    NumberHasNoSeparators(port, ':');
    NumberHasNoSeparators(port, '@');
    var left := u.login + [':'] + u.password;
    var right := host + [':'] + p;
    FreeJoin(u.login, ':', u.password, '@');
    FreeJoin(host, ':', p, '@');
    assert RdpConnectionString(u, server, port) == left + ['@'] + right;
    SplitTwo(left, '@', right);
    SplitTwo(u.login, ':', u.password);
    SplitTwo(host, ':', p);
  }
}
