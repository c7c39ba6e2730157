/**
  ServerInfo: a remote-desktop server with its directory location, the
  distinguished names of the users allowed on it, and free-form metadata;
  with a JSON form used for storage.
 */
module ServerInfos {
  import opened JsonValue

  const DefaultRdpPort := 3389
  const DefaultEnvironment := "dev"

  datatype ServerInfo = ServerInfo(
    name: string,
    distinguishedName: string,
    rdpAddress: string,
    rdpPort: int,
    environment: string,
    userList: seq<string>,
    metadata: Object)

  /** The default constructor: port 3389, environment "dev", nothing else. */
  function Default(): (s: ServerInfo)
    ensures s.rdpPort == 3389 && s.environment == "dev"
    ensures s.name == s.distinguishedName == s.rdpAddress == ""
    ensures s.userList == [] && s.metadata == map[]
  {
    ServerInfo("", "", "", DefaultRdpPort, DefaultEnvironment, [], map[])
  }

  /** The (name, distinguishedName) constructor. */
  function Create(name: string, dn: string): (s: ServerInfo)
    ensures s.rdpPort == 3389 && s.environment == "dev"
    ensures s.name == name && s.distinguishedName == dn
    ensures s == Default().(name := name, distinguishedName := dn)
  {
    ServerInfo(name, dn, "", DefaultRdpPort, DefaultEnvironment, [], map[])
  }

  predicate NoDuplicates(xs: seq<string>) {
    forall i, j :: 0 <= i < j < |xs| ==> xs[i] != xs[j]
  }

  /** addUser: appends the name unless it is already listed. The list keeps
      its order, gains the name, never gains a duplicate, and nothing but the
      list changes. */
  function AddUser(s: ServerInfo, dn: string): (r: ServerInfo)
    ensures r == s.(userList := r.userList)
    ensures dn in r.userList
    ensures |s.userList| <= |r.userList| <= |s.userList| + 1
    ensures r.userList[..|s.userList|] == s.userList
    ensures forall x :: x in r.userList ==> x in s.userList || x == dn
    ensures NoDuplicates(s.userList) ==> NoDuplicates(r.userList)
  {
    if dn in s.userList then s
    else
      var r := s.(userList := s.userList + [dn]);
      assert r.userList[..|s.userList|] == s.userList;
      r
  }

  lemma AddUserIdempotent(s: ServerInfo, dn: string)
    ensures AddUser(AddUser(s, dn), dn) == AddUser(s, dn)
    ensures dn in s.userList ==> AddUser(s, dn) == s
  {
  }

  /** The list with the first occurrence of `x` removed. */
  function RemoveOne(xs: seq<string>, x: string): (r: seq<string>)
    ensures x !in xs ==> r == xs
    ensures x in xs ==> |r| == |xs| - 1
  {
    if |xs| == 0 then []
    else if xs[0] == x then xs[1..]
    else
      assert x in xs ==> x in xs[1..];
      [xs[0]] + RemoveOne(xs[1..], x)
  }

  /** The position of the first occurrence of `x`. */
  function FirstIndexOf(xs: seq<string>, x: string): (i: nat)
    requires x in xs
    ensures i < |xs| && xs[i] == x && x !in xs[..i]
  {
    if xs[0] == x then 0
    else
      assert x in xs[1..];
      var j := FirstIndexOf(xs[1..], x);
      assert xs[..j + 1] == [xs[0]] + xs[1..][..j];
      j + 1
  }

  /** Exactly the first occurrence goes: the list is cut around the first
      position that holds `x`. */
  lemma {:induction false} RemoveOneRemovesFirst(xs: seq<string>, x: string)
    requires x in xs
    ensures var i := FirstIndexOf(xs, x); RemoveOne(xs, x) == xs[..i] + xs[i + 1..]
  {
    if xs[0] != x {
      var ys := xs[1..];
      assert x in ys;
      RemoveOneRemovesFirst(ys, x);
      var j := FirstIndexOf(ys, x);
      assert FirstIndexOf(xs, x) == j + 1;
      assert RemoveOne(xs, x) == [xs[0]] + RemoveOne(ys, x);
      assert xs[..j + 1] == [xs[0]] + ys[..j];
      assert xs[j + 2..] == ys[j + 1..];
      assert [xs[0]] + (ys[..j] + ys[j + 1..]) == xs[..j + 1] + xs[j + 2..];
    }
  }

  /** removeUser: reports whether the name was listed; if not, nothing
      changes, and if so, its first occurrence is cut out of the list and
      every other field is kept. */
  function RemoveUser(s: ServerInfo, dn: string): (r: (bool, ServerInfo))
    ensures r.0 <==> dn in s.userList
    ensures !r.0 ==> r.1 == s
    ensures r.0 ==> exists i :: 0 <= i < |s.userList| && s.userList[i] == dn && dn !in s.userList[..i]
                                && r.1.userList == s.userList[..i] + s.userList[i + 1..]
    ensures r.1.(userList := s.userList) == s
  {
    var r := (dn in s.userList, s.(userList := RemoveOne(s.userList, dn)));
    if dn in s.userList then
      RemoveOneRemovesFirst(s.userList, dn);
      var i := FirstIndexOf(s.userList, dn);
      assert r.1.userList == s.userList[..i] + s.userList[i + 1..];
      r
    else
      r
  }

  lemma RemoveUserNoDuplicates(s: ServerInfo, dn: string)
    requires NoDuplicates(s.userList)
    ensures var r := RemoveUser(s, dn).1;
      && dn !in r.userList
      && forall x :: x != dn ==> (x in r.userList <==> x in s.userList)
  {
    RemoveOneNoDuplicates(s.userList, dn);
    RemoveOneKeepsOthers(s.userList, dn);
  }

  lemma {:induction false} RemoveOneNoDuplicates(xs: seq<string>, x: string)
    requires NoDuplicates(xs)
    ensures x !in RemoveOne(xs, x)
  {
    if |xs| > 0 {
      if xs[0] == x {
        forall k | 1 <= k < |xs| ensures xs[k] != x {
          assert xs[0] != xs[k];
        }
        assert x !in xs[1..];
      } else {
        RemoveOneNoDuplicates(xs[1..], x);
      }
    }
  }

  lemma {:induction false} RemoveOneKeepsOthers(xs: seq<string>, x: string)
    ensures forall y :: y != x ==> (y in RemoveOne(xs, x) <==> y in xs)
  {
    if |xs| > 0 {
      RemoveOneKeepsOthers(xs[1..], x);
      assert xs == [xs[0]] + xs[1..];
    }
  }

  /** Adding a name that was not listed and removing it again restores the
      server, and the removal reports success. */
  lemma AddThenRemove(s: ServerInfo, dn: string)
    requires dn !in s.userList
    ensures RemoveUser(AddUser(s, dn), dn) == (true, s)
  {
    RemoveOneLast(s.userList, dn);
  }

  lemma {:induction false} RemoveOneLast(xs: seq<string>, x: string)
    requires x !in xs
    ensures RemoveOne(xs + [x], x) == xs
  {
    if |xs| > 0 {
      assert (xs + [x])[1..] == xs[1..] + [x];
      RemoveOneLast(xs[1..], x);
      assert xs == [xs[0]] + xs[1..];
    }
  }

  /** Each element read as a string, "" for anything else. */
  function ArrayStrings(items: seq<Json>): (r: seq<string>)
    ensures |r| == |items|
    ensures forall i :: 0 <= i < |items| ==> r[i] == ToStringOr(items[i], "")
  {
    seq(|items|, i requires 0 <= i < |items| => ToStringOr(items[i], ""))
  }

  /** toJson */
  function ToJson(s: ServerInfo): (j: Object)
    ensures j.Keys == {"name", "distinguishedName", "rdpAddress", "rdpPort", "environment", "userList", "metadata"}
  {
    map[
      "name" := JStr(s.name),
      "distinguishedName" := JStr(s.distinguishedName),
      "rdpAddress" := JStr(s.rdpAddress),
      "rdpPort" := JInt(s.rdpPort),
      "environment" := JStr(s.environment),
      "userList" := JArr(StringArray(s.userList)),
      "metadata" := JObj(s.metadata)]
  }

  /** fromJson: missing or mistyped fields fall back to "", port 3389 and
      environment "dev"; list entries that are not strings become "". */
  function FromJson(j: Object): (s: ServerInfo)
    ensures |s.userList| == |ToArray(Lookup(j, "userList"))|
    ensures s.rdpPort == if "rdpPort" in j && j["rdpPort"].JInt? then j["rdpPort"].num else 3389
  {
    var metadata := if "metadata" in j then ToObject(j["metadata"]) else map[];
    ServerInfo(
      ToStringOr(Lookup(j, "name"), ""),
      ToStringOr(Lookup(j, "distinguishedName"), ""),
      ToStringOr(Lookup(j, "rdpAddress"), ""),
      ToIntOr(Lookup(j, "rdpPort"), DefaultRdpPort),
      ToStringOr(Lookup(j, "environment"), DefaultEnvironment),
      ArrayStrings(ToArray(Lookup(j, "userList"))),
      metadata)
  }

  /** Round trip: reading back the JSON form gives the same server, field by
      field. */
  lemma FromToJson(s: ServerInfo)
    ensures FromJson(ToJson(s)) == s
  {
    var j := ToJson(s);
    assert ArrayStrings(StringArray(s.userList)) == s.userList;
  }

  /** An empty object reads as the default server, and a list entry that is
      not a string reads as the empty string without shifting the others. */
  lemma FromJsonDefaults(j: Object, x: Json, rest: seq<string>)
    requires !x.JStr?
    ensures FromJson(map[]) == Default()
    ensures FromJson(j["userList" := JArr([x] + StringArray(rest))]).userList == [""] + rest
  {
    var a := FromJson(j["userList" := JArr([x] + StringArray(rest))]).userList;
    assert a == [""] + rest;
  }
}
