/**
  ServerTreeWidget, without the widget: the environment guessed from a
  server name and the three environment groups that setServers fills. A
  group is the sequence of server names shown under it, in insertion order.
 */
module ServerTree {
  import opened Text
  import ADManager

  /** getEnvironmentFromServer: "prod" when the lower-cased name contains
      "prod" or "prd", else "test" when it contains "test", "tst" or "stg",
      else "dev". */
  function EnvironmentOf(serverName: string): (env: string)
    ensures env in {"prod", "test", "dev"}
    ensures var lower := LowerStr(serverName);
      && (env == "prod" <==> Contains(lower, "prod") || Contains(lower, "prd"))
      && (env == "test" <==> (!Contains(lower, "prod") && !Contains(lower, "prd")
                             && (Contains(lower, "test") || Contains(lower, "tst") || Contains(lower, "stg"))))
  {
    var lower := LowerStr(serverName);
    if Contains(lower, "prod") || Contains(lower, "prd") then "prod"
    else if Contains(lower, "test") || Contains(lower, "tst") || Contains(lower, "stg") then "test"
    else "dev"
  }

  /** The tree and the directory disagree on names: "proddev" is production
      here and development there, and "stg1" is test here and production
      there. */
  lemma EnvironmentRulesDisagree()
    ensures EnvironmentOf("proddev") == "prod" && ADManager.EnvironmentOf("proddev") == "dev"
    ensures EnvironmentOf("stg1") == "test" && ADManager.EnvironmentOf("stg1") == "prod"
  {
    assert LowerStr("proddev") == "proddev";
    assert OccursAt("proddev", "prod", 0);
    assert OccursAt("proddev", "dev", 4);
    assert LowerStr("stg1") == "stg1";
    assert OccursAt("stg1", "stg", 0);
    MissingFirstChar("stg1", "prod");
    MissingFirstChar("stg1", "prd");
    MissingFirstChar("stg1", "dev");
    assert "stg1"[0..4][0] == 's';
    assert !Contains("stg1", "test");
  }

  // ---- the groups ------------------------------------------------------------

  datatype Groups = Groups(production: seq<string>, test: seq<string>, development: seq<string>)

  /** The group that shows servers of an environment: anything other than
      "prod" and "test" goes to development. */
  function GroupOf(g: Groups, env: string): seq<string> {
    if env == "prod" then g.production
    else if env == "test" then g.test
    else g.development
  }

  /** The servers of one environment, in input order. */
  function ServersIn(servers: seq<string>, env: string): (r: seq<string>)
    ensures |r| <= |servers|
    ensures forall i :: 0 <= i < |r| ==> r[i] in servers && EnvironmentOf(r[i]) == env
    ensures forall s :: s in servers && EnvironmentOf(s) == env ==> s in r
  {
    if |servers| == 0 then []
    else
      var rest := ServersIn(servers[1..], env);
      assert forall s :: s in servers ==> s == servers[0] || s in servers[1..];
      (if EnvironmentOf(servers[0]) == env then [servers[0]] else []) + rest
  }

  /** The servers of a concatenated list: those of the first part, then
      those of the second, so input order is kept. */
  lemma {:induction false} ServersInConcat(a: seq<string>, b: seq<string>, env: string)
    ensures ServersIn(a + b, env) == ServersIn(a, env) + ServersIn(b, env)
  {
    if |a| == 0 {
      assert a + b == b;
    } else {
      assert (a + b)[0] == a[0];
      assert (a + b)[1..] == a[1..] + b;
      ServersInConcat(a[1..], b, env);
    }
  }

  // ---- clearing a group ------------------------------------------------------

  /** The clear loop as written: child i is removed and then i advances, so
      the child that moved into position i is skipped. */
  function ClearFrom(children: seq<string>, i: nat): (r: seq<string>)
    decreases |children| - i
  {
    if i < |children| then ClearFrom(children[..i] + children[i + 1..], i + 1)
    else children
  }

  function ClearAsWritten(children: seq<string>): seq<string> {
    ClearFrom(children, 0)
  }

  /** The children at odd positions. */
  function OddPositions(s: seq<string>): (r: seq<string>)
    ensures |r| == |s| / 2
    ensures forall i :: 0 <= i < |r| ==> r[i] == s[2 * i + 1]
  {
    if |s| < 2 then [] else [s[1]] + OddPositions(s[2..])
  }

  lemma {:induction false} ClearFromKeepsOdd(kept: seq<string>, rest: seq<string>)
    ensures ClearFrom(kept + rest, |kept|) == kept + OddPositions(rest)
    decreases |rest|
  {
    var cs := kept + rest;
    if |rest| == 0 {
      assert cs == kept;
    } else if |rest| == 1 {
      assert cs[..|kept|] + cs[|kept| + 1..] == kept;
    } else {
      assert cs[..|kept|] + cs[|kept| + 1..] == (kept + [rest[1]]) + rest[2..];
      ClearFromKeepsOdd(kept + [rest[1]], rest[2..]);
      assert kept + [rest[1]] + OddPositions(rest[2..]) == kept + OddPositions(rest);
    }
  }

  /** The loop removes only the children at even positions: of n children,
      n / 2 survive, namely those at odd positions. */
  lemma ClearAsWrittenKeepsOdd(children: seq<string>)
    ensures ClearAsWritten(children) == OddPositions(children)
    ensures |ClearAsWritten(children)| == |children| / 2
  {
    ClearFromKeepsOdd([], children);
    assert [] + children == children;
  }

  /** Two stale servers: the second one is still listed after the clear. */
  lemma ClearAsWrittenCounterexample()
    ensures ClearAsWritten(["SERVER01", "SERVER02"]) == ["SERVER02"]
  {
    ClearAsWrittenKeepsOdd(["SERVER01", "SERVER02"]);
  }

  /** The clear as intended: children removed from the last position down,
      so no index moves before it is visited. From position i down, exactly
      the children before i go. */
  function ClearDown(children: seq<string>, i: nat): (r: seq<string>)
    requires i <= |children|
    ensures r == children[i..]
  {
    if i == 0 then children
    else ClearDown(children[..i - 1] + children[i..], i - 1)
  }

  /** Nothing is left after the corrected clear. */
  function Clear(children: seq<string>): (r: seq<string>)
    ensures r == []
  {
    ClearDown(children, |children|)
  }

  /** setServers as written: each group keeps what the faulty clear leaves,
      its children at odd positions, and then receives the new servers of its
      environment. */
  function SetServersAsWritten(g: Groups, servers: seq<string>): (r: Groups)
    ensures forall env ::
      (GroupOf(r, env) == OddPositions(GroupOf(g, env)) + ServersIn(servers, GroupEnvironment(env)))
    ensures |r.production| == |g.production| / 2 + |ServersIn(servers, "prod")|
  {
    ClearAsWrittenKeepsOdd(g.production);
    ClearAsWrittenKeepsOdd(g.test);
    ClearAsWrittenKeepsOdd(g.development);
    Groups(
      ClearAsWritten(g.production) + ServersIn(servers, "prod"),
      ClearAsWritten(g.test) + ServersIn(servers, "test"),
      ClearAsWritten(g.development) + ServersIn(servers, "dev"))
  }

  /** A stale server survives a reload with an empty list. */
  lemma StaleServerSurvives()
    ensures SetServersAsWritten(Groups(["SERVER01", "SERVER02"], [], []), []).production == ["SERVER02"]
  {
    ClearAsWrittenCounterexample();
  }

  /** setServers with the clear corrected: the groups hold exactly the given
      servers, each under the group of its environment, in input order. */
  function SetServers(g: Groups, servers: seq<string>): (r: Groups)
    ensures forall env :: GroupOf(r, env) == ServersIn(servers, GroupEnvironment(env))
  {
    Groups(
      Clear(g.production) + ServersIn(servers, "prod"),
      Clear(g.test) + ServersIn(servers, "test"),
      Clear(g.development) + ServersIn(servers, "dev"))
  }

  /** The environment a group name stands for. */
  function GroupEnvironment(env: string): string {
    if env == "prod" || env == "test" then env else "dev"
  }

  /** Every server lands in exactly one group: the one of its environment.
      The group sizes add up to the number of servers. */
  lemma {:induction false} SetServersPartitions(g: Groups, servers: seq<string>)
    ensures var r := SetServers(g, servers);
      && |r.production| + |r.test| + |r.development| == |servers|
      && forall s :: s in servers ==> s in GroupOf(r, EnvironmentOf(s))
    decreases |servers|
  {
    if |servers| > 0 {
      SetServersPartitions(g, servers[1..]);
    }
  }

  /** No server is listed under a group other than its environment's. */
  lemma SetServersSeparates(g: Groups, servers: seq<string>, s: string)
    ensures var r := SetServers(g, servers);
      && (s in r.production ==> EnvironmentOf(s) == "prod")
      && (s in r.test ==> EnvironmentOf(s) == "test")
      && (s in r.development ==> EnvironmentOf(s) == "dev")
  {
  }

  /** Reloading replaces: the result does not depend on what was shown
      before, unlike the version as written. */
  lemma SetServersForgetsOld(g: Groups, h: Groups, servers: seq<string>)
    ensures SetServers(g, servers) == SetServers(h, servers)
  {
  }
}
