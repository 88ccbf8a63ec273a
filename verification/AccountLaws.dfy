/** The prefixes of an import path, spelled out (internal/frontend/section.go,
    `nextPrefixAccount`). */
module AccountLaws {
  import opened Paths
  import opened AccountPrefix

  /** Hosts whose second element is the account. */
  predicate SecondIsAccount(host: string) {
    || host == "github.com" || host == "gitlab.com" || host == "bitbucket.org" || host == "golang.org"
    || host == "gitea.com" || host == "gitee.com" || host == "git.sr.ht" || host == "hg.sr.ht"
    || host == "launchpad.net" || host == "gopkg.in"
  }

  lemma IndexIs(host: string)
    ensures AccountIndex(host) == if SecondIsAccount(host) then 1 else if host == "hub.jazz.net" then 2 else 0
    ensures host == "hub.jazz.net" ==> !SecondIsAccount(host)
  {
  }

  lemma Split2(a: string, r: string)
    requires NoSlash(a)
    ensures SplitPath(a + "/" + r) == [a] + SplitPath(r) && |SplitPath(r)| >= 1
  {
    hide NoSlash, Host;
    SplitStep(a, r);
  }

  lemma Split3(a: string, b: string, r: string)
    requires NoSlash(a) && NoSlash(b)
    ensures SplitPath(a + "/" + b + "/" + r) == [a, b] + SplitPath(r) && |SplitPath(r)| >= 1
  {
    hide *;
    Regroup(a, b, r);
    Split2(a, b + "/" + r);
    Split2(b, r);
    Reassociate([a], [b], SplitPath(r));
    assert [a] + [b] == [a, b];
  }

  lemma Split4(a: string, b: string, c: string, r: string)
    requires NoSlash(a) && NoSlash(b) && NoSlash(c)
    ensures SplitPath(a + "/" + b + "/" + c + "/" + r) == [a, b, c] + SplitPath(r) && |SplitPath(r)| >= 1
  {
    hide *;
    Regroup(a + "/" + b, c, r);
    Split3(a, b, c + "/" + r);
    Split2(c, r);
    Reassociate([a, b], [c], SplitPath(r));
    assert [a, b] + [c] == [a, b, c];
  }

  lemma Join2(a: string, b: string)
    ensures JoinPath([a, b]) == a + "/" + b
  {
    assert [a, b][1..] == [b];
  }

  lemma Join3(a: string, b: string, c: string)
    ensures JoinPath([a, b, c]) == a + "/" + b + "/" + c
  {
    hide JoinPath;
    assert [a, b] + [c] == [a, b, c];
    JoinConcat([a, b], [c]);
    Join2(a, b);
    JoinOne(c);
  }

  /** The first prefix ends after the account: the second element on the usual hosts, the third on
      hub.jazz.net, and the host itself elsewhere. */
  lemma FirstPrefixIs(host: string, a: string, b: string, rest: string)
    requires NoSlash(host) && NoSlash(a) && NoSlash(b)
    ensures SecondIsAccount(host) ==> FirstPrefix(host + "/" + a + "/" + rest) == host + "/" + a + "/"
    ensures host == "hub.jazz.net" ==>
      FirstPrefix(host + "/" + a + "/" + b + "/" + rest) == host + "/" + a + "/" + b + "/"
    ensures !SecondIsAccount(host) && host != "hub.jazz.net" ==> FirstPrefix(host + "/" + rest) == host + "/"
  {
    hide NoSlash, SplitPath, JoinPath, AccountIndex, SecondIsAccount;
    IndexIs(host);
    Split2(host, rest);
    Split3(host, a, rest);
    Split4(host, a, b, rest);
    JoinOne(host);
    Join2(host, a);
    Join3(host, a, b);
    var r := SplitPath(rest);
    assert ([host] + r)[..1] == [host] && ([host, a] + r)[..2] == [host, a] && ([host, a, b] + r)[..3] == [host, a, b];
  }

  lemma JustHost(host: string)
    requires NoSlash(host)
    ensures SplitPath(host) == [host]
  {
    assert |Host(host)| == |host|;
  }

  /** Without anything after the account the path is its own first prefix. */
  lemma FirstPrefixOfAccount(host: string, a: string)
    requires NoSlash(host) && NoSlash(a) && SecondIsAccount(host)
    ensures FirstPrefix(host + "/" + a) == host + "/" + a && FirstPrefix(host) == host
  {
    hide NoSlash, SplitPath, JoinPath, AccountIndex, SecondIsAccount;
    IndexIs(host);
    Split2(host, a);
    JustHost(a);
    JustHost(host);
    assert [host] + [a] == [host, a];
    Join2(host, a);
    JoinOne(host);
  }

  /** The second prefix is one element longer, and there is no third. */
  lemma SecondPrefixIs(host: string, a: string, repo: string, rest: string)
    requires NoSlash(host) && NoSlash(a) && NoSlash(repo) && SecondIsAccount(host) && repo != ""
    ensures NextPrefixAccount(host + "/" + a + "/" + repo + "/" + rest, host + "/" + a + "/")
      == host + "/" + a + "/" + repo + "/"
    ensures NextPrefixAccount(host + "/" + a + "/" + repo, host + "/" + a + "/") == host + "/" + a + "/" + repo
    ensures NextPrefixAccount(host + "/" + a + "/" + repo + "/" + rest, host + "/" + a + "/" + repo + "/") == ""
    ensures NextPrefixAccount(host + "/" + a + "/" + repo + "/" + rest, "") == host + "/" + a + "/"
  {
    hide NoSlash, SplitPath, JoinPath, AccountIndex, SecondIsAccount, NextPrefixAccount;
    var first, long, short := host + "/" + a + "/", host + "/" + a + "/" + repo + "/" + rest,
      host + "/" + a + "/" + repo;
    var r := SplitPath(rest);
    IndexIs(host);
    Split4(host, a, repo, rest);
    Split3(host, a, repo);
    JustHost(repo);
    assert [host, a] + [repo] == [host, a, repo];
    Join2(host, a);
    Join3(host, a, repo);
    assert ([host, a, repo] + r)[..2] == [host, a] && ([host, a, repo] + r)[..3] == [host, a, repo];
    assert [host, a, repo][..2] == [host, a] && [host, a, repo][..3] == [host, a, repo];
    NextIs(long, [host, a, repo] + r, first, short);
    NextIs(short, [host, a, repo], first, short);
    assert |first| < |short| < |long|;
    NextLater(long, first, short + "/");
  }

  lemma NextIs(path: string, parts: seq<string>, first: string, second: string)
    requires parts == SplitPath(path) && |parts| > 2 && AccountIndex(parts[0]) == 1
    requires first == JoinPath(parts[..2]) + "/" && second == JoinPath(parts[..3]) && |first| < |path|
    ensures first != "" && AccountOf(parts).prefix == first
    ensures NextPrefixAccount(path, first) == if second == path then second else second + "/"
    ensures NextPrefixAccount(path, "") == first
  {
    hide SplitPath, JoinPath, AccountIndex;
  }

  lemma NextLater(path: string, first: string, pre: string)
    requires AccountOf(SplitPath(path)).prefix == first && pre != "" && pre != first
    ensures NextPrefixAccount(path, pre) == ""
  {
    hide SplitPath, AccountOf;
  }
}
