/** Matching source VCS connections to Terrapod's (migrate/cmd/terrapod-migrate/apply.go). */
module VcsMatch {
  import opened Folding
  import opened Text

  // ── Hosts and URLs ──────────────────────────────────────────────────────────

  const SCHEMES := ["https://", "http://", "ssh://", "git@"]

  function StripScheme(url: string, prefix: string): string {
    if |url| > |prefix| && HasPrefix(url, prefix) then url[|prefix|..] else url
  }

  /** One pass over the schemes: each is removed if what is left so far starts with it. */
  function StripSchemes(url: string, schemes: seq<string>): string {
    if schemes == [] then url else StripSchemes(StripScheme(url, schemes[0]), schemes[1..])
  }

  predicate EndsHost(c: char) {
    c == '/' || c == ':'
  }

  function UpToDelimiter(s: string): (h: string)
    ensures h <= s && (forall i :: 0 <= i < |h| ==> !EndsHost(h[i])) && (|h| < |s| ==> EndsHost(s[|h|]))
  {
    if s == "" || EndsHost(s[0]) then "" else [s[0]] + UpToDelimiter(s[1..])
  }

  /** `hostFromRepoURL`. */
  function Host(url: string): string {
    UpToDelimiter(StripSchemes(url, SCHEMES))
  }

  method HostFromRepoURL(repoURL: string) returns (host: string)
    ensures host == Host(repoURL)
    ensures forall i :: 0 <= i < |host| ==> host[i] != '/' && host[i] != ':'
  {
    var url := repoURL;
    var k := 0;
    while k < |SCHEMES|
      invariant 0 <= k <= |SCHEMES| && StripSchemes(repoURL, SCHEMES) == StripSchemes(url, SCHEMES[k..])
    {
      assert SCHEMES[k..][1..] == SCHEMES[k + 1..];
      if |url| > |SCHEMES[k]| && url[..|SCHEMES[k]|] == SCHEMES[k] {
        url := url[|SCHEMES[k]|..];
      }
      k := k + 1;
    }
    var i := 0;
    while i < |url|
      invariant 0 <= i <= |url| && forall j :: 0 <= j < i ==> !EndsHost(url[j])
    {
      if url[i] == '/' || url[i] == ':' {
        DelimitedPrefix(url, i);
        return url[..i];
      }
      i := i + 1;
    }
    DelimitedPrefix(url, i);
    assert url[..i] == url;
    return url;
  }

  /** What ends at the first delimiter is the host. */
  lemma DelimitedPrefix(s: string, n: nat)
    requires n <= |s| && (forall j :: 0 <= j < n ==> !EndsHost(s[j])) && (n < |s| ==> EndsHost(s[n]))
    ensures UpToDelimiter(s) == s[..n]
  {
    var h := UpToDelimiter(s);
    assert h == s[..|h|];
  }

  predicate IsHost(h: string) {
    h != "" && forall i :: 0 <= i < |h| ==> !EndsHost(h[i])
  }

  /** "git@" followed by something: what the last scheme of the list would still take off a bare host. */
  predicate LooksLikeGitUser(h: string) {
    |h| > 4 && HasPrefix(h, "git@")
  }

  lemma NoSchemeInHost(h: string, prefix: string)
    requires IsHost(h) && exists i :: 0 <= i < |prefix| && EndsHost(prefix[i])
    ensures StripScheme(h, prefix) == h
  {
  }

  lemma NotPrefix(s: string, p: string, i: nat)
    requires i < |p| && i < |s| && s[i] != p[i]
    ensures !HasPrefix(s, p)
  {
    if |p| <= |s| { assert s[..|p|][i] != p[i]; }
  }

  lemma StripHttps(h: string)
    requires IsHost(h)
    ensures StripSchemes("https://" + h, SCHEMES) == StripScheme(h, "git@")
  {
    var url := "https://" + h;
    assert url[..|"https://"|] == "https://" && url[|"https://"|..] == h;
    assert StripScheme(url, "https://") == h;
    assert EndsHost("http://"[4]) && EndsHost("ssh://"[3]);
    NoSchemeInHost(h, "http://");
    NoSchemeInHost(h, "ssh://");
    StripOne(url, "https://", ["http://", "ssh://", "git@"]);
    StripOne(h, "http://", ["ssh://", "git@"]);
    StripOne(h, "ssh://", ["git@"]);
    StripOne(h, "git@", []);
  }

  lemma StripOne(url: string, first: string, rest: seq<string>)
    ensures StripSchemes(url, [first] + rest) == StripSchemes(StripScheme(url, first), rest)
  {
  }

  lemma WholeIsHost(h: string)
    requires forall i :: 0 <= i < |h| ==> !EndsHost(h[i])
    ensures UpToDelimiter(h) == h
  {
    DelimitedPrefix(h, |h|);
    assert h[..|h|] == h;
  }

  /** Every host that `Host` can return, "" aside, is its own host under "https://", unless it looks like a git user. */
  lemma HostIsFixed(url: string)
    requires Host(url) != ""
    ensures IsHost(Host(url))
    ensures Host("https://" + Host(url)) == Host(url) <==> !LooksLikeGitUser(Host(url))
  {
    HostOfHttps(Host(url));
  }

  lemma HostOfHttps(h: string)
    requires IsHost(h)
    ensures Host("https://" + h) == if LooksLikeGitUser(h) then h[4..] else h
  {
    StripHttps(h);
    WholeIsHost(h);
    if LooksLikeGitUser(h) { WholeIsHost(h[4..]); }
  }

  function TrimPrefix(s: string, p: string): string {
    if HasPrefix(s, p) then s[|p|..] else s
  }

  /** `canonicaliseGitHost`. */
  function GitHost(serverURL: string): string {
    Lower(TrimPrefix(Host(serverURL), "api."))
  }

  /** The "api." in front of a host does not count, and letter case does not. */
  lemma GitHostExactly(serverURL: string)
    ensures var h := Host(serverURL);
            (exists rest: string :: h == "api." + rest && GitHost(serverURL) == Lower(rest))
            || ((forall rest: string :: h != "api." + rest) && GitHost(serverURL) == Lower(h))
  {
    var h := Host(serverURL);
    if HasPrefix(h, "api.") {
      assert h == "api." + h[4..];
    } else {
      forall rest: string ensures h != "api." + rest { assert ("api." + rest)[..4] == "api."; }
    }
  }

  /** `canonicaliseURL`. */
  function CanonicalURL(u: string): string {
    var t := Lower(Trim(IsGoSpace, u));
    if t != "" && t[|t| - 1] == '/' then t[..|t| - 1] else t
  }

  /** What counts of a URL is what is left without blanks around it and one slash at its end, letter case aside. */
  lemma CanonicalExactly(u: string)
    ensures var t := Trim(IsGoSpace, u);
            (exists v: string :: t == v + "/" && CanonicalURL(u) == Lower(v))
            || ((forall v: string :: t != v + "/") && CanonicalURL(u) == Lower(t))
  {
    var t := Trim(IsGoSpace, u);
    if t != "" && t[|t| - 1] == '/' {
      var v := t[..|t| - 1];
      assert t == v + "/" && Lower(t)[..|t| - 1] == Lower(v);
    } else {
      assert t != "" ==> Lower(t)[|t| - 1] != '/';
      forall v: string ensures t != v + "/" { assert (v + "/")[|v|] == '/'; }
    }
  }

  // ── URLs of any scheme ──────────────────────────────────────────────────────

  const LISTED := {"https", "http", "ssh"}

  predicate IsScheme(sc: string) {
    sc != "" && forall i :: 0 <= i < |sc| ==> !EndsHost(sc[i]) && sc[i] != '@'
  }

  /** A port, a path, or both. */
  predicate IsTail(t: string) {
    t != "" ==> EndsHost(t[0]) && (t[0] == ':' && |t| > 1 ==> t[1] != '/')
  }

  function URL(sc: string, h: string, tail: string): string {
    sc + "://" + (h + tail)
  }

  lemma SchemeIsStripped(sc: string, p: string, rest: string)
    requires IsScheme(sc) && IsScheme(p) && rest != ""
    ensures StripScheme(sc + "://" + rest, p + "://") == if sc == p then rest else sc + "://" + rest
  {
    var url, prefix := sc + "://" + rest, p + "://";
    if sc == p {
      assert url[..|prefix|] == prefix && url[|prefix|..] == rest;
    } else if |sc| < |p| {
      assert url[|sc|] == ':' && prefix[|sc|] == p[|sc|];
      NotPrefix(url, prefix, |sc|);
    } else if |p| < |sc| {
      assert url[|p|] == sc[|p|] && prefix[|p|] == ':';
      NotPrefix(url, prefix, |p|);
    } else {
      var i :| 0 <= i < |sc| && sc[i] != p[i];
      NotPrefix(url, prefix, i);
    }
  }

  lemma NoSchemeLeft(h: string, tail: string, p: string)
    requires IsHost(h) && IsTail(tail) && IsScheme(p)
    ensures StripScheme(h + tail, p + "://") == h + tail
  {
    var rest, prefix := h + tail, p + "://";
    assert prefix[|p|] == ':' && prefix[|p| + 1] == '/';
    if |h| < |p| {
      if tail != "" {
        assert rest[|h|] == tail[0] && prefix[|h|] == p[|h|];
        NotPrefix(rest, prefix, |h|);
      }
    } else if |p| < |h| {
      assert rest[|p|] == h[|p|];
      NotPrefix(rest, prefix, |p|);
    } else if |tail| > 1 {
      assert rest[|p|] == tail[0] && rest[|p| + 1] == tail[1];
      NotPrefix(rest, prefix, if tail[0] == ':' then |p| + 1 else |p|);
    }
  }

  lemma NoGitUser(s: string, n: nat)
    requires n <= |s| && (n < |s| ==> EndsHost(s[n])) && (forall i :: 0 <= i < n ==> !EndsHost(s[i]))
    requires !HasPrefix(s[..n], "git@")
    ensures StripScheme(s, "git@") == s
  {
    if n >= 4 {
      assert s[..n][..4] == s[..4];
    } else if n < |s| {
      NotPrefix(s, "git@", n);
    }
  }

  lemma UnlistedStays(sc: string, rest: string)
    requires IsScheme(sc) && sc !in LISTED && rest != ""
    ensures StripSchemes(sc + "://" + rest, SCHEMES) == sc + "://" + rest
  {
    var url := sc + "://" + rest;
    EachScheme(sc, rest);
    assert url[|sc|] == ':' && url[..|sc|] == sc;
    if |sc| >= 4 { NotPrefix(sc, "git@", 3); }
    NoGitUser(url, |sc|);
    FourStrips(url);
  }

  lemma FourStrips(url: string)
    ensures StripSchemes(url, SCHEMES)
            == StripScheme(StripScheme(StripScheme(StripScheme(url, "https://"), "http://"), "ssh://"), "git@")
  {
    StripOne(url, "https://", ["http://", "ssh://", "git@"]);
    var u1 := StripScheme(url, "https://");
    StripOne(u1, "http://", ["ssh://", "git@"]);
    var u2 := StripScheme(u1, "http://");
    StripOne(u2, "ssh://", ["git@"]);
    StripOne(StripScheme(u2, "ssh://"), "git@", []);
  }

  lemma EachScheme(sc: string, rest: string)
    requires IsScheme(sc) && rest != ""
    ensures var url := sc + "://" + rest;
            && StripScheme(url, "https://") == (if sc == "https" then rest else url)
            && StripScheme(url, "http://") == (if sc == "http" then rest else url)
            && StripScheme(url, "ssh://") == (if sc == "ssh" then rest else url)
  {
    SchemeIsStripped(sc, "https", rest);
    SchemeIsStripped(sc, "http", rest);
    SchemeIsStripped(sc, "ssh", rest);
    assert "https" + "://" == "https://" && "http" + "://" == "http://" && "ssh" + "://" == "ssh://";
  }

  lemma NoneListed(h: string, tail: string)
    requires IsHost(h) && IsTail(tail) && !HasPrefix(h, "git@")
    ensures var rest := h + tail;
            StripScheme(rest, "http://") == StripScheme(rest, "ssh://") == StripScheme(rest, "git@") == rest
  {
    NoSchemeLeft(h, tail, "http");
    NoSchemeLeft(h, tail, "ssh");
    assert "http" + "://" == "http://" && "ssh" + "://" == "ssh://";
    assert (h + tail)[..|h|] == h;
    NoGitUser(h + tail, |h|);
  }

  lemma ListedIsStripped(sc: string, h: string, tail: string)
    requires sc in LISTED && IsHost(h) && IsTail(tail) && !HasPrefix(h, "git@")
    ensures StripSchemes(URL(sc, h, tail), SCHEMES) == h + tail
  {
    EachScheme(sc, h + tail);
    NoneListed(h, tail);
    FourStrips(URL(sc, h, tail));
  }

  /** What precedes a host: nothing, or the user of an SSH remote, which the list takes off last. */
  const USERS := {"", "git@"}

  predicate IsAuthority(user: string, h: string) {
    user in USERS && IsHost(h) && (user == "" ==> !HasPrefix(h, "git@"))
  }

  lemma GitUserStays(rest: string, p: string)
    requires |p| >= 4 && p[0] != 'g'
    ensures StripScheme("git@" + rest, p) == "git@" + rest
  {
    assert ("git@" + rest)[0] == 'g';
    NotPrefix("git@" + rest, p, 0);
  }

  /** "git@host" with a port or a path, as SSH remotes are written: the host comes out, whatever it is. */
  lemma HostOfRemote(h: string, tail: string)
    requires IsHost(h) && IsTail(tail)
    ensures Host("git@" + (h + tail)) == h
  {
    var url := "git@" + (h + tail);
    GitUserStays(h + tail, "https://");
    GitUserStays(h + tail, "http://");
    GitUserStays(h + tail, "ssh://");
    FourStrips(url);
    assert url[..4] == "git@" && url[4..] == h + tail;
    assert (h + tail)[..|h|] == h;
    DelimitedPrefix(h + tail, |h|);
  }

  lemma HostOfListed(sc: string, h: string, tail: string)
    requires sc in LISTED && IsHost(h) && IsTail(tail)
    ensures Host(URL(sc, "git@" + h, tail)) == h
  {
    var rest := "git@" + (h + tail);
    assert "git@" + h + tail == rest;
    EachScheme(sc, rest);
    GitUserStays(h + tail, "https://");
    GitUserStays(h + tail, "http://");
    GitUserStays(h + tail, "ssh://");
    FourStrips(sc + "://" + rest);
    FourStrips(rest);
    HostOfRemote(h, tail);
  }

  lemma HostOfUnlisted(sc: string, rest: string)
    requires IsScheme(sc) && sc !in LISTED && rest != ""
    ensures Host(sc + "://" + rest) == sc
  {
    UnlistedStays(sc, rest);
    var url := sc + "://" + rest;
    assert url[..|sc|] == sc && url[|sc|] == ':';
    DelimitedPrefix(url, |sc|);
  }

  /** The host of a URL with a scheme, with or without user, port and path. */
  lemma HostOfURL(sc: string, user: string, h: string, tail: string)
    requires IsScheme(sc) && IsAuthority(user, h) && IsTail(tail)
    ensures Host(URL(sc, user + h, tail)) == if sc in LISTED then h else sc
  {
    if sc !in LISTED {
      HostOfUnlisted(sc, user + h + tail);
    } else if user == "" {
      assert user + h == h;
      ListedIsStripped(sc, h, tail);
      assert (h + tail)[..|h|] == h;
      DelimitedPrefix(h + tail, |h|);
    } else {
      HostOfListed(sc, h, tail);
    }
  }

  /** "Strip scheme + port + path" gives the host exactly for the schemes of the list, or when the two coincide. */
  lemma SchemeStrippedExactly(sc: string, user: string, h: string, tail: string)
    requires IsScheme(sc) && IsAuthority(user, h) && IsTail(tail)
    ensures Host(URL(sc, user + h, tail)) == h <==> sc in LISTED || sc == h
  {
    HostOfURL(sc, user, h, tail);
  }

  /** A host as the comparison sees it: "api." and letter case do not matter. */
  function Folded(h: string): string {
    Lower(TrimPrefix(h, "api."))
  }

  /** What stands for the host of a URL: the host, or the scheme if it is not in the list. */
  function Stands(sc: string, h: string): string {
    if sc in LISTED then h else sc
  }

  /**
   * "Host equality" over any two URLs: what is compared is the host under a listed scheme, and the scheme itself under
   * any other - one in upper case, say.
   */
  lemma HostEqualityExactly(sc: string, user: string, h: string, tail: string,
                            sc': string, user': string, k: string, tail': string)
    requires IsScheme(sc) && IsAuthority(user, h) && IsTail(tail)
    requires IsScheme(sc') && IsAuthority(user', k) && IsTail(tail')
    ensures GitHost(URL(sc, user + h, tail)) == GitHost(URL(sc', user' + k, tail'))
            <==> Folded(Stands(sc, h)) == Folded(Stands(sc', k))
  {
    HostOfURL(sc, user, h, tail);
    HostOfURL(sc', user', k, tail');
  }

  /** An SSH remote "git@host:path" has the host of every listed URL of that host. */
  lemma RemoteAgrees(h: string, tail: string, sc: string, user: string, tail': string)
    requires sc in LISTED && IsScheme(sc) && IsAuthority(user, h) && IsTail(tail) && IsTail(tail')
    ensures Host("git@" + (h + tail)) == Host(URL(sc, user + h, tail'))
  {
    HostOfRemote(h, tail);
    HostOfURL(sc, user, h, tail');
  }

  // ── Matching ────────────────────────────────────────────────────────────────

  datatype PlanConnection = PlanConnection(sourceID: string, provider: string, serverURL: string)

  datatype Connection = Connection(id: string, provider: string, serverURL: string)

  datatype Verdict = NoMatch | ByHost | ByURL

  function Judge(p: PlanConnection, ex: Connection): Verdict {
    if !EqualFold(ex.provider, p.provider) then NoMatch
    else if CanonicalURL(ex.serverURL) == CanonicalURL(p.serverURL) then ByURL
    else if GitHost(ex.serverURL) == GitHost(p.serverURL) then ByHost
    else NoMatch
  }

  /** A match needs the same provider, letter case aside, and the same URL or the same host; the URL goes first. */
  lemma JudgeExactly(p: PlanConnection, ex: Connection)
    ensures Judge(p, ex) != NoMatch
            <==> Lower(ex.provider) == Lower(p.provider)
                 && (CanonicalURL(ex.serverURL) == CanonicalURL(p.serverURL)
                     || GitHost(ex.serverURL) == GitHost(p.serverURL))
    ensures Judge(p, ex) == ByURL
            <==> Lower(ex.provider) == Lower(p.provider) && CanonicalURL(ex.serverURL) == CanonicalURL(p.serverURL)
  {
  }

  /** Under an unlisted scheme any two connections of one provider match, whatever their hosts. */
  lemma DifferentHostsMatch(sc: string, h: string, k: string, id: string, provider: string)
    requires IsScheme(sc) && sc !in LISTED && IsHost(h) && !HasPrefix(h, "git@") && IsHost(k) && !HasPrefix(k, "git@")
    ensures Judge(PlanConnection("s", provider, URL(sc, h, "")), Connection(id, provider, URL(sc, k, ""))) != NoMatch
  {
    HostEqualityExactly(sc, "", k, "", sc, "", h, "");
    assert "" + h == h && "" + k == k;
  }

  function Judger(p: PlanConnection): Connection -> Verdict {
    ex => Judge(p, ex)
  }

  function Verdicts(existing: seq<Connection>, p: PlanConnection): seq<Verdict> {
    Map(Judger(p), existing)
  }

  predicate Unmatched(vs: seq<Verdict>) {
    forall i :: 0 <= i < |vs| ==> vs[i] == NoMatch
  }

  predicate IsFirst(vs: seq<Verdict>, i: nat) {
    i < |vs| && vs[i] != NoMatch && forall j :: 0 <= j < i ==> vs[j] == NoMatch
  }

  function FirstMatch(vs: seq<Verdict>): (r: Option<nat>)
    ensures r.Some? ==> IsFirst(vs, r.value)
    ensures r.None? <==> Unmatched(vs)
  {
    if vs == [] then None
    else if vs[0] != NoMatch then Some(0)
    else
      var rest := FirstMatch(vs[1..]);
      if rest.None? then None else Some(rest.value + 1)
  }

  /** The Terrapod ID of the first connection that matches. */
  function Resolve(existing: seq<Connection>, p: PlanConnection): Option<string> {
    var i := FirstMatch(Verdicts(existing, p));
    if i.None? then None else Some(existing[i.value].id)
  }

  /** What each plan connection resolves to, by source ID. */
  type Findings = seq<(string, Option<string>)>

  function FindingsOf(existing: seq<Connection>, plan: seq<PlanConnection>): Findings {
    seq(|plan|, k requires 0 <= k < |plan| => (plan[k].sourceID, Resolve(existing, plan[k])))
  }

  /** The ID for a source ID: that of the last plan connection carrying it that resolves. */
  function Latest(fs: Findings, s: string): (r: Option<string>)
    ensures r.None? <==> forall k :: 0 <= k < |fs| && fs[k].0 == s ==> fs[k].1.None?
    ensures r.Some? ==> exists k :: && 0 <= k < |fs| && fs[k] == (s, r)
                                    && forall l :: k < l < |fs| && fs[l].0 == s ==> fs[l].1.None?
  {
    if fs == [] then None else
    var n := |fs| - 1;
    if fs[n].0 == s && fs[n].1.Some? then fs[n].1 else Latest(fs[..n], s)
  }

  ghost predicate Agrees(fs: Findings, out: map<string, string>) {
    forall s {:trigger s in out} :: Latest(fs, s) == if s in out then Some(out[s]) else None
  }

  /** The test of the inner loop. */
  method Test(p: PlanConnection, ex: Connection) returns (hit: bool)
    ensures hit <==> Judger(p)(ex) != NoMatch
  {
    if !EqualFold(ex.provider, p.provider) { return false; }
    var want, wantHost := CanonicalURL(p.serverURL), GitHost(p.serverURL);
    var exHost := GitHost(ex.serverURL);
    return CanonicalURL(ex.serverURL) == want || (want == "" && ex.serverURL == "") || exHost == wantHost;
  }

  /** The inner loop: the first connection that matches, or the number of connections. */
  method Search(existing: seq<Connection>, p: PlanConnection) returns (i: nat)
    ensures i <= |existing|
    ensures Resolve(existing, p) == if i < |existing| then Some(existing[i].id) else None
  {
    i := 0;
    while i < |existing|
      invariant i <= |existing| && NoneBefore(Judger(p), existing, i)
    {
      var hit := Test(p, existing[i]);
      if hit {
        FirstJudged(Judger(p), existing, i);
        return;
      }
      i := i + 1;
    }
    FirstJudged(Judger(p), existing, i);
  }

  predicate NoneBefore(judge: Connection -> Verdict, existing: seq<Connection>, i: nat)
    requires i <= |existing|
  {
    forall j :: 0 <= j < i ==> judge(existing[j]) == NoMatch
  }

  lemma FirstJudged(judge: Connection -> Verdict, existing: seq<Connection>, i: nat)
    requires i <= |existing| && NoneBefore(judge, existing, i)
    requires i < |existing| ==> judge(existing[i]) != NoMatch
    ensures FirstMatch(Map(judge, existing)) == if i < |existing| then Some(i) else None
  {
    if i < |existing| { FirstIsUnique(Map(judge, existing), i); }
  }

  lemma FirstIsUnique(vs: seq<Verdict>, i: nat)
    requires IsFirst(vs, i)
    ensures FirstMatch(vs) == Some(i)
  {
  }

  /** The connections are listed only for a plan that has some; None is a listing that failed. */
  method ResolveVCSConnections(listing: Option<seq<Connection>>, plan: seq<PlanConnection>)
    returns (result: Option<map<string, string>>)
    ensures result.None? <==> plan != [] && listing.None?
    ensures plan == [] ==> result == Some(map[])
    ensures plan != [] && listing.Some? ==> Agrees(FindingsOf(listing.value, plan), result.value)
  {
    if plan == [] { return Some(map[]); }
    if listing.None? { return None; }
    var existing, out := listing.value, map[];
    ghost var fs := FindingsOf(existing, plan);
    for k := 0 to |plan|
      invariant Agrees(fs[..k], out)
    {
      var i := Search(existing, plan[k]);
      AgreesMore(fs, k, out);
      if i < |existing| {
        out := out[plan[k].sourceID := existing[i].id];
      }
    }
    assert fs[..|plan|] == fs;
    return Some(out);
  }

  lemma AgreesMore(fs: Findings, k: nat, out: map<string, string>)
    requires k < |fs| && Agrees(fs[..k], out)
    ensures Agrees(fs[..k + 1], if fs[k].1.None? then out else out[fs[k].0 := fs[k].1.value])
  {
    assert fs[..k + 1][..k] == fs[..k];
  }

  /** A source ID of one plan connection alone maps to that connection's first match, and is unmapped iff none is. */
  lemma UniqueIDs(existing: seq<Connection>, plan: seq<PlanConnection>, out: map<string, string>, k: nat)
    requires Agrees(FindingsOf(existing, plan), out) && k < |plan|
    requires forall j :: 0 <= j < |plan| && plan[j].sourceID == plan[k].sourceID ==> j == k
    ensures var s, vs := plan[k].sourceID, Verdicts(existing, plan[k]);
            && (s !in out <==> Unmatched(vs))
            && (s in out ==> exists i: nat :: IsFirst(vs, i) && out[s] == existing[i].id)
  {
    var s, vs, fs := plan[k].sourceID, Verdicts(existing, plan[k]), FindingsOf(existing, plan);
    assert Latest(fs, s) == if s in out then Some(out[s]) else None;
    assert fs[k] == (s, Resolve(existing, plan[k]));
    if s in out { assert IsFirst(vs, FirstMatch(vs).value); }
  }

  // ── The documented preference for exact URLs ────────────────────────────────

  /** The documented rule: the first match by URL, and only without one the first match by host. */
  predicate IsDocumented(vs: seq<Verdict>, i: nat) {
    && i < |vs| && vs[i] != NoMatch
    && (if vs[i] == ByURL then forall j :: 0 <= j < i ==> vs[j] != ByURL
        else (forall j :: 0 <= j < |vs| ==> vs[j] != ByURL) && forall j :: 0 <= j < i ==> vs[j] == NoMatch)
  }

  /** It chooses one connection, unless none matches. */
  lemma {:induction false} DocumentedChoice(vs: seq<Verdict>) returns (i: nat)
    ensures Unmatched(vs) || IsDocumented(vs, i)
    ensures forall j: nat :: IsDocumented(vs, j) ==> j == i
  {
    i := 0;
    if vs != [] {
      var rest := DocumentedChoice(vs[1..]);
      assert forall j :: 0 < j < |vs| ==> vs[j] == vs[1..][j - 1];
      if vs[0] == ByURL || Unmatched(vs[1..]) || (vs[0] == ByHost && vs[1..][rest] != ByURL) {
        assert Unmatched(vs) || IsDocumented(vs, 0);
      } else {
        i := rest + 1;
        assert IsDocumented(vs, i);
      }
    }
  }

  /** A match by host alone is listed before the first match by URL. */
  predicate HostComesFirst(vs: seq<Verdict>) {
    exists h, u :: 0 <= h < u < |vs| && vs[h] == ByHost && vs[u] == ByURL && forall j :: 0 <= j < u ==> vs[j] != ByURL
  }

  lemma {:induction false} FirstURL(vs: seq<Verdict>, n: nat) returns (u: nat)
    requires n < |vs| && vs[n] == ByURL
    ensures u <= n && vs[u] == ByURL && forall j :: 0 <= j < u ==> vs[j] != ByURL
  {
    if j :| 0 <= j < n && vs[j] == ByURL {
      u := FirstURL(vs, j);
    } else {
      u := n;
    }
  }

  /** The code's choice is the documented one exactly when no match by host is listed before the first by URL. */
  lemma ExactURLWinsExactly(vs: seq<Verdict>, i: nat)
    requires IsFirst(vs, i)
    ensures IsDocumented(vs, i) <==> !HostComesFirst(vs)
  {
    if !IsDocumented(vs, i) {
      assert vs[i] == ByHost;
      var n :| 0 <= n < |vs| && vs[n] == ByURL;
      var u := FirstURL(vs, n);
      assert i < u;
    }
  }

  /** A host and its "api." twin are one git host. */
  lemma ApiTwin(h: string)
    requires IsHost(h) && !LooksLikeGitUser(h) && !HasPrefix(h, "api.")
    ensures GitHost("https://" + h) == GitHost("https://" + ("api." + h)) == Lower(h)
  {
    HostOfHttps(h);
    var twin := "api." + h;
    assert twin[..4] == "api." && twin[4..] == h;
    forall i | 0 <= i < |twin| ensures !EndsHost(twin[i]) { if i >= 4 { assert twin[i] == h[i - 4]; } }
    NotPrefix(twin, "git@", 0);
    HostOfHttps(twin);
  }

  lemma TwinURLsDiffer(h: string)
    requires IsHost(h) && !IsGoSpace(h[|h| - 1])
    ensures CanonicalURL("https://" + h) != CanonicalURL("https://" + ("api." + h))
  {
  }

  lemma Shadowed(p: PlanConnection, twin: Connection, same: Connection)
    requires Judge(p, twin) == ByHost && Judge(p, same) == ByURL
    ensures var vs := Verdicts([twin, same], p);
            FirstMatch(vs) == Some(0) && IsDocumented(vs, 1) && !IsDocumented(vs, 0)
  {
  }

  /** With the API host listed first, the code takes it, and the documented rule the second connection. */
  lemma HostBeforeURL(h: string, provider: string)
    requires IsHost(h) && !LooksLikeGitUser(h) && !HasPrefix(h, "api.") && !IsGoSpace(h[|h| - 1])
    ensures var p := PlanConnection("s", provider, "https://" + h);
            var twin := Connection("a", provider, "https://" + ("api." + h));
            var vs := Verdicts([twin, Connection("b", provider, "https://" + h)], p);
            FirstMatch(vs) == Some(0) && IsDocumented(vs, 1) && !IsDocumented(vs, 0)
  {
    ApiTwin(h);
    TwinURLsDiffer(h);
    Shadowed(PlanConnection("s", provider, "https://" + h), Connection("a", provider, "https://" + ("api." + h)),
             Connection("b", provider, "https://" + h));
  }
}
