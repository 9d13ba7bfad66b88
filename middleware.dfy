/** Subdomain routing: the host's subdomain (`<sub>.rcal.online` in
    production, `<sub>.localhost:<port>` in development) and the rewrite of the
    root path that it selects. */
module Middleware {
  import opened Wrappers
  import opened Text

  // ---------------------------------------------------------------------------
  // The production pattern `^([a-z0-9][a-z0-9-]*[a-z0-9]|[a-z0-9])\.\w+\.online`

  predicate LowerAlnum(c: char) {
    'a' <= c <= 'z' || '0' <= c <= '9'
  }

  /** `[a-z0-9-]`. */
  predicate LabelChar(c: char) {
    LowerAlnum(c) || c == '-'
  }

  /** `\w`: ASCII letters, digits and `_`. */
  predicate WordChar(c: char) {
    'a' <= c <= 'z' || 'A' <= c <= 'Z' || '0' <= c <= '9' || c == '_'
  }

  /** The first group: one lower-case letter or digit, or two or more of
      `[a-z0-9-]` that begin and end with one. */
  predicate IsLabel(l: string) {
    |l| >= 1 && LowerAlnum(l[0]) && LowerAlnum(l[|l| - 1]) &&
    forall i :: 0 <= i < |l| ==> LabelChar(l[i])
  }

  /** `\w+`. */
  predicate IsWord(w: string) {
    |w| >= 1 && forall i :: 0 <= i < |w| ==> WordChar(w[i])
  }

  /** The first group of the production pattern, when the host matches it.
      Neither part may hold a dot, so the group is the text before the first
      dot and the word the text between the first and second dots. */
  function ProductionLabel(host: string): (l: Option<string>)
    ensures l.Some? ==> IsLabel(l.value) && '.' !in l.value && |l.value| < |host|
  {
    var first := BeforeFirst(host, '.');
    if first == host then None
    else
      var after := host[|first| + 1..];
      var word := BeforeFirst(after, '.');
      if word == after then None
      else
        var tail := after[|word| + 1..];
        if IsLabel(first) && IsWord(word) && "online" <= tail then Some(first) else None
  }

  /** The host matches the pattern with first group `l` exactly when it is `l`,
      a dot, a word, `.online` and anything after. */
  lemma ProductionLabelMatches(l: string, w: string, rest: string)
    requires IsLabel(l) && IsWord(w)
    ensures ProductionLabel(l + "." + w + ".online" + rest) == Some(l)
  {
    var host := l + "." + w + ".online" + rest;
    var after := w + ".online" + rest;
    assert '.' !in l by { forall i | 0 <= i < |l| ensures l[i] != '.' { assert LabelChar(l[i]); } }
    assert host == l + ['.'] + after;
    BeforeFirstOfPrefix(l, '.', after);
    assert host[|l| + 1..] == after;
    assert '.' !in w by { forall i | 0 <= i < |w| ensures w[i] != '.' { assert WordChar(w[i]); } }
    assert after == w + ['.'] + ("online" + rest);
    BeforeFirstOfPrefix(w, '.', "online" + rest);
    assert after[|w| + 1..] == "online" + rest;
  }

  /** Conversely, a match always has that shape. */
  lemma ProductionLabelShape(host: string)
    requires ProductionLabel(host).Some?
    ensures var l := ProductionLabel(host).value;
            IsLabel(l) &&
            exists w, rest :: IsWord(w) && host == l + "." + w + ".online" + rest
  {
    var first := BeforeFirst(host, '.');
    var after := host[|first| + 1..];
    var word := BeforeFirst(after, '.');
    var tail := after[|word| + 1..];
    assert ProductionLabel(host).value == first && IsWord(word) && "online" <= tail;
    var rest := tail[6..];
    assert host == first + "." + after by {
      BeforeFirstIsPrefix(host, '.');
      BeforeFirstFollowedBy(host, '.');
      Rejoin(host, |first|);
    }
    assert after == word + "." + tail by {
      BeforeFirstIsPrefix(after, '.');
      BeforeFirstFollowedBy(after, '.');
      Rejoin(after, |word|);
    }
    assert tail == "online" + rest by {
      PrefixRest(tail, "online");
    }
    HostParts(first, word, rest);
    assert IsWord(word) && host == first + "." + word + ".online" + rest;
  }

  lemma HostParts(l: string, w: string, rest: string)
    ensures l + "." + (w + "." + ("online" + rest)) == l + "." + w + ".online" + rest
  {
    assert "." + ("online" + rest) == ".online" + rest;
  }

  // ---------------------------------------------------------------------------
  // Subdomain extraction

  /** The development branch as written: the last dot-separated part before
      `.localhost`, unless the first one is `localhost` itself. The port stays
      attached, so `localhost:3000` is not recognised as the bare host. */
  function LocalSubdomainAsWritten(host: string): Option<string> {
    var parts := Split(Split(host, ".localhost")[0], ".");
    if |parts| > 0 && parts[0] != "localhost" then Some(parts[|parts| - 1]) else None
  }

  /** The development branch with the port removed first (`host.split(':')[0]`),
      so that the bare host with or without a port has no subdomain. */
  function LocalSubdomain(host: string): Option<string> {
    var parts := Split(Split(BeforeFirst(host, ':'), ".localhost")[0], ".");
    if |parts| > 0 && parts[0] != "localhost" then Some(parts[|parts| - 1]) else None
  }

  /** The subdomain as written: the production match unless it is `www`, else,
      on a host containing `localhost`, the development branch. */
  function SubdomainAsWritten(host: string): (sub: Option<string>)
    ensures ProductionLabel(host).Some? && ProductionLabel(host).value != "www" ==> sub == ProductionLabel(host)
    ensures !Contains(host, "localhost") && sub.Some? ==> sub == ProductionLabel(host) && sub.value != "www"
  {
    var m := ProductionLabel(host);
    if m.Some? && m.value != "www" then m
    else if Contains(host, "localhost") then LocalSubdomainAsWritten(host)
    else None
  }

  /** The subdomain, with the development branch's port handling corrected. */
  function Subdomain(host: string): (sub: Option<string>)
    ensures ProductionLabel(host).Some? && ProductionLabel(host).value != "www" ==> sub == ProductionLabel(host)
    ensures !Contains(host, "localhost") && sub.Some? ==> sub == ProductionLabel(host) && sub.value != "www"
  {
    var m := ProductionLabel(host);
    if m.Some? && m.value != "www" then m
    else if Contains(host, "localhost") then LocalSubdomain(host)
    else None
  }

  /** The development server's own host, `localhost:<port>`, as written gets
      the subdomain `localhost:<port>`: it holds no dot, so the split leaves it
      whole, and the port keeps it from equalling `localhost`. */
  lemma BareLocalhostAsWritten(port: string)
    requires IsDigits(port)
    ensures SubdomainAsWritten("localhost:" + port) == Some("localhost:" + port)
  {
    var host := "localhost:" + port;
    assert host == "localhost" + (":" + port);
    LocalhostHasNoDot(":" + port);
    BeforeFirstIsPrefix(host, '.');
    ContainsLocalhostAt(host, 0);
    SplitWithout(host, ".localhost");
    SplitWithout(host, ".");
    assert |host| != |"localhost"|;
  }

  /** Corrected: `localhost` with or without a port has no subdomain. */
  lemma BareLocalhost(port: string)
    requires IsDigits(port)
    ensures Subdomain("localhost").None?
    ensures Subdomain("localhost:" + port).None?
  {
    assert Subdomain("localhost").None? by {
      BareLocalhostHasNone("");
      assert "localhost" + "" == "localhost";
    }
    var suffix := ":" + port;
    assert PortSuffix(suffix) by { assert suffix[1..] == port; }
    assert "localhost" + suffix == "localhost:" + port;
    BareLocalhostHasNone(suffix);
  }

  /** Nothing, or a colon and the digits of a port. */
  predicate PortSuffix(suffix: string) {
    suffix == "" || (suffix[0] == ':' && IsDigits(suffix[1..]))
  }

  lemma LocalhostHasNoDot(suffix: string)
    requires PortSuffix(suffix)
    ensures '.' !in "localhost" + suffix
  {
    var h := "localhost" + suffix;
    forall i | 0 <= i < |h|
      ensures h[i] != '.'
    {
      if i >= 10 {
        assert h[i] == suffix[1..][i - 10];
      }
    }
  }

  /** `host.split(':')[0]` drops the port. */
  lemma WithoutPort(name: string, suffix: string)
    requires ':' !in name && PortSuffix(suffix)
    ensures BeforeFirst(name + suffix, ':') == name
  {
    if suffix == "" {
      assert name + suffix == name;
      BeforeFirstIsPrefix(name, ':');
    } else {
      assert name + suffix == name + [':'] + suffix[1..];
      BeforeFirstOfPrefix(name, ':', suffix[1..]);
    }
  }

  lemma ContainsLocalhostAt(host: string, i: nat)
    requires i + 9 <= |host| && host[i..i + 9] == "localhost"
    ensures Contains(host, "localhost")
  {
    assert OccursAt(host, "localhost", i);
  }

  lemma BareLocalhostHasNone(suffix: string)
    requires PortSuffix(suffix)
    ensures Subdomain("localhost" + suffix).None?
  {
    var host := "localhost" + suffix;
    LocalhostHasNoDot(suffix);
    BeforeFirstIsPrefix(host, '.');
    ContainsLocalhostAt(host, 0);
    WithoutPort("localhost", suffix);
    SplitWithout("localhost", ".localhost");
    SplitWithout("localhost", ".");
  }

  /** Corrected, and as written: `<sub>.localhost` with or without a port gives
      `<sub>` for a name without dots or colons other than `localhost`. */
  lemma LocalhostSubdomain(sub: string, port: string)
    requires sub != "localhost" && '.' !in sub && ':' !in sub
    requires IsDigits(port)
    ensures Subdomain(sub + ".localhost") == Some(sub)
    ensures Subdomain(sub + ".localhost:" + port) == Some(sub)
    ensures SubdomainAsWritten(sub + ".localhost:" + port) == Some(sub)
  {
    assert Subdomain(sub + ".localhost") == Some(sub) by {
      LocalhostSubdomainOf(sub, "");
      assert sub + ".localhost" + "" == sub + ".localhost";
    }
    var suffix := ":" + port;
    assert PortSuffix(suffix) by { assert suffix[1..] == port; }
    assert sub + ".localhost" + suffix == sub + ".localhost:" + port;
    assert Subdomain(sub + ".localhost" + suffix) == Some(sub) by {
      LocalhostSubdomainOf(sub, suffix);
    }
    assert SubdomainAsWritten(sub + ".localhost" + suffix) == Some(sub) by {
      LocalhostSubdomainAsWritten(sub, suffix);
    }
  }

  /** The production pattern needs a second dot, which a development host lacks. */
  lemma NoProductionMatch(sub: string, suffix: string)
    requires '.' !in sub && PortSuffix(suffix)
    ensures ProductionLabel(sub + ".localhost" + suffix).None?
  {
    var after := "localhost" + suffix;
    var host := sub + ".localhost" + suffix;
    assert host == sub + ['.'] + after;
    BeforeFirstOfPrefix(sub, '.', after);
    assert host[|sub| + 1..] == after;
    LocalhostHasNoDot(suffix);
    BeforeFirstIsPrefix(after, '.');
  }

  lemma LocalhostSubdomainOf(sub: string, suffix: string)
    requires sub != "localhost" && '.' !in sub && ':' !in sub && PortSuffix(suffix)
    ensures Subdomain(sub + ".localhost" + suffix) == Some(sub)
  {
    var host := sub + ".localhost" + suffix;
    NoProductionMatch(sub, suffix);
    ContainsLocalhostAt(host, |sub| + 1);
    LocalSubdomainOfName(sub, suffix);
  }

  /** The corrected development branch strips the port, then finds `sub`. */
  lemma LocalSubdomainOfName(sub: string, suffix: string)
    requires sub != "localhost" && '.' !in sub && ':' !in sub && PortSuffix(suffix)
    ensures LocalSubdomain(sub + ".localhost" + suffix) == Some(sub)
  {
    var name := sub + ".localhost";
    WithoutPort(name, suffix);
    assert BeforeFirst(sub + ".localhost" + suffix, ':') == name;
    SplitFirstOfPrefix(sub, ".localhost", "");
    assert name + "" == name;
    assert Split(name, ".localhost")[0] == sub;
    SplitWithout(sub, ".");
  }

  lemma LocalhostSubdomainAsWritten(sub: string, suffix: string)
    requires sub != "localhost" && '.' !in sub && ':' !in sub && PortSuffix(suffix)
    ensures SubdomainAsWritten(sub + ".localhost" + suffix) == Some(sub)
  {
    var host := sub + ".localhost" + suffix;
    NoProductionMatch(sub, suffix);
    ContainsLocalhostAt(host, |sub| + 1);
    LocalSubdomainAsWrittenOfName(sub, suffix);
  }

  /** The development branch as written also finds `sub` in front of `.localhost`. */
  lemma LocalSubdomainAsWrittenOfName(sub: string, suffix: string)
    requires sub != "localhost" && '.' !in sub
    ensures LocalSubdomainAsWritten(sub + ".localhost" + suffix) == Some(sub)
  {
    SplitFirstOfPrefix(sub, ".localhost", suffix);
    assert Split(sub + ".localhost" + suffix, ".localhost")[0] == sub;
    SplitWithout(sub, ".");
  }

  // ---------------------------------------------------------------------------
  // The rewrite

  datatype Response = Pass | Rewrite(pathname: string)

  /** The rewrite a subdomain selects: `/` on `demo` goes to `/demo`, `/` on
      any other non-empty subdomain to `/s/<subdomain>`, and everything else
      passes through. */
  function RewriteFor(subdomain: Option<string>, pathname: string): (r: Response)
    ensures pathname != "/" ==> r == Pass
  {
    if subdomain.Some? && |subdomain.value| > 0 then
      if subdomain.value == "demo" then
        if pathname == "/" then Rewrite("/demo") else Pass
      else if pathname == "/" then Rewrite("/s/" + subdomain.value)
      else Pass
    else Pass
  }

  /** middleware as written, over SubdomainAsWritten. A missing host header
      is the empty host. It differs from the corrected routing only on hosts
      containing `localhost`. */
  function RouteAsWritten(host: string, pathname: string): (r: Response)
    ensures pathname != "/" ==> r == Pass
    ensures !Contains(host, "localhost") ==> r == Route(host, pathname)
  {
    RewriteFor(SubdomainAsWritten(host), pathname)
  }

  /** middleware with the development branch corrected, over Subdomain: the
      routing the rest of the model uses. */
  function Route(host: string, pathname: string): (r: Response)
    ensures pathname != "/" ==> r == Pass
  {
    RewriteFor(Subdomain(host), pathname)
  }

  /** As written, `/` on the development server's own host `localhost:<port>`
      is rewritten to the space `localhost:<port>`; corrected, it passes
      through. */
  lemma BareLocalhostRoute(port: string)
    requires IsDigits(port)
    ensures RouteAsWritten("localhost:" + port, "/") == Rewrite("/s/" + ("localhost:" + port))
    ensures Route("localhost:" + port, "/") == Pass
  {
    var host := "localhost:" + port;
    BareLocalhostAsWritten(port);
    BareLocalhost(port);
    assert host[0] == 'l';
    assert host != "demo";
    SpacePath(host);
  }

  lemma SpacePath(host: string)
    requires |host| > 0 && host != "demo"
    ensures RewriteFor(Some(host), "/") == Rewrite("/s/" + host)
  {
  }

  /** A rewrite happens exactly for `/` on a host with a non-empty subdomain,
      and it goes to `/demo` for `demo` and to that subdomain's space otherwise. */
  lemma RouteRewrites(host: string, pathname: string)
    ensures Route(host, pathname).Rewrite? <==>
              pathname == "/" && Subdomain(host).Some? && Subdomain(host).value != ""
    ensures Route(host, pathname).Rewrite? ==>
              var sub := Subdomain(host).value;
              Route(host, pathname).pathname == (if sub == "demo" then "/demo" else "/s/" + sub)
  {
  }

  /** Different spaces are rewritten to different paths, none of them `/demo`. */
  lemma SpacePathsDistinct(a: string, b: string, pathname: string)
    requires Route(a, pathname).Rewrite? && Route(b, pathname).Rewrite?
    requires Subdomain(a) != Subdomain(b)
    ensures Route(a, pathname) != Route(b, pathname)
  {
    RewritesDistinct(Subdomain(a), Subdomain(b), pathname);
  }

  lemma RewritesDistinct(x: Option<string>, y: Option<string>, pathname: string)
    requires RewriteFor(x, pathname).Rewrite? && RewriteFor(y, pathname).Rewrite?
    requires x != y
    ensures RewriteFor(x, pathname) != RewriteFor(y, pathname)
  {
    var sa, sb := x.value, y.value;
    if sa != "demo" && sb != "demo" {
      assert ("/s/" + sa)[3..] == sa;
      assert ("/s/" + sb)[3..] == sb;
    } else if sa == "demo" {
      assert ("/s/" + sb)[1] == 's';
    } else {
      assert ("/s/" + sa)[1] == 's';
    }
  }

  /** `/` on `<l>.<w>.online` serves the demo for `demo` and the space `l`
      for any other label but `www`. */
  lemma ProductionRoute(l: string, w: string, rest: string)
    requires IsLabel(l) && IsWord(w) && l != "www"
    ensures Route(l + "." + w + ".online" + rest, "/") ==
              Rewrite(if l == "demo" then "/demo" else "/s/" + l)
  {
    ProductionLabelMatches(l, w, rest);
  }

  /** `www.<w>.online` has no subdomain unless the host also mentions
      `localhost`, so every path passes through. */
  lemma WwwRoute(w: string, rest: string, pathname: string)
    requires IsWord(w)
    requires !Contains("www." + w + ".online" + rest, "localhost")
    ensures Route("www." + w + ".online" + rest, pathname) == Pass
  {
    ProductionLabelMatches("www", w, rest);
    assert "www" + "." + w + ".online" + rest == "www." + w + ".online" + rest;
  }

  /** `demo.rcal.online/` serves the demo, whatever follows the domain. */
  lemma DemoRoute(rest: string)
    ensures Route("demo.rcal.online" + rest, "/") == Rewrite("/demo")
  {
    assert "demo.rcal.online" + rest == "demo" + "." + "rcal" + ".online" + rest by {
      DemoHost();
    }
    assert IsLabel("demo") && IsWord("rcal") && "demo" != "www";
    ProductionRoute("demo", "rcal", rest);
  }

  /** `team.rcal.online/` serves the space `team`. */
  lemma TeamRoute(rest: string)
    ensures Route("team.rcal.online" + rest, "/") == Rewrite("/s/team")
  {
    assert "team.rcal.online" + rest == "team" + "." + "rcal" + ".online" + rest by {
      TeamHost();
    }
    assert IsLabel("team") && IsWord("rcal");
    assert "team" != "demo" && "team" != "www";
    ProductionRoute("team", "rcal", rest);
    assert "/s/" + "team" == "/s/team";
  }

  lemma DemoHost()
    ensures "demo" + "." + "rcal" + ".online" == "demo.rcal.online"
  {
  }

  lemma TeamHost()
    ensures "team" + "." + "rcal" + ".online" == "team.rcal.online"
  {
  }
}
