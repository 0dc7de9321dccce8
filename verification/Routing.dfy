/** Which profile a request path belongs to. */
module Routing {
  import opened Base
  import opened Policy

  datatype Profile = Profile(name: Provider, routePrefix: string, keepPrefix: bool)

  datatype Match = NoMatch | Matched(index: nat, path: string)

  /** A prefix the configuration accepts. */
  predicate CheckRoutePrefix(prefix: string) {
    && "/" <= prefix && |prefix| >= 2 && prefix[|prefix| - 1] != '/'
    && prefix != "/healthz" && prefix != "/status"
  }

  /** `path` is `prefix`, or continues it at a segment boundary. */
  predicate Under(prefix: string, path: string) {
    path == prefix || prefix + "/" <= path
  }

  predicate Claims(p: Profile, path: string) {
    p.routePrefix != "" && Under(p.routePrefix, path)
  }

  function Stripped(p: Profile, path: string): string
    requires Claims(p, path)
  {
    if p.keepPrefix then path
    else if path == p.routePrefix then "/"
    else path[|p.routePrefix|..]
  }

  /** `i` is the last profile satisfying `ok` among the first `k`. */
  ghost predicate LastOf(profiles: seq<Profile>, ok: set<Profile>, i: int, k: nat)
    requires k <= |profiles|
  {
    if i < 0 then forall j :: 0 <= j < k ==> profiles[j] !in ok
    else i < k && profiles[i] in ok && forall j :: i < j < k ==> profiles[j] !in ok
  }

  ghost predicate FirstClaim(profiles: seq<Profile>, path: string, i: int) {
    && 0 <= i < |profiles| && Claims(profiles[i], path)
    && forall j :: 0 <= j < i ==> !Claims(profiles[j], path)
  }

  ghost predicate Unclaimed(profiles: seq<Profile>, path: string) {
    forall j :: 0 <= j < |profiles| ==> !Claims(profiles[j], path)
  }

  ghost function CatchAlls(profiles: seq<Profile>): set<Profile> {
    set p | p in profiles && p.routePrefix == ""
  }

  ghost function Firecrawls(profiles: seq<Profile>): set<Profile> {
    set p | p in profiles && p.routePrefix != "" && p.name == Firecrawl
  }

  /** First claim wins; otherwise the last catch-all; otherwise, if allowed, the last firecrawl profile. */
  ghost predicate IsMatch(profiles: seq<Profile>, path: string, legacyFallback: bool, m: Match) {
    match m
    case Matched(i, rest) =>
      if FirstClaim(profiles, path, i) then rest == Stripped(profiles[i], path)
      else
        && rest == path && Unclaimed(profiles, path)
        && (if CatchAlls(profiles) != {} then LastOf(profiles, CatchAlls(profiles), i, |profiles|)
            else legacyFallback && LastOf(profiles, Firecrawls(profiles), i, |profiles|))
    case NoMatch =>
      && Unclaimed(profiles, path) && CatchAlls(profiles) == {}
      && (legacyFallback ==> Firecrawls(profiles) == {})
  }

  method MatchProfile(profiles: seq<Profile>, path: string, legacyFallback: bool) returns (m: Match)
    ensures IsMatch(profiles, path, legacyFallback, m)
  {
    var def, firecrawl := -1, -1;
    for i := 0 to |profiles|
      invariant forall j :: 0 <= j < i ==> !Claims(profiles[j], path)
      invariant -1 <= def < i && LastOf(profiles, CatchAlls(profiles), def, i)
      invariant -1 <= firecrawl < i && LastOf(profiles, Firecrawls(profiles), firecrawl, i)
    {
      var p := profiles[i];
      if p.routePrefix == "" {
        def := i;
        continue;
      }
      if p.name == Firecrawl {
        firecrawl := i;
      }
      if path == p.routePrefix {
        assert FirstClaim(profiles, path, i);
        return Matched(i, if p.keepPrefix then path else "/");
      }
      if p.routePrefix + "/" <= path {
        assert FirstClaim(profiles, path, i);
        return Matched(i, if p.keepPrefix then path else path[|p.routePrefix|..]);
      }
    }
    if def >= 0 {
      assert profiles[def] in CatchAlls(profiles);
      return Matched(def, path);
    }
    if legacyFallback && firecrawl >= 0 {
      return Matched(firecrawl, path);
    }
    return NoMatch;
  }

  // ---- Unambiguous routing ----

  ghost predicate ValidPrefixes(profiles: seq<Profile>) {
    forall i :: 0 <= i < |profiles| ==> CheckRoutePrefix(profiles[i].routePrefix)
  }

  /** No prefix is another one, or another one up to a segment boundary. */
  ghost predicate Disjoint(profiles: seq<Profile>) {
    forall i, j :: 0 <= i < |profiles| && 0 <= j < |profiles| && i != j ==>
      !Under(profiles[i].routePrefix, profiles[j].routePrefix)
  }

  ghost predicate AtMostOneClaim(profiles: seq<Profile>, path: string) {
    forall i, j :: 0 <= i < |profiles| && 0 <= j < |profiles| && i != j ==>
      !(Claims(profiles[i], path) && Claims(profiles[j], path))
  }

  /** Of two prefixes over the same path, the shorter one is over the longer one. */
  lemma UnderShared(a: string, b: string, path: string)
    requires Under(a, path) && Under(b, path) && |a| <= |b|
    ensures Under(a, b)
  {
    assert b == path[..|b|];
    if |a| < |b| {
      assert (a + "/") == path[..|a| + 1];
      assert (a + "/") <= b;
    }
  }

  /** A prefix is over itself, and over a longer path only up to a slash. */
  lemma ClaimsWholeSegments(p: Profile, rest: string)
    requires p.routePrefix != ""
    ensures Claims(p, p.routePrefix + rest) <==> rest == "" || rest[0] == '/'
    ensures forall path :: Claims(p, path) ==> p.routePrefix <= path
  {
    if rest != "" && rest[0] == '/' {
      assert p.routePrefix + rest == p.routePrefix + "/" + rest[1..];
    } else if rest != "" {
      assert (p.routePrefix + rest)[|p.routePrefix|] == rest[0];
    }
  }

  /** A path of one segment is claimed by its own prefix only. */
  lemma OneSegment(prefix: string, path: string)
    requires CheckRoutePrefix(prefix) && path != "" && '/' !in path[1..]
    ensures Under(prefix, path) <==> path == prefix
  {
    assert |prefix| < |path| ==> path[|prefix|] in path[1..];
  }

  /** No valid prefix takes the proxy's own two pages. */
  lemma OwnPagesStayFree(p: Profile)
    requires CheckRoutePrefix(p.routePrefix)
    ensures !Claims(p, "/healthz") && !Claims(p, "/status")
  {
    OneSegment(p.routePrefix, "/healthz");
    OneSegment(p.routePrefix, "/status");
  }

  /** What no prefix claims goes, unstripped, to the one firecrawl profile if the legacy fallback is on, and nowhere
      otherwise. */
  lemma UnclaimedGoesToFirecrawl(profiles: seq<Profile>, path: string, legacyFallback: bool, m: Match, i: nat)
    requires ValidPrefixes(profiles) && IsMatch(profiles, path, legacyFallback, m)
    requires i < |profiles| && forall j :: 0 <= j < |profiles| ==> (profiles[j].name == Firecrawl <==> j == i)
    requires forall j :: 0 <= j < |profiles| ==> !Claims(profiles[j], path)
    ensures m == if legacyFallback then Matched(i, path) else NoMatch
  {
    assert CatchAlls(profiles) == {};
    assert profiles[i] in Firecrawls(profiles);
  }

  /** Every path has at most one claimant exactly when no prefix lies over another. */
  lemma UnambiguousExactly(profiles: seq<Profile>)
    requires ValidPrefixes(profiles)
    ensures (forall path :: AtMostOneClaim(profiles, path)) <==> Disjoint(profiles)
  {
    if Disjoint(profiles) {
      forall path, i, j | 0 <= i < |profiles| && 0 <= j < |profiles| && i != j
                          && Claims(profiles[i], path) && Claims(profiles[j], path)
        ensures false
      {
        if |profiles[i].routePrefix| <= |profiles[j].routePrefix| {
          UnderShared(profiles[i].routePrefix, profiles[j].routePrefix, path);
        } else {
          UnderShared(profiles[j].routePrefix, profiles[i].routePrefix, path);
        }
      }
    } else {
      var i, j :| 0 <= i < |profiles| && 0 <= j < |profiles| && i != j
                  && Under(profiles[i].routePrefix, profiles[j].routePrefix);
      var path := profiles[j].routePrefix;
      assert Claims(profiles[i], path) && Claims(profiles[j], path);
      assert !AtMostOneClaim(profiles, path);
    }
  }

  /** The profile and the path a match stands for. */
  function Target(profiles: seq<Profile>, m: Match): Option<(Profile, string)>
    requires m.Matched? ==> m.index < |profiles|
  {
    if m.NoMatch? then None else Some((profiles[m.index], m.path))
  }

  /** With disjoint prefixes and one firecrawl profile, reordering the profiles changes no match. */
  lemma OrderDoesNotMatter(ps: seq<Profile>, qs: seq<Profile>, path: string, legacyFallback: bool, m: Match, n: Match)
    requires ValidPrefixes(ps) && Disjoint(ps) && ValidPrefixes(qs)
    requires forall p :: p in ps <==> p in qs
    requires forall p, q :: p in ps && q in ps && p.name == Firecrawl == q.name ==> p == q
    requires IsMatch(ps, path, legacyFallback, m) && IsMatch(qs, path, legacyFallback, n)
    ensures Target(ps, m) == Target(qs, n)
  {
    UnambiguousExactly(ps);
    assert AtMostOneClaim(ps, path);
    assert CatchAlls(ps) == {} && CatchAlls(qs) == {};
    assert Firecrawls(ps) == Firecrawls(qs);
    if i :| 0 <= i < |ps| && Claims(ps[i], path) {
      assert ps[i] in qs;
      assert qs[n.index] in ps;
      assert FirstClaim(ps, path, m.index) && FirstClaim(qs, path, n.index);
    } else {
      assert Unclaimed(ps, path);
      forall j | 0 <= j < |qs|
        ensures !Claims(qs[j], path)
      {
        assert qs[j] in ps;
      }
      if m.Matched? { assert ps[m.index] in Firecrawls(ps); }
      if n.Matched? { assert qs[n.index] in Firecrawls(qs); }
    }
  }

  /** What is stripped can be put back, except that the prefix itself stands for its root, and what is forwarded is a
      path. */
  lemma StrippingKeepsThePath(p: Profile, path: string)
    requires CheckRoutePrefix(p.routePrefix) && Claims(p, path)
    ensures if p.keepPrefix then Stripped(p, path) == path
            else p.routePrefix + Stripped(p, path) == if path == p.routePrefix then path + "/" else path
    ensures "/" <= Stripped(p, path)
  {
    if path != p.routePrefix {
      assert path[|p.routePrefix|] == (p.routePrefix + "/")[|p.routePrefix|];
    }
  }
}
