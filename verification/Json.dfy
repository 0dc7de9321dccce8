/** Decoded JSON as a value, and the rewriting of its `next` links as a function on it. */
module JsonTree {
  import opened Base

  datatype Json =
    | Null
    | Bool(b: bool)
    | Num(text: string)
    | Str(s: string)
    | Arr(items: seq<Json>)
    | Obj(fields: map<string, Json>)

  /** An absolute URL; `rest` is everything but scheme and host. */
  datatype Url = Url(scheme: string, host: string, rest: string)

  /** URL parsing and printing, whatever they are. */
  datatype UrlCodec = UrlCodec(parse: string -> Option<Url>, render: Url -> string)

  datatype Target = Target(codec: UrlCodec, proxyBase: string, upstreamHost: string) {
    function RewriteOne(s: string): Option<string> {
      match codec.parse(s)
      case None => None
      case Some(u) =>
        if u.host == "" || (u.scheme != "http" && u.scheme != "https") then None
        else if u.host != upstreamHost then None
        else
          match codec.parse(proxyBase)
          case None => None
          case Some(base) =>
            if base.host == "" then None
            else Some(codec.render(u.(scheme := base.scheme, host := base.host)))
    }

    function Rewrite(v: Json): Json
      decreases v, 0
    {
      match v
      case Obj(fields) =>
        Obj(map k | k in fields :: RewriteField(k, fields[k]))
      case Arr(items) =>
        Arr(seq(|items|, i requires 0 <= i < |items| => Rewrite(items[i])))
      case _ => v
    }

    function RewriteField(k: string, v: Json): Json
      decreases v, 1
    {
      if k == "next" && v.Str? && RewriteOne(v.s).Some? then Str(RewriteOne(v.s).value) else Rewrite(v)
    }

    /** Some `next` link in the tree gets rewritten. */
    predicate Touches(v: Json)
      decreases v, 0
    {
      match v
      case Obj(fields) => exists k :: k in fields && TouchesField(k, fields[k])
      case Arr(items) => exists i :: 0 <= i < |items| && Touches(items[i])
      case _ => false
    }

    predicate TouchesField(k: string, v: Json)
      decreases v, 1
    {
      (k == "next" && v.Str? && RewriteOne(v.s).Some?) || Touches(v)
    }

    /** The value at `path` is a string under a key `next` that `RewriteOne` accepts. */
    ghost predicate Eligible(v: Json, path: Path) {
      && path != [] && path[|path| - 1] == Key("next")
      && Lookup(v, path).Some? && Lookup(v, path).value.Str?
      && RewriteOne(Lookup(v, path).value.s).Some?
    }
  }

  /** Where a value sits in a tree. */
  datatype Step = Key(name: string) | Index(i: nat)
  type Path = seq<Step>

  function Child(v: Json, step: Step): Option<Json> {
    match step
    case Key(k) => if v.Obj? && k in v.fields then Some(v.fields[k]) else None
    case Index(i) => if v.Arr? && i < |v.items| then Some(v.items[i]) else None
  }

  function Lookup(v: Json, path: Path): Option<Json>
    decreases |path|
  {
    if path == [] then Some(v)
    else if Child(v, path[0]).None? then None
    else Lookup(Child(v, path[0]).value, path[1..])
  }

  /** A link is accepted exactly when it is an http(s) URL on the upstream host; only scheme and host change. */
  lemma RewriteOneReplacesOrigin(t: Target, s: string)
    ensures var u, base := t.codec.parse(s), t.codec.parse(t.proxyBase);
            && (t.RewriteOne(s).Some? <==>
                && u.Some? && u.value.scheme in {"http", "https"} && u.value.host == t.upstreamHost != ""
                && base.Some? && base.value.host != "")
            && (t.RewriteOne(s).Some? ==>
                t.RewriteOne(s).value == t.codec.render(Url(base.value.scheme, base.value.host, u.value.rest)))
  {}

  lemma RewriteChild(t: Target, v: Json, step: Step)
    ensures Child(t.Rewrite(v), step) ==
            match Child(v, step)
            case None => None
            case Some(c) => Some(if step.Key? then t.RewriteField(step.name, c) else t.Rewrite(c))
  {
    match v
    case Obj(fields) =>
      assert t.Rewrite(v).fields.Keys == fields.Keys;
    case Arr(items) =>
      assert |t.Rewrite(v).items| == |items|;
    case _ =>
  }

  /** Position by position, for every tree: an eligible link is replaced and everything else is what it was. */
  lemma {:induction false} RewriteIsExact(t: Target, v: Json, path: Path)
    ensures var before, after := Lookup(v, path), Lookup(t.Rewrite(v), path);
            if before.None? then after.None?
            else if t.Eligible(v, path) then after == Some(Str(t.RewriteOne(before.value.s).value))
            else if before.value.Obj? then
              after.Some? && after.value.Obj? && after.value.fields.Keys == before.value.fields.Keys
            else if before.value.Arr? then
              after.Some? && after.value.Arr? && |after.value.items| == |before.value.items|
            else after == before
    decreases |path|
  {
    if path != [] {
      var step, rest := path[0], path[1..];
      var child := Child(v, step);
      if child.Some? {
        RewriteChild(t, v, step);
        if t.Rewrite(child.value) == Child(t.Rewrite(v), step).value {
          RewriteIsExact(t, child.value, rest);
          if rest == [] {
            assert path[|path| - 1] == step;
          } else {
            assert path[|path| - 1] == rest[|rest| - 1];
          }
        } else {
          assert step == Key("next") && child.value.Str?;
          if rest == [] { assert Lookup(v, path) == Some(child.value); }
        }
      }
    }
  }

  lemma {:induction false} TouchedAtPath(t: Target, v: Json) returns (path: Path)
    requires t.Touches(v)
    ensures t.Eligible(v, path)
    decreases v
  {
    if v.Obj? {
      var k :| k in v.fields && t.TouchesField(k, v.fields[k]);
      if t.Touches(v.fields[k]) {
        var rest := TouchedAtPath(t, v.fields[k]);
        path := [Key(k)] + rest;
        assert path[1..] == rest;
      } else {
        path := [Key(k)];
        assert Lookup(v, path) == Lookup(v.fields[k], []);
      }
    } else {
      var i :| 0 <= i < |v.items| && t.Touches(v.items[i]);
      var rest := TouchedAtPath(t, v.items[i]);
      path := [Index(i)] + rest;
      assert path[1..] == rest;
    }
  }

  lemma {:induction false} PathTouches(t: Target, v: Json, path: Path)
    requires t.Eligible(v, path)
    ensures t.Touches(v)
    decreases |path|
  {
    var child := Child(v, path[0]).value;
    if |path| == 1 {
      assert Lookup(child, path[1..]) == Some(child);
      assert t.TouchesField("next", child);
    } else {
      assert path[1..][|path| - 2] == path[|path| - 1];
      PathTouches(t, child, path[1..]);
      if path[0].Key? { assert t.TouchesField(path[0].name, child); }
    }
  }

  /** A change is reported exactly when some position of the tree holds an eligible link. */
  lemma TouchesIffEligible(t: Target, v: Json)
    ensures t.Touches(v) <==> exists path :: t.Eligible(v, path)
  {
    if t.Touches(v) {
      var path := TouchedAtPath(t, v);
    }
    if path :| t.Eligible(v, path) {
      PathTouches(t, v, path);
    }
  }

  /** A tree without eligible links is returned as it is. */
  lemma {:induction false} UntouchedIsUnchanged(t: Target, v: Json)
    requires !t.Touches(v)
    ensures t.Rewrite(v) == v
    decreases v
  {
    match v
    case Obj(fields) =>
      forall k | k in fields
        ensures t.RewriteField(k, fields[k]) == fields[k]
      {
        assert !t.TouchesField(k, fields[k]);
        UntouchedIsUnchanged(t, fields[k]);
      }
      assert t.Rewrite(v).fields == fields;
    case Arr(items) =>
      forall i | 0 <= i < |items|
        ensures t.Rewrite(items[i]) == items[i]
      {
        UntouchedIsUnchanged(t, items[i]);
      }
      assert t.Rewrite(v).items == items;
    case _ =>
  }

  /** A rewritten link, printed and parsed again, is on the proxy: what the code needs of its URL library. */
  ghost predicate KeepsOrigin(t: Target) {
    forall s :: t.RewriteOne(s).Some? ==>
      var again, base := t.codec.parse(t.RewriteOne(s).value), t.codec.parse(t.proxyBase);
      again.Some? && again.value.scheme == base.value.scheme && again.value.host == base.value.host
  }

  /** The proxy's own links are not upstream links. */
  predicate LeavesUpstream(t: Target) {
    var base := t.codec.parse(t.proxyBase);
    base.Some? ==> base.value.host != t.upstreamHost || (base.value.scheme != "http" && base.value.scheme != "https")
  }

  lemma RewrittenLink(t: Target, s: string)
    requires KeepsOrigin(t) && t.RewriteOne(s).Some?
    ensures t.RewriteOne(t.RewriteOne(s).value).Some? <==> !LeavesUpstream(t)
  {}

  lemma {:induction false} OnePassSettles(t: Target, v: Json)
    requires KeepsOrigin(t) && LeavesUpstream(t)
    ensures !t.Touches(t.Rewrite(v))
    decreases v
  {
    match v
    case Obj(fields) =>
      var after := t.Rewrite(v).fields;
      forall k | k in after
        ensures !t.TouchesField(k, after[k])
      {
        assert after[k] == t.RewriteField(k, fields[k]);
        OnePassSettles(t, fields[k]);
        if k == "next" && fields[k].Str? && t.RewriteOne(fields[k].s).Some? {
          RewrittenLink(t, fields[k].s);
        }
      }
    case Arr(items) =>
      forall i | 0 <= i < |items|
        ensures !t.Touches(t.Rewrite(items[i]))
      {
        OnePassSettles(t, items[i]);
      }
    case _ =>
  }

  lemma OneLinkStays(t: Target, v: Json)
    requires KeepsOrigin(t) && !LeavesUpstream(t) && t.Touches(v)
    ensures t.Touches(t.Rewrite(v))
  {
    var path := TouchedAtPath(t, v);
    RewriteIsExact(t, v, path);
    RewrittenLink(t, Lookup(v, path).value.s);
    PathTouches(t, t.Rewrite(v), path);
  }

  /** A second pass reports no change, and makes none, exactly when the proxy's links are not upstream links. */
  lemma SecondPassIsIdle(t: Target, v: Json)
    requires KeepsOrigin(t) && t.Touches(v)
    ensures !t.Touches(t.Rewrite(v)) <==> LeavesUpstream(t)
    ensures LeavesUpstream(t) ==> t.Rewrite(t.Rewrite(v)) == t.Rewrite(v)
  {
    if LeavesUpstream(t) {
      OnePassSettles(t, v);
      UntouchedIsUnchanged(t, t.Rewrite(v));
    } else {
      OneLinkStays(t, v);
    }
  }

  // ---- A codec for plain links, and a proxy on the upstream host ----

  /** The first slash at or after `k`, or the end. */
  function SlashFrom(s: string, k: nat): (end: nat)
    requires k <= |s|
    ensures k <= end <= |s|
    ensures '/' !in s[k..end] && (end < |s| ==> s[end] == '/')
    decreases |s| - k
  {
    if k == |s| || s[k] == '/' then k else SlashFrom(s, k + 1)
  }

  function ParsePlain(s: string): Option<Url> {
    if "http://" <= s then
      var end := SlashFrom(s, 7);
      Some(Url("http", s[7..end], s[end..]))
    else if "https://" <= s then
      var end := SlashFrom(s, 8);
      Some(Url("https", s[8..end], s[end..]))
    else None
  }

  function RenderPlain(u: Url): string {
    u.scheme + "://" + u.host + u.rest
  }

  const PLAIN: UrlCodec := UrlCodec(ParsePlain, RenderPlain)

  /** Where the first slash is, once a stretch without slashes is known to be followed by one or to end the string. */
  lemma {:induction false} SlashFollows(s: string, k: nat, end: nat)
    requires k <= end <= |s| && '/' !in s[k..end] && (end < |s| ==> s[end] == '/')
    ensures SlashFrom(s, k) == end
    decreases end - k
  {
    if k < end {
      assert s[k] == s[k..end][0];
      assert s[k + 1..end] == s[k..end][1..];
      SlashFollows(s, k + 1, end);
    }
  }

  predicate IsPlain(u: Url) {
    u.scheme in {"http", "https"} && '/' !in u.host && (u.rest == "" || u.rest[0] == '/')
  }

  lemma ParsedIsPlain(s: string)
    ensures ParsePlain(s).Some? ==> IsPlain(ParsePlain(s).value)
  {}

  lemma RenderedIsParsed(u: Url)
    requires IsPlain(u)
    ensures ParsePlain(RenderPlain(u)) == Some(u)
  {
    var s := RenderPlain(u);
    var k, end := |u.scheme| + 3, |u.scheme| + 3 + |u.host|;
    assert s[..k] == u.scheme + "://" && s[k..end] == u.host && s[end..] == u.rest;
    assert u.scheme == "https" ==> s[4] == 's';
    SlashFollows(s, k, end);
  }

  /** Plain links keep their origin, whatever the proxy and the upstream host. */
  lemma PlainKeepsOrigin(proxyBase: string, upstreamHost: string)
    ensures KeepsOrigin(Target(PLAIN, proxyBase, upstreamHost))
  {
    var t := Target(PLAIN, proxyBase, upstreamHost);
    forall s | t.RewriteOne(s).Some?
      ensures ParsePlain(t.RewriteOne(s).value).Some?
      ensures var again, base := ParsePlain(t.RewriteOne(s).value).value, ParsePlain(proxyBase).value;
              again.scheme == base.scheme && again.host == base.host
    {
      var u, base := ParsePlain(s).value, ParsePlain(proxyBase).value;
      ParsedIsPlain(s);
      ParsedIsPlain(proxyBase);
      RenderedIsParsed(u.(scheme := base.scheme, host := base.host));
    }
  }

  /** A proxy reached under the upstream's own host reports a change on every pass. */
  lemma OwnHostNeverSettles()
    ensures var t, page := Target(PLAIN, "http://api", "api"), Obj(map["next" := Str("http://api/p")]);
            && KeepsOrigin(t) && !LeavesUpstream(t)
            && t.Touches(page) && t.Rewrite(page) == page && t.Touches(t.Rewrite(page))
  {
    var t, page := Target(PLAIN, "http://api", "api"), Obj(map["next" := Str("http://api/p")]);
    PlainKeepsOrigin("http://api", "api");
    RenderedIsParsed(Url("http", "api", ""));
    RenderedIsParsed(Url("http", "api", "/p"));
    assert RenderPlain(Url("http", "api", "")) == "http://api";
    assert RenderPlain(Url("http", "api", "/p")) == "http://api/p";
    assert t.RewriteOne("http://api/p") == Some("http://api/p");
    assert t.TouchesField("next", page.fields["next"]);
    assert t.Rewrite(page).fields == page.fields;
  }
}
