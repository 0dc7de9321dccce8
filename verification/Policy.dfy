/** What each provider's answers mean: rotate to another key, disable the key, or charge it. */
module Policy {
  import opened Base
  import opened JsonTree
  import opened RetryAfter

  /** Every name but the six listed follows the firecrawl rules. */
  datatype Provider = Firecrawl | Tavily | Apify | Exa | Fmp | AlphaVantage | Marketaux

  /** A response body: its text, its decoding if it is JSON, and its cost in micro-USD (-1 when it states none). */
  datatype Body = Body(text: string, json: Option<Json>, exaMicro: int64) {
    function Field(name: string): Option<Json> {
      if json.Some? && json.value.Obj? && name in json.value.fields then Some(json.value.fields[name]) else None
    }
  }

  /** The other providers' balances are only ever predicted from their budgets. */
  predicate HasBalanceEndpoint(p: Provider) {
    p in {Firecrawl, Tavily, Apify}
  }

  function Lower(s: string): string {
    seq(|s|, i requires 0 <= i < |s| => if 'A' <= s[i] <= 'Z' then s[i] - 'A' + 'a' else s[i])
  }

  predicate Contains(s: string, phrase: string) {
    exists i :: 0 <= i <= |s| && phrase <= s[i..]
  }

  const CREDIT_PHRASES: set<string> := {"insufficient credit", "payment required", "exceeded"}
  const REJECT_PHRASES: set<string> :=
    {"insufficient credit", "rate limit", "exceeded", "payment required", "unauthorized", "forbidden"}

  predicate Mentions(body: Body, phrases: set<string>) {
    exists phrase :: phrase in phrases && Contains(Lower(body.text), phrase)
  }

  /** A 4xx, or an envelope saying `"success": false`. */
  predicate FirecrawlFailure(status: int, body: Body) {
    400 <= status < 500 || body.Field("success") == Some(Bool(false))
  }

  /** Retried on the same key: an edge block, a timeout, or the upstream failing. */
  predicate Transient(status: int) {
    status in {403, 408, 500, 502, 503, 504}
  }

  predicate FmpIsRestrictedEndpoint(body: Body) {
    "Restricted Endpoint: This endpoint is not available" <= body.text
  }

  predicate AlphaVantageIsExhausted(body: Body) {
    Contains(body.text, "\"Note\"") || Contains(body.text, "\"Information\"")
  }

  predicate ShouldRotate(p: Provider, status: int, body: Body) {
    match p
    case Tavily => status in {401, 429, 432, 433}
    case Apify => status in {401, 402, 429}
    case Exa => status in {401, 402, 429}
    case Fmp => !(status == 402 && FmpIsRestrictedEndpoint(body)) && status in {401, 402, 429}
    case AlphaVantage => (status == 200 && AlphaVantageIsExhausted(body)) || status == 401
    case Marketaux => status in {401, 402, 429}
    case Firecrawl =>
      status in {402, 429, 401} || (FirecrawlFailure(status, body) && Mentions(body, REJECT_PHRASES))
  }

  predicate IsCreditExhausted(p: Provider, status: int, body: Body) {
    match p
    case Tavily => status == 432 || status == 433
    case Apify => status == 402
    case Exa => status == 402
    case Fmp => status == 429
    case AlphaVantage => status == 200 && AlphaVantageIsExhausted(body)
    case Marketaux => status == 402
    case Firecrawl =>
      if status == 402 then true
      else if status == 429 then false
      else FirecrawlFailure(status, body) && Mentions(body, CREDIT_PHRASES)
  }

  predicate IsDailyCappedFinance(p: Provider) {
    p == Fmp || p == AlphaVantage || p == Marketaux
  }

  function CreditsUsed(body: Body): int64 {
    match body.Field("creditsUsed")
    case Some(Num(text)) =>
      (match Atoi(text)
       case Some(n) => if n == 0 then -1 else n as int64
       case None => -1)
    case _ => -1
  }

  function CostOf(p: Provider, body: Body): int64 {
    if p == Exa then (if body.exaMicro > 0 then body.exaMicro else 0) else CreditsUsed(body)
  }

  // ---- Coherence ----

  /** Only an answer that rotates can disable a key, for every provider, status and body. */
  lemma ExhaustedImpliesRotate(p: Provider, status: int, body: Body)
    requires IsCreditExhausted(p, status, body)
    ensures ShouldRotate(p, status, body)
  {
    if p == Firecrawl && status != 402 {
      var phrase :| phrase in CREDIT_PHRASES && Contains(Lower(body.text), phrase);
      assert phrase in REJECT_PHRASES;
    }
  }

  /** Status by status: what rotates and what disables, for every provider and body. */
  lemma PolicyByStatus(p: Provider, status: int, body: Body)
    ensures ShouldRotate(p, status, body) <==>
            || status == 401
            || (status == 402 && p !in {Tavily, AlphaVantage} && !(p == Fmp && FmpIsRestrictedEndpoint(body)))
            || (status == 429 && p != AlphaVantage)
            || (status in {432, 433} && p == Tavily)
            || (status == 200 && p == AlphaVantage && AlphaVantageIsExhausted(body))
            || (p == Firecrawl && FirecrawlFailure(status, body) && Mentions(body, REJECT_PHRASES))
    ensures IsCreditExhausted(p, status, body) <==>
            || (status == 402 && p in {Firecrawl, Apify, Exa, Marketaux})
            || (status == 429 && p == Fmp)
            || (status in {432, 433} && p == Tavily)
            || (status == 200 && p == AlphaVantage && AlphaVantageIsExhausted(body))
            || (p == Firecrawl && status != 429 && FirecrawlFailure(status, body) && Mentions(body, CREDIT_PHRASES))
  {}

  /** A rate limit disables a key only where 429 is the daily cap itself. */
  lemma RateLimitDisablesOnlyFmp(p: Provider, body: Body)
    ensures ShouldRotate(p, 429, body) <==> p != AlphaVantage
    ensures IsCreditExhausted(p, 429, body) <==> p == Fmp
  {}

  /** A bad key always rotates, and is disabled exactly when a firecrawl body also speaks of credits. */
  lemma BadKeyDisablesExactly(p: Provider, body: Body)
    ensures ShouldRotate(p, 401, body)
    ensures IsCreditExhausted(p, 401, body) <==> p == Firecrawl && Mentions(body, CREDIT_PHRASES)
  {}

  /** An answer that can disable such a key despite being an authentication failure, whatever its letters' case. */
  lemma BadKeyCanBeDisabled()
    ensures IsCreditExhausted(Firecrawl, 401, Body("Quota EXCEEDED", None, -1))
  {
    var lower := Lower("Quota EXCEEDED");
    assert lower[6..] == "exceeded";
    assert Contains(lower, "exceeded");
  }

  /** Firecrawl content may say anything: with `"success": true` outside the 4xx range nothing rotates. */
  lemma SuccessNeverRotates(status: int, body: Body)
    requires !(400 <= status < 500) && body.Field("success") == Some(Bool(true))
    ensures !ShouldRotate(Firecrawl, status, body) && !IsCreditExhausted(Firecrawl, status, body)
  {}

  /** Left to itself the rotation rule does take a transient answer: a firecrawl 403 that says so. */
  lemma TransientCouldRotate(p: Provider, status: int, body: Body)
    requires Transient(status)
    ensures ShouldRotate(p, status, body) <==>
            p == Firecrawl && FirecrawlFailure(status, body) && Mentions(body, REJECT_PHRASES)
  {}

  /** Such an answer. */
  lemma EdgeBlockCouldRotate()
    ensures ShouldRotate(Firecrawl, 403, Body("forbidden", None, -1))
  {
    var text := "forbidden";
    assert Lower(text) == text && text[0..] == text;
    assert Contains(text, "forbidden");
  }

  // ---- What the bodies say ----

  /** Some stretch of the text reads, in lower case, as one of the phrases. */
  ghost predicate Reads(text: string, phrases: set<string>) {
    exists i, j :: 0 <= i <= j <= |text| && Lower(text[i..j]) in phrases
  }

  lemma LowerSlice(s: string, i: nat, j: nat)
    requires i <= j <= |s|
    ensures Lower(s[i..j]) == Lower(s)[i..j]
  {}

  lemma MentionsExactly(body: Body, phrases: set<string>)
    ensures Mentions(body, phrases) <==> Reads(body.text, phrases)
  {
    var text, lower := body.text, Lower(body.text);
    if phrase :| phrase in phrases && Contains(lower, phrase) {
      var i :| 0 <= i <= |lower| && phrase <= lower[i..];
      var j := i + |phrase|;
      LowerSlice(text, i, j);
      assert lower[i..j] == lower[i..][..|phrase|];
      assert Lower(text[i..j]) == phrase;
    }
    if i, j :| 0 <= i <= j <= |text| && Lower(text[i..j]) in phrases {
      LowerSlice(text, i, j);
      assert lower[i..][..j - i] == lower[i..j];
      assert Contains(lower, lower[i..j]);
    }
  }

  /** A firecrawl failure rotates exactly when its text has one of six phrases in any case, and disables the key exactly
      when it has one of the three about credits; a 2xx or 5xx answer is a failure only if its envelope says so. */
  lemma FailureTextDecides(status: int, body: Body)
    requires status !in {401, 402, 429}
    ensures var failed := 400 <= status < 500 || body.Field("success") == Some(Bool(false));
            && (ShouldRotate(Firecrawl, status, body) <==>
                failed && Reads(body.text, {"insufficient credit", "rate limit", "exceeded", "payment required",
                                            "unauthorized", "forbidden"}))
            && (IsCreditExhausted(Firecrawl, status, body) <==>
                failed && Reads(body.text, {"insufficient credit", "exceeded", "payment required"}))
  {
    MentionsExactly(body, REJECT_PHRASES);
    MentionsExactly(body, CREDIT_PHRASES);
    assert REJECT_PHRASES == {"insufficient credit", "rate limit", "exceeded", "payment required", "unauthorized",
                              "forbidden"};
    assert CREDIT_PHRASES == {"insufficient credit", "exceeded", "payment required"};
  }

  /** An FMP 402 rotates exactly when it does not start with the plan's refusal. */
  lemma PlanRefusalStays(body: Body)
    ensures ShouldRotate(Fmp, 402, body) <==>
            !(exists rest :: body.text == "Restricted Endpoint: This endpoint is not available" + rest)
  {
    var refusal := "Restricted Endpoint: This endpoint is not available";
    if refusal <= body.text {
      assert body.text == refusal + body.text[|refusal|..];
    }
  }

  lemma ContainsExactly(s: string, phrase: string)
    ensures Contains(s, phrase) <==> exists i, j :: 0 <= i <= j <= |s| && s[i..j] == phrase
  {
    if i :| 0 <= i <= |s| && phrase <= s[i..] {
      assert s[i..i + |phrase|] == s[i..][..|phrase|];
    }
    if i, j :| 0 <= i <= j <= |s| && s[i..j] == phrase {
      assert s[i..][..j - i] == s[i..j];
    }
  }

  /** An Alpha Vantage 200 disables the key exactly when one of the two notes stands anywhere in it. */
  lemma DailyNoteDisables(body: Body)
    ensures IsCreditExhausted(AlphaVantage, 200, body) <==>
            exists i, j :: 0 <= i <= j <= |body.text| && body.text[i..j] in {"\"Note\"", "\"Information\""}
  {
    ContainsExactly(body.text, "\"Note\"");
    ContainsExactly(body.text, "\"Information\"");
  }

  // ---- What an answer costs ----

  /** A stated number of credits is the cost for every provider but exa, and none stated is -1; exa states money. */
  lemma StatedCostCounts(p: Provider, body: Body, n: nat)
    requires 0 < n < 0x8000_0000_0000_0000
    ensures p != Exa && body.Field("creditsUsed") == Some(Num(Decimal(n))) ==> CostOf(p, body) == n as int64
    ensures p != Exa && (body.Field("creditsUsed").Some? ==> !body.Field("creditsUsed").value.Num?) ==>
              CostOf(p, body) == -1
    ensures p == Exa ==> CostOf(p, body) as int == Max(0, body.exaMicro as int)
  {
    NumberIsRead(n);
  }
}
