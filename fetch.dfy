/**
 * The resilient GET of `requisicao_segura`: default headers merged with the
 * caller's overrides, then up to `tentativas` attempts, each of which either
 * returns the response, gives up at once (a 4xx other than 429), or sleeps
 * `1.5 * i` seconds and tries again (429, 5xx, network error).
 *
 * The transport is replaced by the sequence of outcomes the server would give
 * to attempts 1, 2, ...; sleeping is replaced by recording the requested
 * durations.
 */
module Fetch {
  import opened Wrappers

  type Headers = map<string, string>

  const UserAgent: string :=
    "Mozilla/5.0 (Windows NT 10.0; Win64; x64) AppleWebKit/537.36 "
    + "(KHTML, like Gecko) Chrome/121.0.0.0 Safari/537.36"

  /** The process-wide `DEFAULT_HEADERS`. */
  const DefaultHeaders: Headers :=
    map["User-Agent" := UserAgent, "Accept-Language" := "pt-PT,pt;q=0.9,en;q=0.8"]

  /** What the server does with one GET: answers with a status and a body, or fails at network level. */
  datatype Outcome = Reply(status: int, body: string) | NetworkError

  /** A response handed back to the caller, with the text encoding forced to UTF-8. */
  datatype Response = Response(status: int, text: string, encoding: string)

  /** The arguments of one GET: its 1-based attempt number, the URL, the headers passed and the timeout. */
  datatype Request = Request(attempt: nat, url: string, headers: Headers, timeout: int)

  /** Everything one call does: what it returns, the GETs it issues and the sleeps it asks for, in order. */
  datatype Trace = Trace(result: Option<Response>, requests: seq<Request>, sleeps: seq<real>)

  /** How one attempt's outcome steers the loop. */
  datatype Decision = Accept | GiveUp | Retry

  /** `dict(base)` followed by `update(overrides)`. */
  function Merge(base: Headers, overrides: Headers): (r: Headers)
    ensures r.Keys == base.Keys + overrides.Keys
    ensures forall k :: k in overrides ==> r[k] == overrides[k]
    ensures forall k :: k in base && k !in overrides ==> r[k] == base[k]
  {
    base + overrides
  }

  /**
   * The headers every attempt sends. The source overlays the overrides only
   * when they are present and non-empty; overlaying nothing changes nothing,
   * so this is the merge of the defaults with whatever overrides there are.
   */
  function RequestHeaders(headers: Option<Headers>): (r: Headers)
    ensures r == Merge(DefaultHeaders, headers.GetOr(map[]))
    ensures DefaultHeaders.Keys <= r.Keys
  {
    match headers
    case Some(h) => if h != map[] then Merge(DefaultHeaders, h) else DefaultHeaders
    case None => DefaultHeaders
  }

  /**
   * The decision for one outcome: a 4xx other than 429 is definitive; 429 and
   * 5xx make `raise_for_status` raise and are retried, as are network errors;
   * any other status (below 400, or 600 and above, for which
   * `raise_for_status` does not raise) is returned.
   */
  function Classify(o: Outcome): (d: Decision)
    ensures d == GiveUp <==> o.Reply? && 400 <= o.status < 500 && o.status != 429
    ensures d == Retry <==> o.NetworkError? || o.status == 429 || 500 <= o.status < 600
    ensures d == Accept <==> o.Reply? && (o.status < 400 || 600 <= o.status)
  {
    match o
    case NetworkError => Retry
    case Reply(status, _) =>
      if 400 <= status < 500 && status != 429 then GiveUp
      else if 400 <= status < 600 then Retry
      else Accept
  }

  /** The number of attempts `range(1, tentativas + 1)` runs. */
  function Budget(tentativas: int): (n: nat)
    ensures tentativas >= 0 ==> n == tentativas
    ensures tentativas < 0 ==> n == 0
  {
    if tentativas < 0 then 0 else tentativas
  }

  /** The length of the run of transient outcomes at the front of `s`. */
  function LeadingTransient(s: seq<Outcome>): (k: nat)
    ensures k <= |s|
    ensures forall j :: 0 <= j < k ==> Classify(s[j]) == Retry
    ensures k < |s| ==> Classify(s[k]) != Retry
  {
    if s == [] || Classify(s[0]) != Retry then 0 else 1 + LeadingTransient(s[1..])
  }

  /** The GETs of attempts 1..m, all with the same URL, headers and timeout. */
  function Requests(url: string, headers: Headers, timeout: int, m: nat): seq<Request> {
    seq(m, j requires 0 <= j < m => Request(j + 1, url, headers, timeout))
  }

  /** The sleeps after the first k attempts: 1.5, 3.0, 4.5, ... seconds. */
  function Backoff(k: nat): seq<real> {
    seq(k, j requires 0 <= j < k => 1.5 * ((j + 1) as real))
  }

  /**
   * Reference definition of what a call returns: let k be the number of
   * transient outcomes in a row among the first `Budget(tentativas)`. When the
   * budget is not used up by them, outcome k + 1 decides, and it is returned
   * when it is accepted; otherwise nothing is returned.
   */
  function FetchResult(tentativas: int, outcomes: seq<Outcome>): Option<Response>
    requires tentativas <= |outcomes|
  {
    var n := Budget(tentativas);
    var k := LeadingTransient(outcomes[..n]);
    if k < n && Classify(outcomes[k]) == Accept then Some(Response(outcomes[k].status, outcomes[k].body, "utf-8"))
    else None
  }

  /**
   * Reference definition of a whole call: if the transient run uses up the
   * budget, every attempt was made and slept after; otherwise attempt k + 1 is
   * the last one made and did not sleep.
   */
  function FetchTrace(url: string, timeout: int, tentativas: int, headers: Option<Headers>, outcomes: seq<Outcome>): Trace
    requires tentativas <= |outcomes|
  {
    var n := Budget(tentativas);
    var k := LeadingTransient(outcomes[..n]);
    var made := if k == n then n else k + 1;
    Trace(FetchResult(tentativas, outcomes), Requests(url, RequestHeaders(headers), timeout, made), Backoff(k))
  }

  /** `requisicao_segura(url, timeout=timeout, tentativas=tentativas, headers=headers)`. */
  method SafeRequest(url: string, timeout: int, tentativas: int, headers: Option<Headers>, outcomes: seq<Outcome>)
    returns (resp: Option<Response>, requests: seq<Request>, sleeps: seq<real>)
    requires tentativas <= |outcomes|
    ensures Trace(resp, requests, sleeps) == FetchTrace(url, timeout, tentativas, headers, outcomes)
    ensures resp == FetchResult(tentativas, outcomes)
  {
    var hdrs := DefaultHeaders;
    if headers.Some? && headers.value != map[] {
      hdrs := hdrs + headers.value;
    }
    ghost var n := Budget(tentativas);
    resp, requests, sleeps := None, [], [];
    var i := 1;
    while i <= tentativas
      invariant 1 <= i <= n + 1
      invariant hdrs == RequestHeaders(headers)
      invariant requests == Requests(url, hdrs, timeout, i - 1)
      invariant sleeps == Backoff(i - 1)
      invariant forall j :: 0 <= j < i - 1 ==> Classify(outcomes[j]) == Retry
      invariant resp == None
    {
      var o := outcomes[i - 1];
      RequestsSnoc(url, hdrs, timeout, i - 1);
      requests := requests + [Request(i, url, hdrs, timeout)];
      if o.Reply? {
        if 400 <= o.status < 500 && o.status != 429 {
          StopsAt(url, timeout, tentativas, headers, outcomes, i);
          return None, requests, sleeps;
        }
        if !(400 <= o.status < 600) {
          StopsAt(url, timeout, tentativas, headers, outcomes, i);
          return Some(Response(o.status, o.body, "utf-8")), requests, sleeps;
        }
      }
      BackoffSnoc(i - 1);
      sleeps := sleeps + [1.5 * (i as real)];
      i := i + 1;
    }
    LeadingTransientIs(outcomes[..n], n);
  }

  /** One more GET extends the list of GETs by the next attempt. */
  lemma RequestsSnoc(url: string, headers: Headers, timeout: int, m: nat)
    ensures Requests(url, headers, timeout, m) + [Request(m + 1, url, headers, timeout)]
         == Requests(url, headers, timeout, m + 1)
  {
  }

  /** One more sleep extends the back-off by the next delay. */
  lemma BackoffSnoc(k: nat)
    ensures Backoff(k) + [1.5 * ((k + 1) as real)] == Backoff(k + 1)
  {
  }

  /** The whole call when attempt i is the first whose outcome is not transient. */
  lemma StopsAt(url: string, timeout: int, tentativas: int, headers: Option<Headers>, outcomes: seq<Outcome>, i: nat)
    requires 1 <= i <= tentativas <= |outcomes|
    requires forall j :: 0 <= j < i - 1 ==> Classify(outcomes[j]) == Retry
    requires Classify(outcomes[i - 1]) != Retry
    ensures FetchTrace(url, timeout, tentativas, headers, outcomes)
         == Trace(if Classify(outcomes[i - 1]) == Accept
                  then Some(Response(outcomes[i - 1].status, outcomes[i - 1].body, "utf-8"))
                  else None,
                  Requests(url, RequestHeaders(headers), timeout, i), Backoff(i - 1))
  {
    LeadingTransientIs(outcomes[..tentativas], i - 1);
  }

  /** The transient run has exactly length k when the first k outcomes are transient and the next, if any, is not. */
  lemma LeadingTransientIs(s: seq<Outcome>, k: nat)
    requires k <= |s|
    requires forall j :: 0 <= j < k ==> Classify(s[j]) == Retry
    requires k < |s| ==> Classify(s[k]) != Retry
    ensures LeadingTransient(s) == k
  {
  }

  // ---------------------------------------------------------------------------
  // What a call promises, stated on the reference definition
  // ---------------------------------------------------------------------------

  /** Merging keeps every default key and every override key, and an override wins on collision. */
  lemma MergeExample()
    ensures Merge(map["User-Agent" := "A", "Accept-Language" := "pt"], map["User-Agent" := "B"])
         == map["User-Agent" := "B", "Accept-Language" := "pt"]
  {
  }

  /** Every GET of a call carries the merged headers, the URL and the timeout, and they are numbered 1, 2, ... */
  lemma RequestsCarryMergedHeaders(url: string, timeout: int, tentativas: int, headers: Option<Headers>, outcomes: seq<Outcome>)
    requires tentativas <= |outcomes|
    ensures var t := FetchTrace(url, timeout, tentativas, headers, outcomes);
      forall j :: 0 <= j < |t.requests| ==>
        t.requests[j] == Request(j + 1, url, Merge(DefaultHeaders, headers.GetOr(map[])), timeout)
  {
  }

  /** A 4xx other than 429 on attempt i ends the call with nothing after exactly i GETs; only the i - 1 earlier attempts slept. */
  lemma ClientErrorIsDefinitive(url: string, timeout: int, tentativas: int, headers: Option<Headers>, outcomes: seq<Outcome>, i: nat)
    requires 1 <= i <= tentativas <= |outcomes|
    requires forall j :: 0 <= j < i - 1 ==> Classify(outcomes[j]) == Retry
    requires outcomes[i - 1].Reply? && 400 <= outcomes[i - 1].status < 500 && outcomes[i - 1].status != 429
    ensures var t := FetchTrace(url, timeout, tentativas, headers, outcomes);
      t.result == None && |t.requests| == i && t.sleeps == Backoff(i - 1)
  {
    LeadingTransientIs(outcomes[..Budget(tentativas)], i - 1);
  }

  /** In particular a 4xx other than 429 on the first attempt: one GET, no sleep, nothing returned. */
  lemma FirstClientErrorStopsAtOnce(url: string, timeout: int, tentativas: int, headers: Option<Headers>, outcomes: seq<Outcome>)
    requires 1 <= tentativas <= |outcomes|
    requires outcomes[0].Reply? && 400 <= outcomes[0].status < 500 && outcomes[0].status != 429
    ensures FetchTrace(url, timeout, tentativas, headers, outcomes)
         == Trace(None, [Request(1, url, RequestHeaders(headers), timeout)], [])
  {
    ClientErrorIsDefinitive(url, timeout, tentativas, headers, outcomes, 1);
  }

  /** A status below 400 (or of 600 and above) on attempt i is returned as is; no later attempt is made. */
  lemma AcceptedIsReturned(url: string, timeout: int, tentativas: int, headers: Option<Headers>, outcomes: seq<Outcome>, i: nat)
    requires 1 <= i <= tentativas <= |outcomes|
    requires forall j :: 0 <= j < i - 1 ==> Classify(outcomes[j]) == Retry
    requires Classify(outcomes[i - 1]) == Accept
    ensures var t := FetchTrace(url, timeout, tentativas, headers, outcomes);
      t.result == Some(Response(outcomes[i - 1].status, outcomes[i - 1].body, "utf-8"))
      && |t.requests| == i && t.sleeps == Backoff(i - 1)
  {
    LeadingTransientIs(outcomes[..Budget(tentativas)], i - 1);
  }

  /**
   * When every attempt is transient, exactly `tentativas` GETs are made, each
   * followed by a sleep of 1.5 times its number (the last one included), and
   * nothing is returned.
   */
  lemma AllTransientExhausts(url: string, timeout: int, tentativas: int, headers: Option<Headers>, outcomes: seq<Outcome>)
    requires 0 <= tentativas <= |outcomes|
    requires forall j :: 0 <= j < tentativas ==> Classify(outcomes[j]) == Retry
    ensures var t := FetchTrace(url, timeout, tentativas, headers, outcomes);
      t.result == None && |t.requests| == tentativas && |t.sleeps| == tentativas
      && forall j :: 0 <= j < tentativas ==> t.sleeps[j] == 1.5 * ((j + 1) as real)
  {
    LeadingTransientIs(outcomes[..tentativas], tentativas);
  }

  /** With `tentativas <= 0` the loop never runs: no GET, no sleep, nothing returned. */
  lemma NoBudgetNoRequest(url: string, timeout: int, tentativas: int, headers: Option<Headers>, outcomes: seq<Outcome>)
    requires tentativas <= 0
    ensures FetchTrace(url, timeout, tentativas, headers, outcomes) == Trace(None, [], [])
  {
  }

  /**
   * For every call: at most `tentativas` GETs; a sleep follows each transient
   * attempt, so there are as many sleeps as GETs or one fewer; a returned
   * response is the answer to the last GET, which did not sleep; and every
   * attempt before the last was transient.
   */
  lemma TraceShape(url: string, timeout: int, tentativas: int, headers: Option<Headers>, outcomes: seq<Outcome>)
    requires tentativas <= |outcomes|
    ensures var t := FetchTrace(url, timeout, tentativas, headers, outcomes);
      |t.requests| <= Budget(tentativas)
      && (|t.sleeps| == |t.requests| || |t.sleeps| + 1 == |t.requests|)
      && (forall j :: 0 <= j < |t.sleeps| ==> t.sleeps[j] == 1.5 * ((j + 1) as real))
      && (forall j :: 0 <= j < |t.requests| - 1 ==> Classify(outcomes[j]) == Retry)
      && (|t.sleeps| == |t.requests| ==> t.result == None)
      && (t.result.Some? ==>
            var last := outcomes[|t.requests| - 1];
            |t.requests| >= 1 && |t.sleeps| + 1 == |t.requests|
            && Classify(last) == Accept && t.result.value == Response(last.status, last.body, "utf-8"))
  {
  }
}
