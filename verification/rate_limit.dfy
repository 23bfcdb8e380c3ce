/** The fixed-window rate limiters of the public endpoints
    (app/api/questions/route.ts and app/api/questions/regenerate/route.ts),
    and the derivation of the client key they are indexed by. The clock is
    an explicit parameter, in milliseconds. */
module RateLimit {
  import opened Wrappers
  import opened Text

  /** A window length in milliseconds and the number of requests admitted in
      one window. */
  datatype Policy = Policy(windowMs: nat, ceiling: nat)

  /** 100 requests per 15 minutes, for question submission. */
  const GeneralPolicy := Policy(15 * 60 * 1000, 100)
  /** 5 submissions per hour. */
  const SubmissionPolicy := Policy(60 * 60 * 1000, 5)
  /** 10 grammar corrections per 15 minutes. */
  const RegenerationPolicy := Policy(15 * 60 * 1000, 10)

  /** The requests counted in the current window and when it began. */
  datatype Entry = Entry(count: int, lastReset: int)

  type Counters = map<string, Entry>

  datatype Step = Step(counters: Counters, admitted: bool)

  /** The window of `e` is over only once STRICTLY more than its length has
      elapsed. */
  predicate Expired(e: Entry, now: int, p: Policy) {
    now - e.lastReset > p.windowMs
  }

  /** One request from `key` at `now`. An unknown key or an expired window
      starts a new window holding this request; otherwise the request is
      admitted and counted while the count is below the ceiling, and
      rejected, with nothing changed, once it is not. No other key is
      touched. */
  function Check(c: Counters, key: string, now: int, p: Policy): (r: Step)
    ensures r.admitted <==> key !in c || Expired(c[key], now, p) || c[key].count < p.ceiling
    ensures !r.admitted ==> r.counters == c
    ensures r.admitted ==> key in r.counters && r.counters == c[key := r.counters[key]]
    ensures r.admitted && (key !in c || Expired(c[key], now, p)) ==> r.counters[key] == Entry(1, now)
    ensures r.admitted && key in c && !Expired(c[key], now, p) ==>
      r.counters[key] == c[key].(count := c[key].count + 1)
  {
    if key !in c || Expired(c[key], now, p) then
      Step(c[key := Entry(1, now)], true)
    else if c[key].count >= p.ceiling then
      Step(c, false)
    else
      Step(c[key := c[key].(count := c[key].count + 1)], true)
  }

  /** Every counter lies between 1 and the ceiling. */
  ghost predicate Bounded(c: Counters, p: Policy) {
    forall k :: k in c ==> 1 <= c[k].count <= p.ceiling
  }

  /** A check never lets a counter pass the ceiling. */
  lemma CheckKeepsBounded(c: Counters, key: string, now: int, p: Policy)
    requires p.ceiling >= 1
    requires Bounded(c, p)
    ensures Bounded(Check(c, key, now, p).counters, p)
  {
  }

  /** The same key asking at each of `times` in turn: the final counters and
      the verdict of each request. */
  function Run(c: Counters, key: string, times: seq<int>, p: Policy): (r: (Counters, seq<bool>))
    ensures |r.1| == |times|
    decreases |times|
  {
    if times == [] then (c, [])
    else
      var s := Check(c, key, times[0], p);
      var rest := Run(s.counters, key, times[1..], p);
      (rest.0, [s.admitted] + rest.1)
  }

  /** Inside one window that began at `start` with `count` requests counted,
      the i-th further request is admitted iff `count + i` is still below the
      ceiling, and the count saturates at the ceiling. */
  lemma {:induction false} RunInWindow(c: Counters, key: string, times: seq<int>, p: Policy, count: int)
    requires key in c && c[key].count == count && 1 <= count <= p.ceiling
    requires forall i :: 0 <= i < |times| ==> times[i] - c[key].lastReset <= p.windowMs
    ensures var r := Run(c, key, times, p);
      && (forall i :: 0 <= i < |times| ==> (r.1[i] <==> count + i < p.ceiling))
      && key in r.0
      && r.0[key] == Entry(if count + |times| <= p.ceiling then count + |times| else p.ceiling, c[key].lastReset)
    decreases |times|
  {
    if times != [] {
      var s := Check(c, key, times[0], p);
      var next := if count < p.ceiling then count + 1 else count;
      assert s.counters[key] == Entry(next, c[key].lastReset);
      RunInWindow(s.counters, key, times[1..], p, next);
      var r := Run(c, key, times, p);
      var rest := Run(s.counters, key, times[1..], p);
      assert r.1 == [s.admitted] + rest.1;
      forall i | 1 <= i < |times|
        ensures r.1[i] <==> count + i < p.ceiling
      {
        assert r.1[i] == rest.1[i - 1];
        assert times[1..][i - 1] == times[i];
      }
    }
  }

  /** For a key with no counter, the requests of one window (all within the
      window length of the first) are admitted for the first `ceiling` of
      them and rejected from the `ceiling + 1`-th on. */
  lemma FreshKeyWindow(c: Counters, key: string, times: seq<int>, p: Policy)
    requires key !in c && |times| > 0 && p.ceiling >= 1
    requires forall i :: 0 <= i < |times| ==> times[i] - times[0] <= p.windowMs
    ensures forall i :: 0 <= i < |times| ==> (Run(c, key, times, p).1[i] <==> i < p.ceiling)
  {
    var s := Check(c, key, times[0], p);
    assert s.counters[key] == Entry(1, times[0]);
    forall i | 0 <= i < |times| - 1
      ensures times[1..][i] - s.counters[key].lastReset <= p.windowMs
    {
      assert times[1..][i] == times[i + 1];
    }
    RunInWindow(s.counters, key, times[1..], p, 1);
    var r := Run(c, key, times, p);
    var rest := Run(s.counters, key, times[1..], p);
    assert r.1 == [s.admitted] + rest.1;
    forall i | 1 <= i < |times|
      ensures r.1[i] <==> i < p.ceiling
    {
      assert r.1[i] == rest.1[i - 1];
    }
  }

  /** At exactly one window length after the window began, a full counter
      still rejects; one millisecond later the window restarts. */
  lemma WindowBoundary(c: Counters, key: string, p: Policy)
    requires key in c && c[key].count >= p.ceiling
    ensures !Check(c, key, c[key].lastReset + p.windowMs, p).admitted
    ensures Check(c, key, c[key].lastReset + p.windowMs + 1, p)
      == Step(c[key := Entry(1, c[key].lastReset + p.windowMs + 1)], true)
  {
  }

  /** JavaScript `Math.ceil(n / d)` for a positive divisor: the least integer
      whose multiple of `d` reaches `n`. */
  function CeilDiv(n: int, d: int): (q: int)
    requires d > 0
    ensures (q - 1) * d < n <= q * d
  {
    var k := (-n) / d;
    assert -n == d * k + (-n) % d;
    -k
  }

  datatype Admission = Admission(counters: Counters, admitted: bool, retryAfter: Option<int>)

  /** `checkSubmitRateLimit`: the submission policy, and on rejection the
      whole seconds until the window ends. That wait is never negative, and
      at most an hour when the window did not begin in the future. */
  function CheckSubmission(c: Counters, key: string, now: int): (r: Admission)
    ensures r.admitted == Check(c, key, now, SubmissionPolicy).admitted
    ensures r.counters == Check(c, key, now, SubmissionPolicy).counters
    ensures r.retryAfter.Some? <==> !r.admitted
    ensures !r.admitted ==> key in c
    ensures !r.admitted ==>
      (r.retryAfter.value - 1) * 1000 < c[key].lastReset + SubmissionPolicy.windowMs - now
      <= r.retryAfter.value * 1000
    ensures !r.admitted ==> 0 <= r.retryAfter.value
    ensures !r.admitted && c[key].lastReset <= now ==> r.retryAfter.value <= 3600
  {
    var s := Check(c, key, now, SubmissionPolicy);
    if s.admitted then Admission(s.counters, true, None)
    else Admission(c, false, Some(CeilDiv(c[key].lastReset + SubmissionPolicy.windowMs - now, 1000)))
  }

  /** The request headers a client key is read from. */
  datatype Headers = Headers(forwardedFor: Option<string>, realIp: Option<string>)

  /** `getClientIP` of the submission route: the first comma-separated field
      of `x-forwarded-for` when non-empty, else a non-empty `x-real-ip`, else
      the shared key `unknown`. The key is never empty. */
  function ClientKey(h: Headers): (k: string)
    ensures k != ""
    ensures h.forwardedFor.Some? && Split(h.forwardedFor.value, ',')[0] != "" ==>
      k == Split(h.forwardedFor.value, ',')[0]
    ensures (h.forwardedFor.None? || Split(h.forwardedFor.value, ',')[0] == "") ==>
      k == (if h.realIp.Some? && h.realIp.value != "" then h.realIp.value else "unknown")
  {
    if h.forwardedFor.Some? && Split(h.forwardedFor.value, ',')[0] != "" then
      Split(h.forwardedFor.value, ',')[0]
    else if h.realIp.Some? && h.realIp.value != "" then h.realIp.value
    else "unknown"
  }

  /** A forwarding chain `client, proxy, ...` is keyed by its client field. */
  lemma ForwardedChainKey(client: string, proxies: string, realIp: Option<string>)
    requires client != "" && ',' !in client
    ensures ClientKey(Headers(Some(client + "," + proxies), realIp)) == client
  {
    var s := client + "," + proxies;
    assert s[|client|] == ',';
    assert s[..|client|] == client;
    IndexOfFirst(s, ',', |client|);
  }

  /** `getClientIP` of the regeneration route: the platform-supplied address
      when present and non-empty, otherwise the same choice as `ClientKey`. */
  function RegenerationKey(ip: Option<string>, h: Headers): (k: string)
    ensures k != ""
    ensures ip.Some? && ip.value != "" ==> k == ip.value
    ensures (ip.None? || ip.value == "") ==> k == ClientKey(h)
  {
    if ip.Some? && ip.value != "" then ip.value else ClientKey(h)
  }
}
