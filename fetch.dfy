/** The rate-limited fetcher (`tapFetchSync`, tap.js lines 120-138): up to
    five blocking attempts, a fixed back-off after every non-200 status, the
    first status-200 body returned. */
module Fetcher {

  const MaxRetries: nat := 5

  /** What one attempt of the HTTP client produces: a response with its
      status and body text, or a thrown transport error. */
  datatype Attempt = Status(code: int, text: string) | Thrown

  /** The network: the outcome of the attempt numbered `n` (counted over the
      whole run) when it requests `url`. */
  type Oracle = (string, nat) -> Attempt

  /** The fetcher's result: a body ("" after exhausted retries), or a fault
      when no attempt produced a response at all, so that the final log line
      dereferences an undefined response and throws. */
  datatype Fetched = Body(text: string) | Fault

  /** The result, the number of attempts made and the number of back-off sleeps. */
  datatype FetchRun = FetchRun(result: Fetched, attempts: nat, sleeps: nat)

  predicate Is200(a: Attempt) { a.Status? && a.code == 200 }

  /** Attempts `i` to `MaxRetries - 1` of a fetch that started at clock `t`;
      `responded` says whether an earlier attempt produced a response. */
  function Retry(net: Oracle, url: string, t: nat, i: nat, responded: bool): FetchRun
    requires i <= MaxRetries
    decreases MaxRetries - i
  {
    if i == MaxRetries then FetchRun(if responded then Body("") else Fault, MaxRetries, 0)
    else
      match net(url, t + i)
      case Thrown => Retry(net, url, t, i + 1, responded)
      case Status(code, text) =>
        if code == 200 then FetchRun(Body(text), i + 1, 0)
        else
          var r := Retry(net, url, t, i + 1, true);
          r.(sleeps := r.sleeps + 1)
  }

  /** `tapFetchSync(url)` issued when `t` attempts have been made in the run. */
  function Fetch(net: Oracle, url: string, t: nat): (r: FetchRun)
    ensures 1 <= r.attempts <= MaxRetries
    ensures r.result.Fault? ==> r.attempts == MaxRetries && r.sleeps == 0
  {
    RetryFrom(net, url, t, 0, false);
    FaultSleepsNone(net, url, t);
    Retry(net, url, t, 0, false)
  }

  /** A fetch that faults saw no response, so it never slept. */
  lemma FaultSleepsNone(net: Oracle, url: string, t: nat)
    ensures var r := Retry(net, url, t, 0, false); r.result.Fault? ==> r.sleeps == 0
  {
    RetryFrom(net, url, t, 0, false);
    RetrySleeps(net, url, t, 0, false);
    if !RespondedIn(net, url, t, t + MaxRetries) {
      Non200None(net, url, t, t + MaxRetries);
    }
  }

  /** Some attempt numbered in `[lo, hi)` produced a response. */
  predicate RespondedIn(net: Oracle, url: string, lo: nat, hi: nat) {
    exists n :: lo <= n < hi && net(url, n).Status?
  }

  /** The number of non-200 responses among the attempts numbered in `[lo, hi)`. */
  function Non200(net: Oracle, url: string, lo: nat, hi: nat): nat
    decreases hi - lo
  {
    if hi <= lo then 0
    else Non200(net, url, lo, hi - 1) + (if net(url, hi - 1).Status? && !Is200(net(url, hi - 1)) then 1 else 0)
  }

  /** The fetcher returns the body of the first status-200 attempt, makes at
      most five attempts, sleeps once per non-200 response, and after five
      failures returns "" if anything responded and faults otherwise. */
  lemma FetchSpec(net: Oracle, url: string, t: nat)
    ensures var r := Fetch(net, url, t);
      && 1 <= r.attempts <= MaxRetries
      && (forall n :: t <= n < t + r.attempts - 1 ==> !Is200(net(url, n)))
      && (Is200(net(url, t + r.attempts - 1)) ==> r.result == Body(net(url, t + r.attempts - 1).text))
      && (!Is200(net(url, t + r.attempts - 1)) ==>
            r.attempts == MaxRetries
            && r.result == (if RespondedIn(net, url, t, t + MaxRetries) then Body("") else Fault))
      && r.sleeps == Non200(net, url, t, t + r.attempts)
  {
    RetryFrom(net, url, t, 0, false);
    RetrySleeps(net, url, t, 0, false);
  }

  /** The generalisation of `FetchSpec` to a fetch already `i` attempts in. */
  lemma {:induction false} RetryFrom(net: Oracle, url: string, t: nat, i: nat, responded: bool)
    requires i < MaxRetries
    requires responded == RespondedIn(net, url, t, t + i)
    ensures var r := Retry(net, url, t, i, responded);
      && i + 1 <= r.attempts <= MaxRetries
      && (forall n :: t + i <= n < t + r.attempts - 1 ==> !Is200(net(url, n)))
      && (Is200(net(url, t + r.attempts - 1)) ==> r.result == Body(net(url, t + r.attempts - 1).text))
      && (!Is200(net(url, t + r.attempts - 1)) ==>
            r.attempts == MaxRetries
            && r.result == (if RespondedIn(net, url, t, t + MaxRetries) then Body("") else Fault))
    decreases MaxRetries - i
  {
    var a := net(url, t + i);
    var responded' := responded || a.Status?;
    assert responded' == RespondedIn(net, url, t, t + i + 1) by {
      if RespondedIn(net, url, t, t + i + 1) && !a.Status? {
        var n :| t <= n < t + i + 1 && net(url, n).Status?;
        assert n < t + i;
      }
    }
    var r := Retry(net, url, t, i, responded);
    if Is200(a) {
      assert r == FetchRun(Body(a.text), i + 1, 0);
    } else {
      var r' := Retry(net, url, t, i + 1, responded');
      assert r.result == r'.result && r.attempts == r'.attempts;
      if i + 1 == MaxRetries {
        assert r'.attempts == MaxRetries && r'.result == (if responded' then Body("") else Fault);
      } else {
        RetryFrom(net, url, t, i + 1, responded');
      }
    }
  }

  /** A fetch already `i` attempts in sleeps once for each later non-200
      response it sees. */
  lemma {:induction false} RetrySleeps(net: Oracle, url: string, t: nat, i: nat, responded: bool)
    requires i < MaxRetries
    ensures var r := Retry(net, url, t, i, responded);
      i + 1 <= r.attempts && Non200(net, url, t, t + i) + r.sleeps == Non200(net, url, t, t + r.attempts)
    decreases MaxRetries - i
  {
    var a := net(url, t + i);
    assert Non200(net, url, t, t + i + 1) == Non200(net, url, t, t + i) + (if a.Status? && !Is200(a) then 1 else 0);
    if !Is200(a) && i + 1 < MaxRetries {
      RetrySleeps(net, url, t, i + 1, responded || a.Status?);
    }
  }

  /** Every attempt in `[lo, hi)` is a non-200 response: each one counts. */
  lemma {:induction false} Non200All(net: Oracle, url: string, lo: nat, hi: nat)
    requires lo <= hi
    requires forall n :: lo <= n < hi ==> net(url, n).Status? && !Is200(net(url, n))
    ensures Non200(net, url, lo, hi) == hi - lo
    decreases hi - lo
  {
    if lo < hi { Non200All(net, url, lo, hi - 1); }
  }

  /** No attempt in `[lo, hi)` responded: nothing counts. */
  lemma {:induction false} Non200None(net: Oracle, url: string, lo: nat, hi: nat)
    requires forall n :: lo <= n < hi ==> net(url, n) == Thrown
    ensures Non200(net, url, lo, hi) == 0
    decreases hi - lo
  {
    if lo < hi { Non200None(net, url, lo, hi - 1); }
  }

  /** With four non-200 responses followed by a 200, the fetch succeeds on
      the fifth attempt after four sleeps. */
  lemma LastAttemptSucceeds(net: Oracle, url: string, t: nat, body: string)
    requires forall n :: t <= n < t + MaxRetries - 1 ==> net(url, n).Status? && !Is200(net(url, n))
    requires net(url, t + MaxRetries - 1) == Status(200, body)
    ensures Fetch(net, url, t) == FetchRun(Body(body), MaxRetries, MaxRetries - 1)
  {
    FetchSpec(net, url, t);
    Non200All(net, url, t, t + MaxRetries - 1);
  }

  /** Five non-200 responses: "" after exactly five attempts and five sleeps. */
  lemma AllFailuresGiveEmpty(net: Oracle, url: string, t: nat)
    requires forall n :: t <= n < t + MaxRetries ==> net(url, n).Status? && !Is200(net(url, n))
    ensures Fetch(net, url, t) == FetchRun(Body(""), MaxRetries, MaxRetries)
  {
    FetchSpec(net, url, t);
    assert net(url, t).Status?;
    Non200All(net, url, t, t + MaxRetries);
  }

  /** Five thrown errors: the fetcher itself throws (no response to log). */
  lemma AllThrownFaults(net: Oracle, url: string, t: nat)
    requires forall n :: t <= n < t + MaxRetries ==> net(url, n) == Thrown
    ensures Fetch(net, url, t) == FetchRun(Fault, MaxRetries, 0)
  {
    FetchSpec(net, url, t);
    Non200None(net, url, t, t + MaxRetries);
  }

  /** `tapFetchSync`: the retry loop with its mutable last response. */
  method TapFetchSync(url: string, net: Oracle, t: nat) returns (r: Fetched, attempts: nat, sleeps: nat)
    ensures FetchRun(r, attempts, sleeps) == Fetch(net, url, t)
  {
    var resp: Attempt := Thrown;   // undefined until an attempt responds
    sleeps := 0;
    var i := 0;
    while i < MaxRetries
      invariant 0 <= i <= MaxRetries
      invariant resp.Status? ==> !Is200(resp)
      invariant var rest := Retry(net, url, t, i, resp.Status?);
        Fetch(net, url, t) == rest.(sleeps := rest.sleeps + sleeps)
    {
      var a := net(url, t + i);
      if a.Status? {
        resp := a;
        if a.code == 200 {
          r, attempts := Body(a.text), i + 1;
          return;
        }
        sleeps := sleeps + 1;   // the 5000 ms back-off
      }
      i := i + 1;
    }
    r := if resp.Status? then Body("") else Fault;
    attempts := MaxRetries;
  }
}
