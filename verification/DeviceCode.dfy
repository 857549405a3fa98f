/** The device-code poll loop of src/lib/oauth-device-code.ts (RFC 8628, section 3.5).  The clock
    advances by whatever the environment takes; sleeping takes at least the time asked for. */
module DeviceCode {
  import opened Wrappers

  const MIN_SECONDS := 1.0
  const MAX_SECONDS := 30.0

  /** `clampInterval`; a value that is not a finite number is `None`. */
  function ClampInterval(value: Option<real>): (r: real)
    ensures 1.0 <= r <= 30.0
    ensures value.Some? && 1.0 <= value.value <= 30.0 ==> r == value.value
    ensures value.None? || value.value <= 1.0 ==> r == 1.0
    ensures value.Some? && value.value >= 30.0 ==> r == 30.0
  {
    var n := if value.Some? then value.value else MIN_SECONDS;
    if n < MIN_SECONDS then MIN_SECONDS else if n > MAX_SECONDS then MAX_SECONDS else n
  }

  datatype Reply =
    | Tokens(accessToken: string, refreshToken: string)
    | Failure(code: string)

  datatype Outcome = Granted(accessToken: string, refreshToken: string) | Failed(code: string) | TimedOut

  /** One round: how long past the requested time the sleep takes, what the portal answers, and how
      long the request takes, all in milliseconds. */
  datatype Round = Round(oversleep: real, reply: Reply, latency: real)

  ghost predicate Plausible(rounds: nat -> Round) {
    forall i: nat :: rounds(i).oversleep >= 0.0 && rounds(i).latency >= 0.0
  }

  predicate IsSlowDown(reply: Reply) { reply == Failure("slow_down") }

  /** The number of `slow_down` answers in the first `n` rounds. */
  ghost function SlowDowns(rounds: nat -> Round, n: nat): nat {
    if n == 0 then 0 else SlowDowns(rounds, n - 1) + (if IsSlowDown(rounds(n - 1).reply) then 1 else 0)
  }

  /** `n` times `x`, by repeated addition. */
  ghost function Times(n: nat, x: real): real {
    if n == 0 then 0.0 else Times(n - 1, x) + x
  }

  /** The wait, in seconds, after `k` of them. */
  ghost function Wait(initial: Option<real>, k: nat): (r: real) {
    var w := ClampInterval(initial) + Times(k, 5.0);
    if w > 30.0 then 30.0 else w
  }

  /** The time at the start of round `n`. */
  ghost function TimeAt(start: real, initial: Option<real>, rounds: nat -> Round, n: nat): real {
    if n == 0 then start
    else TimeAt(start, initial, rounds, n - 1)
         + Wait(initial, SlowDowns(rounds, n - 1)) * 1000.0 + rounds(n - 1).oversleep + rounds(n - 1).latency
  }

  lemma {:induction false} TimeAdvances(start: real, initial: Option<real>, rounds: nat -> Round, n: nat)
    requires Plausible(rounds)
    ensures TimeAt(start, initial, rounds, n) >= start + Times(n, ClampInterval(initial)) * 1000.0
  {
    if n > 0 {
      TimeAdvances(start, initial, rounds, n - 1);
      TimesNonNegative(SlowDowns(rounds, n - 1));
    }
  }

  /** What the answer to the last request means. */
  function Final(reply: Reply): Outcome {
    match reply
    case Tokens(a, r) => if a == "" || r == "" then Failed("token_response_missing_tokens") else Granted(a, r)
    case Failure(code) => if code == "expired_token" then TimedOut else Failed(code)
  }

  /** The first `n` rounds started in time, after the waits that the `slow_down` answers before them
      call for. */
  ghost predicate Polled(
      initial: Option<real>, start: real, deadline: real, rounds: nat -> Round, waits: seq<real>, n: nat)
  {
    |waits| == n && forall i {:trigger waits[i]} | 0 <= i < n ::
      waits[i] == Wait(initial, SlowDowns(rounds, i)) && TimeAt(start, initial, rounds, i) < deadline
  }

  ghost predicate AllWaiting(rounds: nat -> Round, n: nat) {
    forall i: nat | i < n ::
      rounds(i).reply == Failure("slow_down") || rounds(i).reply == Failure("authorization_pending")
  }

  ghost predicate FailsWith(reply: Reply, code: string) {
    match reply
    case Tokens(a, r) => (a == "" || r == "") && code == "token_response_missing_tokens"
    case Failure(error) => code == error && error !in {"authorization_pending", "slow_down", "expired_token"}
  }

  /** `pollForToken`: the outcome, the number of requests and the waits before them.  It stops at the
      first answer that is not a reason to wait, or at the deadline. */
  method PollForToken(initial: Option<real>, timeoutSeconds: real, start: real, rounds: nat -> Round)
      returns (outcome: Outcome, requests: nat, waits: seq<real>)
    requires Plausible(rounds)
    ensures Polled(initial, start, start + timeoutSeconds * 1000.0, rounds, waits, requests)
    ensures requests > 0 ==> AllWaiting(rounds, requests - 1)
    ensures forall a, r ::
      outcome == Granted(a, r) <==> requests > 0 && rounds(requests - 1).reply == Tokens(a, r) && a != "" && r != ""
    ensures forall code :: outcome == Failed(code) <==> requests > 0 && FailsWith(rounds(requests - 1).reply, code)
    ensures AllWaiting(rounds, requests) ==>
      outcome == TimedOut && TimeAt(start, initial, rounds, requests) >= start + timeoutSeconds * 1000.0
  {
    var now := start;
    var deadline := now + timeoutSeconds * 1000.0;
    var interval := ClampInterval(initial);
    requests, waits := 0, [];
    while now < deadline
      invariant Polled(initial, start, deadline, rounds, waits, requests) && AllWaiting(rounds, requests)
      invariant now == TimeAt(start, initial, rounds, requests)
      invariant interval == Wait(initial, SlowDowns(rounds, requests)) && interval >= MIN_SECONDS
      decreases deadline - now
    {
      var round := rounds(requests);
      assert round.oversleep >= 0.0 && round.latency >= 0.0;
      NextRound(initial, start, deadline, rounds, waits, requests);
      now := now + interval * 1000.0 + round.oversleep + round.latency;
      waits := waits + [interval];
      requests := requests + 1;
      if round.reply == Failure("authorization_pending") {
        continue;
      }
      if round.reply == Failure("slow_down") {
        interval := ClampInterval(Some(interval + 5.0));
        continue;
      }
      outcome := Final(round.reply);
      return;
    }
    outcome := TimedOut;
  }

  /** What round `n` adds to the waits, the clock and the interval. */
  lemma {:induction false} NextRound(
      initial: Option<real>, start: real, deadline: real, rounds: nat -> Round, waits: seq<real>, n: nat)
    requires Polled(initial, start, deadline, rounds, waits, n) && TimeAt(start, initial, rounds, n) < deadline
    ensures var wait := Wait(initial, SlowDowns(rounds, n));
      && Polled(initial, start, deadline, rounds, waits + [wait], n + 1)
      && TimeAt(start, initial, rounds, n + 1)
         == TimeAt(start, initial, rounds, n) + wait * 1000.0 + rounds(n).oversleep + rounds(n).latency
      && Wait(initial, SlowDowns(rounds, n + 1))
         == if IsSlowDown(rounds(n).reply) then ClampInterval(Some(wait + 5.0)) else wait
  {
    NextWait(initial, SlowDowns(rounds, n));
  }

  lemma {:induction false} NextWait(initial: Option<real>, k: nat)
    ensures Wait(initial, k + 1) == ClampInterval(Some(Wait(initial, k) + 5.0))
  {
    TimesNonNegative(k);
  }

  lemma {:induction false} TimesNonNegative(k: nat)
    ensures Times(k, 5.0) >= 0.0
  {
    if k > 0 {
      TimesNonNegative(k - 1);
    }
  }

  lemma {:induction false} TimesMonotone(m: nat, n: nat, x: real)
    requires m <= n && x >= 0.0
    ensures Times(m, x) <= Times(n, x)
    decreases n
  {
    if m < n {
      TimesMonotone(m, n - 1, x);
    }
  }

  /** Main result: no more requests are made than clamped initial intervals are needed to fill the
      timeout, that is, at most the quotient of the two, rounded up, whatever the portal answers. */
  lemma {:induction false} RequestBound(
      initial: Option<real>, timeoutSeconds: real, start: real, rounds: nat -> Round, waits: seq<real>,
      requests: nat, n: nat)
    requires Plausible(rounds)
    requires Polled(initial, start, start + timeoutSeconds * 1000.0, rounds, waits, requests)
    requires Times(n, ClampInterval(initial)) >= timeoutSeconds
    ensures requests <= n
  {
    if requests > n {
      var last := requests - 1;
      assert waits[last] == Wait(initial, SlowDowns(rounds, last));
      TimeAdvances(start, initial, rounds, last);
      TimesMonotone(n, last, ClampInterval(initial));
    }
  }
}
