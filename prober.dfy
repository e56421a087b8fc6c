/**
 * The reachability prober: `ping(host, retry)` calls the one-shot probe up to
 * `retry` times, sleeping 3 seconds before every attempt but the first,
 * logging a debug line after every failed attempt and returning as soon as an
 * attempt succeeds.
 *
 * The one-shot probe (a shell `ping`) is an oracle: `outcomes[i]` is what the
 * i-th call answers. Sleeping and logging are recorded as events of a trace.
 */
module Prober {

  /** Seconds slept between two consecutive attempts. */
  const RetryDelay: nat := 3

  /** Number of attempts when the caller gives none. */
  const DefaultRetry: int := 5

  datatype Event =
    | Attempt(index: nat)       // the i-th call of the one-shot probe
    | Sleep(seconds: nat)      // a blocking pause
    | Debug(message: string)   // a debug-level log line

  datatype Kind = AttemptKind | SleepKind | DebugKind

  function KindOf(e: Event): Kind
  {
    match e
    case Attempt(_) => AttemptKind
    case Sleep(_) => SleepKind
    case Debug(_) => DebugKind
  }

  /** Number of events of kind `k` in `t`. */
  function Tally(t: seq<Event>, k: Kind): nat
  {
    if t == [] then 0
    else Tally(t[..|t| - 1], k) + (if KindOf(t[|t| - 1]) == k then 1 else 0)
  }

  /** The log line written after a failed attempt. */
  function UnreachableMessage(host: string): string
  {
    "Neighbor " + host + " unreachable"
  }

  /** Number of iterations of `range(retry)`: none when `retry` is not positive. */
  function Bound(retry: int): nat
  {
    if retry > 0 then retry else 0
  }

  /** The events of the loop body for attempt `i` whose probe answered `up`. */
  function Round(host: string, i: nat, up: bool): seq<Event>
  {
    (if i > 0 then [Sleep(RetryDelay)] else [])
    + [Attempt(i)]
    + (if up then [] else [Debug(UnreachableMessage(host))])
  }

  /** The trace of the first `n` iterations of the loop. */
  function PingTrace(host: string, outcomes: seq<bool>, n: nat): seq<Event>
    requires n <= |outcomes|
  {
    if n == 0 then [] else PingTrace(host, outcomes, n - 1) + Round(host, n - 1, outcomes[n - 1])
  }

  /** Number of failed attempts among the first `n`. */
  function Failures(outcomes: seq<bool>, n: nat): nat
    requires n <= |outcomes|
  {
    if n == 0 then 0 else Failures(outcomes, n - 1) + (if outcomes[n - 1] then 0 else 1)
  }

  /** Index of the first successful attempt among the first `n`, or `n` if all of them fail. */
  function FirstSuccess(outcomes: seq<bool>, n: nat): (k: nat)
    requires n <= |outcomes|
    ensures k <= n
    ensures forall i :: 0 <= i < k ==> !outcomes[i]
    ensures k < n ==> outcomes[k]
  {
    if n == 0 then 0
    else if outcomes[0] then 0
    else 1 + FirstSuccess(outcomes[1..], n - 1)
  }

  /** Every pause in `t` is immediately followed by an attempt that is not the first. */
  ghost predicate SleepsOnlyBetweenAttempts(t: seq<Event>)
  {
    forall p :: 0 <= p < |t| && t[p].Sleep? ==>
      p + 1 < |t| && t[p + 1].Attempt? && t[p + 1].index >= 1
  }

  lemma {:induction false} TallyAppend(a: seq<Event>, b: seq<Event>, k: Kind)
    ensures Tally(a + b, k) == Tally(a, k) + Tally(b, k)
    decreases |b|
  {
    if b == [] {
      assert a + b == a;
    } else {
      assert (a + b)[..|a + b| - 1] == a + b[..|b| - 1];
      TallyAppend(a, b[..|b| - 1], k);
    }
  }

  /** How many events of each kind the first `n` iterations record. */
  lemma {:induction false} PingTraceTally(host: string, outcomes: seq<bool>, n: nat)
    requires n <= |outcomes|
    ensures Tally(PingTrace(host, outcomes, n), AttemptKind) == n
    ensures Tally(PingTrace(host, outcomes, n), SleepKind) == if n == 0 then 0 else n - 1
    ensures Tally(PingTrace(host, outcomes, n), DebugKind) == Failures(outcomes, n)
  {
    if n > 0 {
      var up := outcomes[n - 1];
      var r := Round(host, n - 1, up);
      PingTraceTally(host, outcomes, n - 1);
      TallyAppend(PingTrace(host, outcomes, n - 1), r, AttemptKind);
      TallyAppend(PingTrace(host, outcomes, n - 1), r, SleepKind);
      TallyAppend(PingTrace(host, outcomes, n - 1), r, DebugKind);
      var pre := if n - 1 > 0 then [Sleep(RetryDelay)] else [];
      var post := if up then [] else [Debug(UnreachableMessage(host))];
      assert r == pre + [Attempt(n - 1)] + post;
      forall k: Kind
        ensures Tally(r, k) == Tally(pre, k) + Tally([Attempt(n - 1)], k) + Tally(post, k)
      {
        TallyAppend(pre + [Attempt(n - 1)], post, k);
        TallyAppend(pre, [Attempt(n - 1)], k);
      }
    }
  }

  /** No trace of the loop pauses before its first attempt or after its last one. */
  lemma {:induction false} PingTraceSleeps(host: string, outcomes: seq<bool>, n: nat)
    requires n <= |outcomes|
    ensures SleepsOnlyBetweenAttempts(PingTrace(host, outcomes, n))
    ensures n > 0 ==> PingTrace(host, outcomes, n)[0] == Attempt(0)
  {
    if n > 0 {
      var t := PingTrace(host, outcomes, n - 1);
      var r := Round(host, n - 1, outcomes[n - 1]);
      PingTraceSleeps(host, outcomes, n - 1);
      assert n - 1 > 0 ==> |t| > 0 by {
        if n - 1 > 0 { PingTraceTally(host, outcomes, n - 1); }
      }
      var s := t + r;
      forall p | 0 <= p < |s| && s[p].Sleep?
        ensures p + 1 < |s| && s[p + 1].Attempt? && s[p + 1].index >= 1
      {
        if p < |t| {
          assert s[p] == t[p];
          assert s[p + 1] == t[p + 1];
        } else if n - 1 > 0 {
          assert r[0] == Sleep(RetryDelay) && r[1] == Attempt(n - 1);
          assert r[p - |t|].Sleep?;
          assert p - |t| == 0;
        } else {
          assert false;
        }
      }
    }
  }

  /**
   * `ping(host, retry)`: true iff one of the first `retry` probes succeeds;
   * it stops at the first success, sleeps only between attempts and logs
   * every failure.
   */
  method Ping(host: string, outcomes: seq<bool>, retry: int := DefaultRetry)
    returns (up: bool, trace: seq<Event>)
    requires retry <= |outcomes|
    ensures up <==> exists i :: 0 <= i < retry && outcomes[i]
    ensures var n := Bound(retry); var k := FirstSuccess(outcomes, n);
      up == (k < n) && trace == PingTrace(host, outcomes, if up then k + 1 else n)
    ensures up ==> Tally(trace, AttemptKind) == FirstSuccess(outcomes, Bound(retry)) + 1
    ensures !up ==> Tally(trace, AttemptKind) == Bound(retry)
    ensures Tally(trace, SleepKind) == if up || retry > 0 then Tally(trace, AttemptKind) - 1 else 0
    ensures Tally(trace, DebugKind) == if up then Tally(trace, AttemptKind) - 1 else Bound(retry)
    ensures SleepsOnlyBetweenAttempts(trace)
    ensures Tally(trace, AttemptKind) > 0 ==> trace[0] == Attempt(0)
  {
    var n := Bound(retry);
    trace := [];
    for i := 0 to n
      invariant forall j :: 0 <= j < i ==> !outcomes[j]
      invariant trace == PingTrace(host, outcomes, i)
    {
      if i > 0 {
        trace := trace + [Sleep(RetryDelay)];
      }
      trace := trace + [Attempt(i)];
      if outcomes[i] {
        up := true;
        assert trace == PingTrace(host, outcomes, i + 1);
        FirstSuccessIs(outcomes, n, i);
        PingFacts(host, outcomes, i + 1, true);
        return;
      }
      trace := trace + [Debug(UnreachableMessage(host))];
    }
    up := false;
    FirstSuccessIs(outcomes, n, n);
    PingFacts(host, outcomes, n, false);
  }

  /** `FirstSuccess` is the index of the first success, if the prefix before it fails. */
  lemma {:induction false} FirstSuccessIs(outcomes: seq<bool>, n: nat, k: nat)
    requires k <= n <= |outcomes|
    requires forall j :: 0 <= j < k ==> !outcomes[j]
    requires k < n ==> outcomes[k]
    ensures FirstSuccess(outcomes, n) == k
  {
    if n > 0 && k > 0 {
      FirstSuccessIs(outcomes[1..], n - 1, k - 1);
    }
  }

  /** The counts and the shape of a loop trace that ran `m` attempts. */
  lemma PingFacts(host: string, outcomes: seq<bool>, m: nat, up: bool)
    requires m <= |outcomes|
    requires up ==> m > 0 && outcomes[m - 1]
    requires forall j :: 0 <= j < m - (if up then 1 else 0) ==> !outcomes[j]
    ensures var t := PingTrace(host, outcomes, m);
      Tally(t, AttemptKind) == m
      && Tally(t, SleepKind) == (if m == 0 then 0 else m - 1)
      && Tally(t, DebugKind) == (if up then m - 1 else m)
      && SleepsOnlyBetweenAttempts(t)
      && (m > 0 ==> t[0] == Attempt(0))
  {
    PingTraceTally(host, outcomes, m);
    PingTraceSleeps(host, outcomes, m);
    if up {
      FailuresOfFailedPrefix(outcomes, m - 1);
    } else {
      FailuresOfFailedPrefix(outcomes, m);
    }
  }

  /** A prefix in which every attempt fails has as many failures as attempts. */
  lemma {:induction false} FailuresOfFailedPrefix(outcomes: seq<bool>, n: nat)
    requires n <= |outcomes|
    requires forall j :: 0 <= j < n ==> !outcomes[j]
    ensures Failures(outcomes, n) == n
  {
    if n > 0 {
      FailuresOfFailedPrefix(outcomes, n - 1);
    }
  }
}
