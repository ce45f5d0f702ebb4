/** The gRPC client's retry loop and endpoint rotation: pkg/feeder/client/client.go. */
module GrpcClient {
  import opened Modular
  import opened Text

  /** One attempt of a remote call; a failure carries its error text. */
  datatype Attempt = Success | Failure(text: string)

  /** Errors that are expected while a transaction is being confirmed or a node restarts. */
  predicate IsTransient(text: string) {
    || Contains(text, "tx not found")
    || Contains(text, "NotFound")
    || Contains(text, "not found")
    || Contains(text, "connection refused")
    || Contains(text, "timeout")
  }

  /** Which error texts count as transient: those that mention one of five, anywhere. */
  lemma TransientExactly(text: string)
    ensures IsTransient(text) <==>
            exists part :: part in {"tx not found", "NotFound", "not found", "connection refused", "timeout"}
                           && Mentions(text, part)
  {
    forall part ensures Contains(text, part) <==> Mentions(text, part) {
      ContainsExactly(text, part);
    }
    if IsTransient(text) {
      var part := if Contains(text, "tx not found") then "tx not found" else if Contains(text, "NotFound") then "NotFound"
                  else if Contains(text, "not found") then "not found"
                  else if Contains(text, "connection refused") then "connection refused" else "timeout";
      assert part in {"tx not found", "NotFound", "not found", "connection refused", "timeout"} && Mentions(text, part);
    }
  }

  predicate IsPersistent(a: Attempt) {
    a.Failure? && !IsTransient(a.text)
  }

  /** A service client of one kind, made from one connection. */
  datatype Service = Service(kind: string, connection: nat)

  /** How often the client has rotated, the attempts made since, and at which rotation each attempt was made. */
  datatype Progress = Progress(rotations: nat, attempts: nat, tried: seq<nat>)

  /** A failed attempt that is not the last: a persistent failure rotates from the second attempt on. */
  function AfterFailure(p: Progress, a: Attempt, n: nat): Progress {
    if IsPersistent(a) && p.attempts + 1 >= 2 && n > 1
    then Progress(p.rotations + 1, 0, p.tried)
    else Progress(p.rotations, p.attempts + 1, p.tried)
  }

  /** The retry loop over the outcomes that the calls would have; it stops at a success or at the last one. */
  function Retry(p: Progress, outcomes: seq<Attempt>, n: nat): Progress
    decreases outcomes
  {
    if outcomes == [] then p
    else
      var q := p.(tried := p.tried + [p.rotations]);
      if outcomes[0] == Success || |outcomes| == 1 then q
      else Retry(AfterFailure(q, outcomes[0], n), outcomes[1..], n)
  }

  class Client {
    const endpoints: seq<string>
    var current: nat
    var oracleClient: Service
    var authClient: Service
    var wasmClient: Service
    var txClient: Service

    /** Every service client belongs to the current connection. */
    ghost predicate Valid()
      reads this
    {
      && current < |endpoints|
      && oracleClient == Service("oracle", current) && authClient == Service("auth", current)
      && wasmClient == Service("wasm", current) && txClient == Service("tx", current)
    }

    constructor (endpoints: seq<string>)
      requires endpoints != []
      ensures Valid() && this.endpoints == endpoints && current == 0
    {
      this.endpoints := endpoints;
      current := 0;
      oracleClient, authClient := Service("oracle", 0), Service("auth", 0);
      wasmClient, txClient := Service("wasm", 0), Service("tx", 0);
    }

    method Failover()
      requires Valid()
      modifies this
      ensures Valid() && current == (old(current) + 1) % |endpoints|
    {
      current := (current + 1) % |endpoints|;
      oracleClient, authClient := Service("oracle", current), Service("auth", current);
      wasmClient, txClient := Service("wasm", current), Service("tx", current);
    }

    /** `outcomes` are the outcomes that the attempts would have, one for each that is allowed; by
        default one for each endpoint. `progress` records where the attempts went. */
    method WithFailoverRetry(outcomes: seq<Attempt>, maxAttempts: nat) returns (ok: bool, ghost progress: Progress)
      requires Valid()
      requires |outcomes| == if maxAttempts == 0 then |endpoints| else maxAttempts
      modifies this
      ensures Valid()
      ensures progress == Retry(Progress(0, 0, []), outcomes, |endpoints|)
      ensures current == (old(current) + progress.rotations) % |endpoints|
      ensures ok <==> Success in outcomes
    {
      var limit := if maxAttempts == 0 then |endpoints| else maxAttempts;
      var endpointAttempts := 0;
      progress := Progress(0, 0, []);
      for attempt := 0 to limit
        invariant Valid() && attempt < limit
        invariant current == (old(current) + progress.rotations) % |endpoints|
        invariant progress.attempts == endpointAttempts
        invariant Retry(Progress(0, 0, []), outcomes, |endpoints|) == Retry(progress, outcomes[attempt..], |endpoints|)
        invariant Success !in outcomes[..attempt]
      {
        assert outcomes[attempt..][0] == outcomes[attempt] && outcomes[attempt..][1..] == outcomes[attempt + 1..];
        assert outcomes[..attempt + 1] == outcomes[..attempt] + [outcomes[attempt]];
        progress := progress.(tried := progress.tried + [progress.rotations]);
        if outcomes[attempt] == Success {
          return true, progress;
        }
        if attempt == limit - 1 {
          assert outcomes[..attempt + 1] == outcomes;
          return false, progress;
        }
        progress := AfterFailure(progress, outcomes[attempt], |endpoints|);
        endpointAttempts := endpointAttempts + 1;
        var shouldRotate := !IsTransient(outcomes[attempt].text) && endpointAttempts >= 2;
        if shouldRotate && |endpoints| > 1 {
          NextIndex(old(current) + progress.rotations - 1, |endpoints|);
          Failover();
          endpointAttempts := 0;
        }
      }
      // The last attempt always returns from the loop.
      assert false;
      ok := false;
    }
  }

  // ---------- where the attempts go ----------

  ghost predicate AllPersistent(outcomes: seq<Attempt>) {
    forall i :: 0 <= i < |outcomes| ==> IsPersistent(outcomes[i])
  }

  ghost predicate NonePersistent(outcomes: seq<Attempt>) {
    forall i :: 0 <= i < |outcomes| ==> !IsPersistent(outcomes[i])
  }

  /** Persistent failures only: with no attempt yet on the current endpoint, attempt i is made i / 2
      rotations further, so each endpoint gets two attempts, and m failures rotate (m - 1) / 2 times. */
  lemma {:induction false} PersistentRotation(p: Progress, outcomes: seq<Attempt>, n: nat)
    requires n > 1 && p.attempts < 2 && outcomes != [] && AllPersistent(outcomes)
    ensures var r, m := Retry(p, outcomes, n), |outcomes|;
            && r.rotations == p.rotations + (m - 1 + p.attempts) / 2
            && |r.tried| == |p.tried| + m
            && forall i :: 0 <= i < |r.tried| ==>
                 r.tried[i] == if i < |p.tried| then p.tried[i] else p.rotations + (i - |p.tried| + p.attempts) / 2
    decreases outcomes
  {
    if |outcomes| > 1 {
      var q := p.(tried := p.tried + [p.rotations]);
      PersistentRotation(AfterFailure(q, outcomes[0], n), outcomes[1..], n);
    }
  }

  /** An attempt that fails for good after another one on the same endpoint. */
  ghost predicate RotatesAfter(tried: seq<nat>, outcomes: seq<Attempt>, i: nat) {
    && 0 < i < |tried| && i < |outcomes| && tried[i - 1] == tried[i]
    && outcomes[i].Failure? && !IsTransient(outcomes[i].text)
  }

  /** The first attempt goes to the first endpoint, each later one to the next endpoint exactly if the one
      before failed persistently and was not the first on its endpoint; they end with a success or the last. */
  ghost predicate GoesOn(tried: seq<nat>, outcomes: seq<Attempt>) {
    && 0 < |tried| <= |outcomes| && tried[0] == 0
    && (forall i :: 0 <= i < |tried| - 1 ==>
          tried[i + 1] == tried[i] + (if RotatesAfter(tried, outcomes, i) then 1 else 0))
    && (forall i :: 0 <= i < |tried| - 1 ==> outcomes[i] != Success)
    && (outcomes[|tried| - 1] == Success || |tried| == |outcomes|)
  }

  /** Where every attempt goes, whatever the outcomes. */
  lemma AttemptsExactly(outcomes: seq<Attempt>, n: nat)
    requires n > 1 && outcomes != []
    ensures var r := Retry(Progress(0, 0, []), outcomes, n);
            GoesOn(r.tried, outcomes) && r.rotations == r.tried[|r.tried| - 1]
  {
    AttemptsFrom(Progress(0, 0, []), outcomes, n, []);
    assert [] + outcomes == outcomes;
  }

  /** `past` are the outcomes of the attempts made before `p`. */
  ghost predicate Follows(p: Progress, past: seq<Attempt>) {
    && |p.tried| == |past|
    && (forall i :: 0 <= i < |past| ==> past[i] != Success)
    && (p.attempts == 0 <==> p.tried == [] || p.tried[|p.tried| - 1] + 1 == p.rotations)
    && (p.attempts > 0 ==> p.tried != [] && p.tried[|p.tried| - 1] == p.rotations)
    && (p.attempts == 1 <==> p.attempts > 0 && (|p.tried| == 1 || p.tried[|p.tried| - 2] != p.tried[|p.tried| - 1]))
    && (p.tried == [] ==> p.rotations == 0) && (p.tried != [] ==> p.tried[0] == 0)
    && (forall i :: 0 <= i < |p.tried| - 1 ==>
          p.tried[i + 1] == p.tried[i] + (if RotatesAfter(p.tried, past, i) then 1 else 0))
    && (p.tried != [] ==>
          p.rotations == p.tried[|p.tried| - 1] + (if RotatesAfter(p.tried, past, |p.tried| - 1) then 1 else 0))
  }

  lemma {:induction false} AttemptsFrom(p: Progress, outcomes: seq<Attempt>, n: nat, past: seq<Attempt>)
    requires n > 1 && outcomes != [] && Follows(p, past)
    ensures EndsWell(Retry(p, outcomes, n), past + outcomes)
    decreases outcomes
  {
    if outcomes[0] != Success && |outcomes| > 1 {
      var next := AfterFailure(p.(tried := p.tried + [p.rotations]), outcomes[0], n);
      OneMoreAttempt(p, past, outcomes[0], n);
      AttemptsFrom(next, outcomes[1..], n, past + [outcomes[0]]);
      assert past + [outcomes[0]] + outcomes[1..] == past + outcomes;
    } else {
      LastAttempt(p, outcomes, past);
    }
  }

  ghost predicate EndsWell(r: Progress, outcomes: seq<Attempt>) {
    GoesOn(r.tried, outcomes) && r.rotations == r.tried[|r.tried| - 1]
  }

  lemma LastAttempt(p: Progress, outcomes: seq<Attempt>, past: seq<Attempt>)
    requires outcomes != [] && Follows(p, past) && (outcomes[0] == Success || |outcomes| == 1)
    ensures EndsWell(p.(tried := p.tried + [p.rotations]), past + outcomes)
  {
    var tried, all := p.tried + [p.rotations], past + outcomes;
    forall i | 0 <= i < |p.tried| ensures RotatesAfter(tried, all, i) == RotatesAfter(p.tried, past, i) {
    }
  }

  lemma OneMoreAttempt(p: Progress, past: seq<Attempt>, a: Attempt, n: nat)
    requires n > 1 && Follows(p, past) && a != Success
    ensures Follows(AfterFailure(p.(tried := p.tried + [p.rotations]), a, n), past + [a])
  {
    var q := p.(tried := p.tried + [p.rotations]);
    var r := AfterFailure(q, a, n);
    forall i | 0 <= i < |p.tried|
      ensures RotatesAfter(q.tried, past + [a], i) == RotatesAfter(p.tried, past, i)
    {
    }
  }

  /** Transient failures never rotate, and neither does a single endpoint. */
  lemma {:induction false} NoRotation(p: Progress, outcomes: seq<Attempt>, n: nat)
    requires n == 1 || NonePersistent(outcomes)
    ensures Retry(p, outcomes, n).rotations == p.rotations
    decreases outcomes
  {
    if outcomes != [] && outcomes[0] != Success && |outcomes| > 1 {
      var q := p.(tried := p.tried + [p.rotations]);
      NoRotation(AfterFailure(q, outcomes[0], n), outcomes[1..], n);
    }
  }

  /** No endpoint was left after a single attempt. */
  ghost predicate TwoBeforeLeaving(tried: seq<nat>) {
    forall i :: 0 <= i < |tried| - 1 && tried[i] != tried[i + 1] ==> i > 0 && tried[i - 1] == tried[i]
  }

  /** The attempts so far end in `attempts` attempts on the current endpoint, and in two on the one before. */
  ghost predicate Consistent(p: Progress) {
    && TwoBeforeLeaving(p.tried)
    && p.attempts <= |p.tried|
    && (forall i :: |p.tried| - p.attempts <= i < |p.tried| ==> p.tried[i] == p.rotations)
    && (p.attempts == 0 && |p.tried| > 0 ==> |p.tried| > 1 && p.tried[|p.tried| - 1] == p.tried[|p.tried| - 2])
  }

  /** Whatever the outcomes, every endpoint gets at least two attempts before it is left. */
  lemma {:induction false} TwoAttemptsEach(p: Progress, outcomes: seq<Attempt>, n: nat)
    requires Consistent(p)
    ensures TwoBeforeLeaving(Retry(p, outcomes, n).tried)
    decreases outcomes
  {
    if outcomes != [] {
      var q := p.(tried := p.tried + [p.rotations]);
      forall i | 0 <= i < |q.tried| - 1 && q.tried[i] != q.tried[i + 1]
        ensures i > 0 && q.tried[i - 1] == q.tried[i]
      {
        if i < |p.tried| - 1 {
          assert p.tried[i] != p.tried[i + 1];
        }
      }
      if outcomes[0] != Success && |outcomes| > 1 {
        TwoAttemptsEach(AfterFailure(q, outcomes[0], n), outcomes[1..], n);
      }
    }
  }

  /** The attempt made after k rotations goes to the endpoint k positions after the first one, cyclically. */
  function EndpointAt(first: nat, k: nat, n: nat): (e: nat)
    requires n > 0
    ensures e < n
  {
    (first + k) % n
  }

  lemma EndpointAtCases(first: nat, k: nat, n: nat)
    requires first < n && k < n
    ensures EndpointAt(first, k, n) == if first + k < n then first + k else first + k - n
  {
    if first + k >= n {
      MultipleMod(1, n, first + k - n);
    }
  }

  ghost predicate Reached(tried: seq<nat>, first: nat, n: nat, e: nat)
    requires n > 0
  {
    exists i :: 0 <= i < |tried| && EndpointAt(first, tried[i], n) == e
  }

  /** Every endpoint is tried. */
  ghost predicate ReachesAll(outcomes: seq<Attempt>, n: nat, first: nat)
    requires n > 0
  {
    forall e :: 0 <= e < n ==> Reached(Retry(Progress(0, 0, []), outcomes, n).tried, first, n, e)
  }

  /** Whatever the outcomes, the attempts from `p` on visit all rotation counts up to the last one. */
  lemma {:induction false} VisitsAllRotations(p: Progress, outcomes: seq<Attempt>, n: nat)
    requires outcomes != []
    requires forall k :: k in p.tried ==> k <= p.rotations
    ensures var r := Retry(p, outcomes, n);
            && p.rotations <= r.rotations && p.tried <= r.tried
            && (forall k :: k in r.tried ==> k <= r.rotations)
            && (forall k :: p.rotations <= k <= r.rotations ==> k in r.tried)
    decreases outcomes
  {
    var q := p.(tried := p.tried + [p.rotations]);
    assert q.tried[|p.tried|] == p.rotations;
    if outcomes[0] != Success && |outcomes| > 1 {
      VisitsAllRotations(AfterFailure(q, outcomes[0], n), outcomes[1..], n);
    }
  }

  /** For any outcomes, all endpoints are tried exactly if the client rotates n - 1 times. */
  lemma ReachesAllByRotations(outcomes: seq<Attempt>, n: nat, first: nat)
    requires outcomes != [] && first < n
    ensures ReachesAll(outcomes, n, first) <==> Retry(Progress(0, 0, []), outcomes, n).rotations >= n - 1
  {
    var r := Retry(Progress(0, 0, []), outcomes, n);
    VisitsAllRotations(Progress(0, 0, []), outcomes, n);
    if r.rotations >= n - 1 {
      forall e | 0 <= e < n ensures Reached(r.tried, first, n, e) {
        var k := if e >= first then e - first else e + n - first;
        EndpointAtCases(first, k, n);
        assert k in r.tried;
        var i :| 0 <= i < |r.tried| && r.tried[i] == k;
      }
    } else {
      var last := EndpointAt(first, n - 1, n);
      EndpointAtCases(first, n - 1, n);
      forall i | 0 <= i < |r.tried| ensures EndpointAt(first, r.tried[i], n) != last {
        assert r.tried[i] in r.tried;
        EndpointAtCases(first, r.tried[i], n);
      }
      assert !Reached(r.tried, first, n, last);
    }
  }

  /** Two attempts for each rotation and one more: no outcomes rotate more often. */
  lemma {:induction false} RotationsAtMost(p: Progress, outcomes: seq<Attempt>, n: nat)
    requires outcomes != []
    ensures 2 * (Retry(p, outcomes, n).rotations - p.rotations) <= |outcomes| - 1 + (if p.attempts > 0 then 1 else 0)
    decreases outcomes
  {
    if outcomes[0] != Success && |outcomes| > 1 {
      var q := p.(tried := p.tried + [p.rotations]);
      RotationsAtMost(AfterFailure(q, outcomes[0], n), outcomes[1..], n);
    }
  }

  /** `m` attempts that all fail, in whatever way. */
  ghost predicate Failures(outcomes: seq<Attempt>, m: nat) {
    |outcomes| == m && forall i :: 0 <= i < m ==> outcomes[i].Failure?
  }

  /** The comment on WithFailover promises all endpoints. Some run of m failures reaches them all
      exactly if m is at least 2n - 1. */
  lemma SomeRunReachesAllExactly(m: nat, n: nat, first: nat)
    requires m > 0 && first < n
    ensures (exists outcomes :: Failures(outcomes, m) && ReachesAll(outcomes, n, first)) <==> m >= 2 * n - 1
  {
    forall outcomes | Failures(outcomes, m) && ReachesAll(outcomes, n, first) ensures m >= 2 * n - 1 {
      ReachesAllByRotations(outcomes, n, first);
      RotationsAtMost(Progress(0, 0, []), outcomes, n);
    }
    if m >= 2 * n - 1 {
      var outcomes := PersistentFailures(m);
      AllEndpointsExactly(outcomes, n, first);
      assert Failures(outcomes, m) && ReachesAll(outcomes, n, first);
    }
  }

  /** Every run of m failures reaches them all exactly if there is one endpoint only: failures that
      pass for transient never leave the first. */
  lemma EveryRunReachesAllExactly(m: nat, n: nat, first: nat)
    requires m > 0 && first < n
    ensures (forall outcomes :: Failures(outcomes, m) ==> ReachesAll(outcomes, n, first)) <==> n == 1
  {
    if n == 1 {
      forall outcomes | Failures(outcomes, m) ensures ReachesAll(outcomes, n, first) {
        ReachesAllByRotations(outcomes, n, first);
      }
    } else {
      var outcomes := TransientFailures(m);
      NoRotation(Progress(0, 0, []), outcomes, n);
      ReachesAllByRotations(outcomes, n, first);
      assert Failures(outcomes, m) && !ReachesAll(outcomes, n, first);
    }
  }

  lemma PersistentFailures(m: nat) returns (outcomes: seq<Attempt>)
    ensures Failures(outcomes, m) && AllPersistent(outcomes)
  {
    outcomes := seq(m, i => Failure(""));
    assert !IsTransient("");
  }

  lemma TransientFailures(m: nat) returns (outcomes: seq<Attempt>)
    ensures Failures(outcomes, m) && NonePersistent(outcomes)
  {
    outcomes := seq(m, i => Failure("timeout"));
    assert IsTransient("timeout");
  }

  /** Persistent failures reach every endpoint exactly if there are at least 2n - 1 of them. */
  lemma AllEndpointsExactly(outcomes: seq<Attempt>, n: nat, first: nat)
    requires outcomes != [] && AllPersistent(outcomes) && first < n
    ensures ReachesAll(outcomes, n, first) <==> |outcomes| >= 2 * n - 1
  {
    ReachesAllByRotations(outcomes, n, first);
    if n > 1 {
      PersistentRotation(Progress(0, 0, []), outcomes, n);
    }
  }

  /** With as many attempts as endpoints, the default, only half of them are reached, rounded up; that
      many are reached if the failures are persistent. */
  lemma HalfTheEndpoints(outcomes: seq<Attempt>, n: nat, first: nat)
    requires n > 1 && |outcomes| == n && first < n
    ensures forall k :: k in Retry(Progress(0, 0, []), outcomes, n).tried ==> 2 * k < n
    ensures !ReachesAll(outcomes, n, first)
    ensures AllPersistent(outcomes) ==> Retry(Progress(0, 0, []), outcomes, n).rotations == (n - 1) / 2
  {
    VisitsAllRotations(Progress(0, 0, []), outcomes, n);
    RotationsAtMost(Progress(0, 0, []), outcomes, n);
    ReachesAllByRotations(outcomes, n, first);
    if AllPersistent(outcomes) {
      PersistentRotation(Progress(0, 0, []), outcomes, n);
    }
  }
}
