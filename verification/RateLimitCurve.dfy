/**
  What the token bucket's decisions amount to: the level formula, the arrival-curve bound
  and the optimality of admitting greedily.  Requests arrive in clock order.
 */
module RateLimitCurve {
  import opened RateLimit

  predicate Ordered(times: seq<real>) {
    forall i, j :: 0 <= i <= j < |times| ==> times[i] <= times[j]
  }

  /** The decisions on a client's requests, one per request. */
  function Decisions(l: Limits, times: seq<real>): (d: seq<bool>)
    ensures |d| == |times|
  {
    if times == [] then [] else Decisions(l, times[..|times| - 1]) + [Admits(l, times)]
  }

  function Admitted(d: seq<bool>): nat {
    if d == [] then 0 else Admitted(d[..|d| - 1]) + if d[|d| - 1] then 1 else 0
  }

  /** Requests admitted from the k-th to the (n-1)-th. */
  function Window(d: seq<bool>, k: nat, n: nat): int
    requires k <= n <= |d|
  {
    Admitted(d[..n]) - Admitted(d[..k])
  }

  /** What the window that opens at request k still allows after the (n-1)-th request. */
  function Slack(l: Limits, times: seq<real>, d: seq<bool>, k: nat, n: nat): real
    requires k < n <= |d| == |times|
  {
    l.burst + l.rate * (times[n - 1] - times[k]) - Window(d, k, n) as real
  }

  lemma AccruedAdds(l: Limits, a: real, b: real, c: real)
    ensures Accrued(l, a, c) == Accrued(l, a, b) + Accrued(l, b, c)
    ensures Accrued(l, a, a) == 0.0
    ensures a <= b && l.rate > 0.0 ==> Accrued(l, a, b) >= 0.0
    ensures Accrued(l, a, b) == l.rate * (b - a) && Accrued(l, a, c) == l.rate * (c - a)
  {
  }

  lemma {:induction false} DecisionsPrefix(l: Limits, times: seq<real>, n: nat)
    requires n <= |times|
    ensures Decisions(l, times)[..n] == Decisions(l, times[..n])
    ensures n > 0 ==> (Decisions(l, times)[n - 1] <==> Admits(l, times[..n]))
  {
    if n == |times| {
      assert times[..n] == times;
    } else {
      var m := |times| - 1;
      DecisionsPrefix(l, times[..m], n);
      assert times[..m][..n] == times[..n];
    }
  }

  lemma WindowStep(d: seq<bool>, k: nat, n: nat)
    requires k <= n < |d|
    ensures Window(d, k, n + 1) == Window(d, k, n) + if d[n] then 1 else 0
  {
    assert d[..n + 1][..n] == d[..n];
  }

  /** The n-th request turns the level, and every open window's slack, down alike. */
  lemma SlackStep(l: Limits, times: seq<real>, d: seq<bool>, k: nat, n: nat)
    requires k <= n < |d| == |times|
    ensures Slack(l, times, d, k, n + 1) + (if d[n] then 1.0 else 0.0)
         == if k == n then l.burst else Slack(l, times, d, k, n) + Accrued(l, times[n - 1], times[n])
  {
    WindowStep(d, k, n);
    AccruedAdds(l, times[k], times[if n == 0 then 0 else n - 1], times[n]);
  }

  lemma LevelStep(l: Limits, times: seq<real>, n: nat)
    requires n < |times|
    ensures var d := Decisions(l, times);
            var level := After(l, times[..n + 1]).tokens + if d[n] then 1.0 else 0.0;
            && (level >= 1.0 <==> d[n])
            && level == if n == 0 then l.burst else
                        var t := After(l, times[..n]).tokens + Accrued(l, times[n - 1], times[n]);
                        if t > l.burst then l.burst else t
  {
    DecisionsPrefix(l, times, n + 1);
    assert times[..n + 1][..n] == times[..n];
    AccruedAdds(l, times[0], times[0], times[0]);
  }

  /** The level is the least slack over all windows that end now. */
  lemma {:induction false} LevelIsLeastSlack(l: Limits, times: seq<real>, n: nat)
    requires 0 < n <= |times|
    ensures forall k :: 0 <= k < n ==> After(l, times[..n]).tokens <= Slack(l, times, Decisions(l, times), k, n)
    ensures exists k :: 0 <= k < n && After(l, times[..n]).tokens == Slack(l, times, Decisions(l, times), k, n)
  {
    hide After, Slack, Accrued, Decisions;
    var d := Decisions(l, times);
    var m := n - 1;
    LevelStep(l, times, m);
    SlackStep(l, times, d, m, m);
    if m > 0 {
      LevelIsLeastSlack(l, times, m);
      forall k | 0 <= k < n ensures After(l, times[..n]).tokens <= Slack(l, times, d, k, n) {
        SlackStep(l, times, d, k, m);
      }
      var k :| 0 <= k < m && After(l, times[..m]).tokens == Slack(l, times, d, k, m);
      SlackStep(l, times, d, k, m);
      assert After(l, times[..n]).tokens == Slack(l, times, d, k, n) || After(l, times[..n]).tokens == Slack(l, times, d, m, n);
    } else {
      assert After(l, times[..n]).tokens == Slack(l, times, d, 0, n);
    }
  }

  lemma {:induction false} LevelNonNegative(l: Limits, times: seq<real>, n: nat)
    requires Ordered(times) && 0 < n <= |times| && l.rate > 0.0 && l.burst >= 1.0
    ensures After(l, times[..n]).tokens >= 0.0
  {
    hide After, Accrued, Decisions;
    LevelStep(l, times, n - 1);
    if n > 1 {
      LevelNonNegative(l, times, n - 1);
      AccruedAdds(l, times[n - 2], times[n - 1], 0.0);
    }
  }

  /** Between the k-th request and the (n-1)-th, no more than burst + rate * time were admitted. */
  predicate WithinCurve(l: Limits, times: seq<real>, d: seq<bool>, k: nat, n: nat)
    requires k < n <= |d| == |times|
  {
    Window(d, k, n) as real <= l.burst + l.rate * (times[n - 1] - times[k])
  }

  /** A choice of admitted requests that keeps every window within burst + rate * length. */
  predicate Conforms(l: Limits, times: seq<real>, d: seq<bool>) {
    && |d| == |times|
    && forall k, n :: 0 <= k < n <= |d| ==> WithinCurve(l, times, d, k, n)
  }

  lemma SlackIsRoom(l: Limits, times: seq<real>, d: seq<bool>, k: nat, n: nat)
    requires k < n <= |d| == |times|
    ensures WithinCurve(l, times, d, k, n) <==> Slack(l, times, d, k, n) >= 0.0
  {
  }

  /** Arrival-curve bound: in no window are more than burst + rate * length requests admitted. */
  lemma NeverOverAnyWindow(l: Limits, times: seq<real>)
    requires Ordered(times) && l.rate > 0.0 && l.burst >= 1.0
    ensures Conforms(l, times, Decisions(l, times))
    ensures forall k, n :: 0 <= k < n <= |times| ==>
              Window(Decisions(l, times), k, n) as real <= l.burst + l.rate * (times[n - 1] - times[k])
  {
    hide After, Slack, Window, WithinCurve;
    var d := Decisions(l, times);
    forall k, n | 0 <= k < n <= |d| ensures WithinCurve(l, times, d, k, n) {
      LevelIsLeastSlack(l, times, n);
      LevelNonNegative(l, times, n);
      SlackIsRoom(l, times, d, k, n);
    }
    forall k, n | 0 <= k < n <= |times| ensures Window(d, k, n) as real <= l.burst + l.rate * (times[n - 1] - times[k]) {
      CurveWrittenOut(l, times, d, k, n);
    }
  }

  lemma CurveWrittenOut(l: Limits, times: seq<real>, d: seq<bool>, k: nat, n: nat)
    requires k < n <= |d| == |times| && WithinCurve(l, times, d, k, n)
    ensures Window(d, k, n) as real <= l.burst + l.rate * (times[n - 1] - times[k])
  {
  }

  /** What the window that opens at request k allows the last request. */
  function Room(l: Limits, times: seq<real>, d: seq<bool>, k: nat): real
    requires k < |d| == |times|
  {
    l.burst + l.rate * (times[|times| - 1] - times[k]) - Window(d, k, |d| - 1) as real
  }

  lemma RoomIsSlackBefore(l: Limits, times: seq<real>, d: seq<bool>, k: nat)
    requires k < |d| == |times|
    ensures Room(l, times, d, k) == Slack(l, times, d, k, |d|) + if d[|d| - 1] then 1.0 else 0.0
  {
    WindowStep(d, k, |d| - 1);
  }

  lemma AdmittedIffLeastRoom(l: Limits, times: seq<real>)
    requires times != []
    ensures Admits(l, times) <==> forall k :: 0 <= k < |times| ==> Room(l, times, Decisions(l, times), k) >= 1.0
  {
    hide After, Admits, Decisions, Room, Slack;
    var d, m := Decisions(l, times), |times| - 1;
    assert times[..m + 1] == times;
    LevelStep(l, times, m);
    DecisionsPrefix(l, times, m + 1);
    LevelIsLeastSlack(l, times, m + 1);
    forall k | 0 <= k <= m
      ensures Room(l, times, d, k) == Slack(l, times, d, k, m + 1) + if d[m] then 1.0 else 0.0
    {
      RoomIsSlackBefore(l, times, d, k);
    }
    var least :| 0 <= least < m + 1 && After(l, times[..m + 1]).tokens == Slack(l, times, d, least, m + 1);
    if Admits(l, times) {
      assert forall k :: 0 <= k <= m ==> Room(l, times, d, k) >= 1.0;
    } else {
      assert Room(l, times, d, least) < 1.0;
    }
  }

  /**
    The decision rule: the last request is let through exactly when, counting it, every window
    that ends with it stays within burst + rate * length.
   */
  lemma AdmittedIffRoom(l: Limits, times: seq<real>)
    requires times != []
    ensures var d, m := Decisions(l, times), |times| - 1;
            Admits(l, times) <==>
              forall k :: 0 <= k <= m ==> Window(d, k, m) as real + 1.0 <= l.burst + l.rate * (times[m] - times[k])
  {
    hide Admits, Decisions, Window, Room;
    AdmittedIffLeastRoom(l, times);
    var d, m := Decisions(l, times), |times| - 1;
    forall k | 0 <= k <= m
      ensures Room(l, times, d, k) >= 1.0 <==> Window(d, k, m) as real + 1.0 <= l.burst + l.rate * (times[m] - times[k])
    {
      RoomWrittenOut(l, times, d, k);
    }
  }

  lemma RoomWrittenOut(l: Limits, times: seq<real>, d: seq<bool>, k: nat)
    requires k < |d| == |times|
    ensures var m := |d| - 1;
            Room(l, times, d, k) >= 1.0 <==> Window(d, k, m) as real + 1.0 <= l.burst + l.rate * (times[m] - times[k])
  {
  }

  /** One token a second and a burst of one: half a second after the first, a request is refused. */
  lemma HalfATokenIsNotEnough()
    ensures !Admits(LimitsOf(60, 1), [0.0, 0.5]) && Admits(LimitsOf(60, 1), [0.0, 1.0])
  {
    var l := LimitsOf(60, 1);
    assert l.rate == 1.0 && l.burst == 1.0;
    assert [0.0, 0.5][..1] == [0.0] && [0.0, 1.0][..1] == [0.0];
    assert After(l, [0.0]) == Level(0.0, 0.0);
  }

  /** Greedy is optimal: no conforming choice has admitted more after any number of requests. */
  lemma {:induction false} GreedyIsOptimal(l: Limits, times: seq<real>, other: seq<bool>, n: nat)
    requires Conforms(l, times, other) && n <= |times|
    ensures Admitted(other[..n]) <= Admitted(Decisions(l, times)[..n])
  {
    forall k | 0 <= k < n ensures Slack(l, times, other, k, n) >= 0.0 {
      SlackIsRoom(l, times, other, k, n);
      assert WithinCurve(l, times, other, k, n);
    }
    hide After, Accrued, Decisions, Admitted, Conforms;
    var d := Decisions(l, times);
    if n == 0 {
      assert other[..0] == d[..0];
    } else {
      var m := n - 1;
      WindowStep(d, m, m);
      WindowStep(other, m, m);
      GreedyIsOptimal(l, times, other, m);
      if !d[m] {
        LevelStep(l, times, m);
        LevelIsLeastSlack(l, times, n);
        var k :| 0 <= k < n && After(l, times[..n]).tokens == Slack(l, times, d, k, n);
        GreedyIsOptimal(l, times, other, k);
        assert Slack(l, times, other, k, n) >= 0.0;
      }
    }
  }
}
