/**
  The points.earn consume loop: bounded retries, then a dead-letter queue, then the commit.
  FetchMessage may return any message at any time; the processor, the dead-letter writer and
  the offset commit may each succeed or fail on every occasion.
 */
module KafkaRetry {
  import opened Common

  datatype Message = Message(partition: int, offset: int)

  datatype Fetch =
    | Fetched(m: Message, processed: bool, published: bool, acked: bool)
    | FetchFailed

  datatype Effect =
    | Processed(m: Message, ok: bool)
    | Published(m: Message, attempts: nat, ok: bool)
    | Committed(m: Message, ok: bool)

  datatype Cursor = Cursor(valid: bool, at: Message, exhausted: bool, failed: nat)

  const START := Cursor(false, Message(0, 0), false, 0)

  function Moved(c: Cursor, m: Message): Cursor {
    if !c.valid || c.at != m then Cursor(true, m, false, 0) else c
  }

  /** One turn of the loop: what it does to the outside, and the cursor it leaves. */
  function Effects(maxRetries: nat, c: Cursor, f: Fetch): seq<Effect> {
    if f.FetchFailed? then [] else
    var d := Moved(c, f.m);
    var calls := if d.exhausted then [] else [Processed(f.m, f.processed)];
    var failed := if d.exhausted then d.failed else d.failed + 1;
    if !d.exhausted && f.processed then calls + [Committed(f.m, f.acked)]
    else if !d.exhausted && failed < maxRetries then calls
    else if !f.published then calls + [Published(f.m, failed, false)]
    else calls + [Published(f.m, failed, true), Committed(f.m, f.acked)]
  }

  function Turn(maxRetries: nat, c: Cursor, f: Fetch): Cursor {
    if f.FetchFailed? then c else
    var d := Moved(c, f.m);
    if !d.exhausted && f.processed then d.(valid := false)
    else
      var failed := if d.exhausted then d.failed else d.failed + 1;
      if !d.exhausted && failed < maxRetries then d.(failed := failed)
      else if !f.published then d.(exhausted := true, failed := failed)
      else Cursor(false, d.at, false, 0)
  }

  function CursorAfter(maxRetries: nat, fetches: seq<Fetch>): Cursor {
    if fetches == [] then START
    else Turn(maxRetries, CursorAfter(maxRetries, fetches[..|fetches| - 1]), fetches[|fetches| - 1])
  }

  /** What the n-th fetch makes the loop do. */
  function EffectsAt(maxRetries: nat, fetches: seq<Fetch>, n: nat): seq<Effect>
    requires n < |fetches|
  {
    Effects(maxRetries, CursorAfter(maxRetries, fetches[..n]), fetches[n])
  }

  /** Everything the loop does. */
  function Trace(maxRetries: nat, fetches: seq<Fetch>): seq<Effect> {
    if fetches == [] then []
    else
      var n := |fetches| - 1;
      Trace(maxRetries, fetches[..n]) + EffectsAt(maxRetries, fetches, n)
  }

  class PointsEarnConsumer {
    const maxRetries: nat
    var cursorValid: bool
    var cur: Message
    var exhausted: bool
    var failedAttempts: nat

    constructor (maxRetries: int)
      ensures this.maxRetries == (if maxRetries < 1 then 1 else maxRetries)
      ensures State() == START
    {
      this.maxRetries := if maxRetries < 1 then 1 else maxRetries;
      cursorValid, cur, exhausted, failedAttempts := false, Message(0, 0), false, 0;
    }

    function State(): Cursor
      reads this
    {
      Cursor(cursorValid, cur, exhausted, failedAttempts)
    }

    method HandleFetched(m: Message, processed: bool, published: bool, acked: bool) returns (effects: seq<Effect>)
      modifies this
      ensures effects == Effects(maxRetries, old(State()), Fetched(m, processed, published, acked))
      ensures State() == Turn(maxRetries, old(State()), Fetched(m, processed, published, acked))
      ensures var known := old(cursorValid) && old(cur) == m;
              var spent := known && old(exhausted);
              var attempts := (if known then old(failedAttempts) else 0) + if spent then 0 else 1;
              var calls := if spent then [] else [Processed(m, processed)];
              if !spent && processed then effects == calls + [Committed(m, acked)] && !cursorValid
              else if !spent && attempts < maxRetries then
                effects == calls && cursorValid && cur == m && !exhausted && failedAttempts == attempts
              else if !published then
                effects == calls + [Published(m, attempts, false)] && cursorValid && cur == m && exhausted && failedAttempts == attempts
              else effects == calls + [Published(m, attempts, true), Committed(m, acked)] && !cursorValid
    {
      effects := [];
      if !cursorValid || cur != m {
        cursorValid, cur, exhausted, failedAttempts := true, m, false, 0;
      }
      if !exhausted {
        effects := effects + [Processed(m, processed)];
        if processed {
          effects := effects + [Committed(m, acked)];
          cursorValid := false;
          return;
        }
        failedAttempts := failedAttempts + 1;
        if failedAttempts < maxRetries {
          return;
        }
        exhausted := true;
      }
      effects := effects + [Published(m, failedAttempts, published)];
      if !published {
        return;
      }
      effects := effects + [Committed(m, acked)];
      cursorValid, exhausted, failedAttempts := false, false, 0;
    }

    method ConsumeLoop(fetches: seq<Fetch>) returns (trace: seq<Effect>)
      requires State() == START
      modifies this
      ensures trace == Trace(maxRetries, fetches)
    {
      trace := [];
      for i := 0 to |fetches|
        invariant trace == Trace(maxRetries, fetches[..i])
        invariant State() == CursorAfter(maxRetries, fetches[..i])
      {
        assert fetches[..i + 1][..i] == fetches[..i];
        var f := fetches[i];
        if f.Fetched? {
          var effects := HandleFetched(f.m, f.processed, f.published, f.acked);
          trace := trace + effects;
        }
      }
      assert fetches[..|fetches|] == fetches;
    }
  }

  // ---------- what the cursor guarantees ----------

  lemma {:induction false} CursorOk(maxRetries: nat, fetches: seq<Fetch>)
    requires maxRetries >= 1
    ensures var c := CursorAfter(maxRetries, fetches);
            c.valid ==> if c.exhausted then c.failed == maxRetries else c.failed < maxRetries
  {
    if fetches != [] {
      CursorOk(maxRetries, fetches[..|fetches| - 1]);
    }
  }

  /** An offset is committed only right after success, or right after a dead letter recording maxRetries attempts. */
  predicate Justified(maxRetries: nat, trace: seq<Effect>) {
    forall i :: 0 <= i < |trace| && trace[i].Committed? ==>
      i > 0 && (trace[i - 1] == Processed(trace[i].m, true) || trace[i - 1] == Published(trace[i].m, maxRetries, true))
  }

  lemma TurnIsJustified(maxRetries: nat, c: Cursor, f: Fetch)
    requires maxRetries >= 1
    requires c.valid ==> if c.exhausted then c.failed == maxRetries else c.failed < maxRetries
    ensures Justified(maxRetries, Effects(maxRetries, c, f))
  {
  }

  lemma JustifiedConcat(maxRetries: nat, a: seq<Effect>, b: seq<Effect>)
    requires Justified(maxRetries, a) && Justified(maxRetries, b)
    ensures Justified(maxRetries, a + b)
  {
    var all := a + b;
    forall i | 0 <= i < |all| && all[i].Committed?
      ensures i > 0 && (all[i - 1] == Processed(all[i].m, true) || all[i - 1] == Published(all[i].m, maxRetries, true))
    {
      if i < |a| {
        assert a[i].Committed?;
      } else {
        assert b[i - |a|].Committed?;
      }
    }
  }

  lemma {:induction false} CommitsAreJustified(maxRetries: nat, fetches: seq<Fetch>)
    requires maxRetries >= 1
    ensures Justified(maxRetries, Trace(maxRetries, fetches))
  {
    hide Effects, CursorAfter, Justified;
    if fetches == [] {
      NothingToJustify(maxRetries);
    } else {
      var n := |fetches| - 1;
      CommitsAreJustified(maxRetries, fetches[..n]);
      CursorOk(maxRetries, fetches[..n]);
      TurnIsJustified(maxRetries, CursorAfter(maxRetries, fetches[..n]), fetches[n]);
      JustifiedConcat(maxRetries, Trace(maxRetries, fetches[..n]), EffectsAt(maxRetries, fetches, n));
    }
  }

  lemma NothingToJustify(maxRetries: nat)
    ensures Justified(maxRetries, [])
  {
  }

  /** After every success, and after every dead letter that got through, comes the commit of that message. */
  predicate Completed(trace: seq<Effect>) {
    forall i :: 0 <= i < |trace| && ((trace[i].Processed? && trace[i].ok) || (trace[i].Published? && trace[i].ok)) ==>
      i + 1 < |trace| && trace[i + 1].Committed? && trace[i + 1].m == trace[i].m
  }

  lemma TurnIsCompleted(maxRetries: nat, c: Cursor, f: Fetch)
    ensures Completed(Effects(maxRetries, c, f))
  {
  }

  lemma CompletedConcat(a: seq<Effect>, b: seq<Effect>)
    requires Completed(a) && Completed(b)
    ensures Completed(a + b)
  {
    var all := a + b;
    forall i | 0 <= i < |all| && ((all[i].Processed? && all[i].ok) || (all[i].Published? && all[i].ok))
      ensures i + 1 < |all| && all[i + 1].Committed? && all[i + 1].m == all[i].m
    {
      if i < |a| {
        assert a[i] == all[i];
        assert a[i + 1] == all[i + 1];
      } else {
        assert b[i - |a|] == all[i];
        assert b[i - |a| + 1] == all[i + 1];
      }
    }
  }

  lemma {:induction false} SuccessesAreCommitted(maxRetries: nat, fetches: seq<Fetch>)
    ensures Completed(Trace(maxRetries, fetches))
  {
    hide Effects, CursorAfter, Completed;
    if fetches == [] {
      NothingToComplete();
    } else {
      var n := |fetches| - 1;
      SuccessesAreCommitted(maxRetries, fetches[..n]);
      TurnIsCompleted(maxRetries, CursorAfter(maxRetries, fetches[..n]), fetches[n]);
      CompletedConcat(Trace(maxRetries, fetches[..n]), EffectsAt(maxRetries, fetches, n));
    }
  }

  lemma NothingToComplete()
    ensures Completed([])
  {
  }

  // ---------- one run of deliveries of a message ----------

  function CallCount(): Effect -> int { (e: Effect) => if e.Processed? then 1 else 0 }
  function FailureCount(): Effect -> int { (e: Effect) => if e.Processed? && !e.ok then 1 else 0 }
  function CommitCount(): Effect -> int { (e: Effect) => if e.Committed? then 1 else 0 }

  /** The effects of fetches i..n, counted by w. */
  function During(maxRetries: nat, fetches: seq<Fetch>, i: nat, n: nat, w: Effect -> int): int
    requires i <= n <= |fetches|
    decreases n
  {
    if i == n then 0 else During(maxRetries, fetches, i, n - 1, w) + Total(EffectsAt(maxRetries, fetches, n - 1), w)
  }

  /** From i to n nothing but m was delivered. */
  predicate OnlyDelivers(fetches: seq<Fetch>, i: nat, n: nat, m: Message) {
    forall k :: i <= k < n && k < |fetches| && fetches[k].Fetched? ==> fetches[k].m == m
  }

  lemma EffectTotals(maxRetries: nat, c: Cursor, f: Fetch)
    requires f.Fetched?
    ensures var d := Moved(c, f.m);
            var e := Effects(maxRetries, c, f);
            var failed := if d.exhausted then d.failed else d.failed + 1;
            && Total(e, CallCount()) == (if d.exhausted then 0 else 1)
            && Total(e, FailureCount()) == (if d.exhausted || f.processed then 0 else 1)
            && Total(e, CommitCount()) == (if (!d.exhausted && f.processed) || ((d.exhausted || failed >= maxRetries) && f.published) then 1 else 0)
  {
    hide Total, CallCount, FailureCount, CommitCount, Moved;
    var d := Moved(c, f.m);
    var calls := if d.exhausted then [] else [Processed(f.m, f.processed)];
    var failed := if d.exhausted then d.failed else d.failed + 1;
    var letter := calls + [Published(f.m, failed, true)];
    assert [] + [Processed(f.m, f.processed)] == [Processed(f.m, f.processed)];
    assert calls + [Published(f.m, failed, true), Committed(f.m, f.acked)] == letter + [Committed(f.m, f.acked)];
    NoTotals();
    TotalsOf([], Processed(f.m, f.processed));
    TotalsOf(calls, Committed(f.m, f.acked));
    TotalsOf(calls, Published(f.m, failed, f.published));
    TotalsOf(letter, Committed(f.m, f.acked));
  }

  lemma NoTotals()
    ensures Total([], CallCount()) == Total([], FailureCount()) == Total([], CommitCount()) == 0
  {
  }

  lemma TotalsOf(es: seq<Effect>, e: Effect)
    ensures Total(es + [e], CallCount()) == Total(es, CallCount()) + if e.Processed? then 1 else 0
    ensures Total(es + [e], FailureCount()) == Total(es, FailureCount()) + if e.Processed? && !e.ok then 1 else 0
    ensures Total(es + [e], CommitCount()) == Total(es, CommitCount()) + if e.Committed? then 1 else 0
  {
    TotalAppend(es, e, CallCount());
    TotalAppend(es, e, FailureCount());
    TotalAppend(es, e, CommitCount());
  }

  lemma TurnAt(maxRetries: nat, fetches: seq<Fetch>, n: nat)
    requires n < |fetches|
    ensures CursorAfter(maxRetries, fetches[..n + 1]) == Turn(maxRetries, CursorAfter(maxRetries, fetches[..n]), fetches[n])
  {
    assert fetches[..n + 1][..n] == fetches[..n];
  }

  /** Calls that so many commits pay for. */
  function Budget(maxRetries: nat, commits: int): int {
    maxRetries * commits
  }

  lemma BudgetNext(maxRetries: nat, commits: int)
    ensures Budget(maxRetries, commits + 1) == Budget(maxRetries, commits) + maxRetries
    ensures Budget(maxRetries, 0) == 0
  {
  }

  lemma {:induction false} CallsInRun(maxRetries: nat, fetches: seq<Fetch>, i: nat, n: nat, m: Message)
    requires maxRetries >= 1 && i <= n <= |fetches| && OnlyDelivers(fetches, i, n, m)
    ensures var c := CursorAfter(maxRetries, fetches[..n]);
            During(maxRetries, fetches, i, n, CallCount())
            <= Budget(maxRetries, During(maxRetries, fetches, i, n, CommitCount())) + if c.valid && c.at == m then c.failed else 0
  {
    hide Budget, Effects, Turn, CursorAfter, Total;
    if i == n {
      BudgetNext(maxRetries, 0);
      CursorOk(maxRetries, fetches[..n]);
    } else {
      CallsInRun(maxRetries, fetches, i, n - 1, m);
      CursorOk(maxRetries, fetches[..n - 1]);
      TurnAt(maxRetries, fetches, n - 1);
      var c, f := CursorAfter(maxRetries, fetches[..n - 1]), fetches[n - 1];
      if f.Fetched? {
        CallsStep(maxRetries, c, f, During(maxRetries, fetches, i, n - 1, CallCount()),
                  During(maxRetries, fetches, i, n - 1, CommitCount()));
      } else {
        NoEffects(maxRetries, c, f);
      }
    }
  }

  lemma NoEffects(maxRetries: nat, c: Cursor, f: Fetch)
    requires f.FetchFailed?
    ensures Turn(maxRetries, c, f) == c
    ensures forall w :: Total(Effects(maxRetries, c, f), w) == 0
  {
  }

  lemma CallsStep(maxRetries: nat, c: Cursor, f: Fetch, calls: int, commits: int)
    requires maxRetries >= 1 && f.Fetched?
    requires c.valid ==> if c.exhausted then c.failed == maxRetries else c.failed < maxRetries
    requires calls <= Budget(maxRetries, commits) + if c.valid && c.at == f.m then c.failed else 0
    ensures var d := Turn(maxRetries, c, f);
            calls + Total(Effects(maxRetries, c, f), CallCount())
            <= Budget(maxRetries, commits + Total(Effects(maxRetries, c, f), CommitCount())) + if d.valid && d.at == f.m then d.failed else 0
  {
    hide Budget, Effects, Total;
    EffectTotals(maxRetries, c, f);
    BudgetNext(maxRetries, commits);
  }

  /**
    While only one message keeps being delivered, the processor is called at most maxRetries
    times before the first commit and at most maxRetries times per commit after it, however
    often dead-letter publishing fails.
   */
  lemma BoundedCalls(maxRetries: nat, fetches: seq<Fetch>, i: nat, n: nat, m: Message)
    requires maxRetries >= 1 && i <= n <= |fetches| && OnlyDelivers(fetches, i, n, m)
    ensures During(maxRetries, fetches, i, n, CallCount()) <= maxRetries * (1 + During(maxRetries, fetches, i, n, CommitCount()))
  {
    hide During, CursorAfter;
    CallsInRun(maxRetries, fetches, i, n, m);
    CursorOk(maxRetries, fetches[..n]);
    BudgetNext(maxRetries, During(maxRetries, fetches, i, n, CommitCount()));
  }

  /** The recorded attempts really happened: since fetch i only m came, and it failed that many times without a commit. */
  ghost predicate FailedSince(maxRetries: nat, fetches: seq<Fetch>, i: nat, n: nat, m: Message, failed: nat) {
    && i <= n <= |fetches|
    && OnlyDelivers(fetches, i, n, m)
    && During(maxRetries, fetches, i, n, FailureCount()) == failed
    && During(maxRetries, fetches, i, n, CallCount()) == failed
    && During(maxRetries, fetches, i, n, CommitCount()) == 0
  }

  /** One more fetch: nothing else delivered, no commit, and every call on the message failed. */
  lemma FailedGrows(maxRetries: nat, fetches: seq<Fetch>, i: nat, n: nat, m: Message, failed: nat, more: nat)
    requires n < |fetches| && FailedSince(maxRetries, fetches, i, n, m, failed)
    requires fetches[n].Fetched? ==> fetches[n].m == m
    requires var e := EffectsAt(maxRetries, fetches, n);
             Total(e, CallCount()) == more && Total(e, FailureCount()) == more && Total(e, CommitCount()) == 0
    ensures FailedSince(maxRetries, fetches, i, n + 1, m, failed + more)
  {
    hide EffectsAt, Total;
  }

  lemma FailedNever(maxRetries: nat, fetches: seq<Fetch>, n: nat, m: Message)
    requires n <= |fetches|
    ensures FailedSince(maxRetries, fetches, n, n, m, 0)
  {
  }

  lemma {:induction false} AttemptsAreReal(maxRetries: nat, fetches: seq<Fetch>, n: nat)
    requires n <= |fetches|
    ensures var c := CursorAfter(maxRetries, fetches[..n]);
            c.valid ==> exists i :: FailedSince(maxRetries, fetches, i, n, c.at, c.failed)
  {
    hide FailedSince, CursorAfter, Effects, Total, During;
    if n == 0 {
      NothingValidYet(maxRetries, fetches);
    } else {
      AttemptsAreReal(maxRetries, fetches, n - 1);
      TurnAt(maxRetries, fetches, n - 1);
      var b, c, f := CursorAfter(maxRetries, fetches[..n - 1]), CursorAfter(maxRetries, fetches[..n]), fetches[n - 1];
      if c.valid {
        var from: nat, failed: nat := n - 1, 0;
        if b.valid && (f.Fetched? ==> b.at == f.m) {
          from :| FailedSince(maxRetries, fetches, from, n - 1, b.at, b.failed);
          failed := b.failed;
        } else {
          FailedNever(maxRetries, fetches, n - 1, c.at);
        }
        if f.Fetched? { EffectTotals(maxRetries, b, f); } else { NoEffects(maxRetries, b, f); }
        FailedGrows(maxRetries, fetches, from, n - 1, c.at, failed, c.failed - failed);
      }
    }
  }

  lemma NothingValidYet(maxRetries: nat, fetches: seq<Fetch>)
    ensures !CursorAfter(maxRetries, fetches[..0]).valid
  {
  }

  /** From fetch i to fetch n, both included, only m came, and every one of these calls on it failed. */
  ghost predicate AllCallsFailed(maxRetries: nat, fetches: seq<Fetch>, i: nat, n: nat, m: Message, calls: nat) {
    && i <= n < |fetches|
    && OnlyDelivers(fetches, i, n + 1, m)
    && During(maxRetries, fetches, i, n + 1, CallCount()) == calls
    && During(maxRetries, fetches, i, n + 1, FailureCount()) == calls
  }

  lemma LetterOf(maxRetries: nat, c: Cursor, f: Fetch, e: Effect)
    requires maxRetries >= 1 && e in Effects(maxRetries, c, f) && e.Published?
    requires c.valid ==> if c.exhausted then c.failed == maxRetries else c.failed < maxRetries
    ensures f.Fetched? && f.m == e.m && e.attempts == maxRetries
    ensures Total(Effects(maxRetries, c, f), CallCount()) == Total(Effects(maxRetries, c, f), FailureCount())
         == maxRetries - if c.valid && c.at == e.m then c.failed else 0
  {
    hide Total, CallCount, FailureCount, CommitCount;
    if f.Fetched? {
      EffectTotals(maxRetries, c, f);
    }
  }

  lemma CallsGrow(maxRetries: nat, fetches: seq<Fetch>, i: nat, n: nat, m: Message, failed: nat, more: nat)
    requires n < |fetches| && FailedSince(maxRetries, fetches, i, n, m, failed) && fetches[n].Fetched? && fetches[n].m == m
    requires var e := EffectsAt(maxRetries, fetches, n); Total(e, CallCount()) == Total(e, FailureCount()) == more
    ensures AllCallsFailed(maxRetries, fetches, i, n, m, failed + more)
  {
    hide EffectsAt, Total;
  }

  /** Every dead letter records exactly maxRetries attempts, and they were all failed calls on that message in a row. */
  lemma DeadLettersAreTruthful(maxRetries: nat, fetches: seq<Fetch>, n: nat, e: Effect)
    requires maxRetries >= 1 && n < |fetches|
    requires e in EffectsAt(maxRetries, fetches, n) && e.Published?
    ensures e.attempts == maxRetries
    ensures exists i :: AllCallsFailed(maxRetries, fetches, i, n, e.m, maxRetries)
  {
    hide Effects, CursorAfter, Total, FailedSince, AllCallsFailed;
    var c := CursorAfter(maxRetries, fetches[..n]);
    CursorOk(maxRetries, fetches[..n]);
    LetterOf(maxRetries, c, fetches[n], e);
    if c.valid && c.at == e.m {
      AttemptsAreReal(maxRetries, fetches, n);
      var i :| FailedSince(maxRetries, fetches, i, n, c.at, c.failed);
      CallsGrow(maxRetries, fetches, i, n, e.m, c.failed, maxRetries - c.failed);
    } else {
      FailedNever(maxRetries, fetches, n, e.m);
      CallsGrow(maxRetries, fetches, n, n, e.m, 0, maxRetries);
    }
  }

  // ---------- when a failing message is settled ----------

  /** How often anything was delivered from fetch i to fetch n. */
  function Deliveries(fetches: seq<Fetch>, i: nat, n: nat): (d: nat)
    requires i <= n <= |fetches|
    decreases n
  {
    if i == n then 0 else Deliveries(fetches, i, n - 1) + if fetches[n - 1].Fetched? then 1 else 0
  }

  predicate NeverProcessed(fetches: seq<Fetch>, i: nat, n: nat) {
    forall k :: i <= k < n && k < |fetches| && fetches[k].Fetched? ==> !fetches[k].processed
  }

  /** A dead letter gets through at fetch j, and it is at least the maxRetries-th delivery since fetch i. */
  predicate LetterDue(maxRetries: nat, fetches: seq<Fetch>, i: nat, j: nat)
    requires i <= j < |fetches|
  {
    fetches[j].Fetched? && fetches[j].published && Deliveries(fetches, i, j + 1) >= maxRetries
  }

  /** The cursor while a run of failing deliveries of m is not settled. */
  predicate Counting(maxRetries: nat, c: Cursor, m: Message, deliveries: nat, anew: bool) {
    if deliveries == 0 then anew ==> !c.valid || c.at != m
    else
      && c.valid && c.at == m
      && (c.exhausted || c.failed >= deliveries)
      && (anew ==> c.failed == (if deliveries < maxRetries then deliveries else maxRetries) && (c.exhausted <==> deliveries >= maxRetries))
  }

  lemma CountingStep(maxRetries: nat, c: Cursor, f: Fetch, deliveries: nat, anew: bool)
    requires maxRetries >= 1 && f.Fetched? && Counting(maxRetries, c, f.m, deliveries, anew)
    requires c.valid ==> if c.exhausted then c.failed == maxRetries else c.failed < maxRetries
    ensures var commits := Total(Effects(maxRetries, c, f), CommitCount());
            && commits >= 0
            && (f.published && deliveries + 1 >= maxRetries ==> commits >= 1)
            && (commits >= 1 && !f.processed ==> f.published && (anew ==> deliveries + 1 >= maxRetries))
            && (commits == 0 ==> Counting(maxRetries, Turn(maxRetries, c, f), f.m, deliveries + 1, anew))
  {
    hide Total, Effects;
    EffectTotals(maxRetries, c, f);
  }

  /** How a run of deliveries of one message stands after fetch n. */
  lemma {:induction false} DeliveryRun(maxRetries: nat, fetches: seq<Fetch>, i: nat, n: nat, m: Message, anew: bool)
    requires maxRetries >= 1 && i <= n <= |fetches| && OnlyDelivers(fetches, i, n, m)
    requires var c := CursorAfter(maxRetries, fetches[..i]); anew ==> !c.valid || c.at != m
    ensures During(maxRetries, fetches, i, n, CommitCount()) >= 0
    ensures During(maxRetries, fetches, i, n, CommitCount()) == 0 ==>
              Counting(maxRetries, CursorAfter(maxRetries, fetches[..n]), m, Deliveries(fetches, i, n), anew)
    ensures (exists j :: i <= j < n && LetterDue(maxRetries, fetches, i, j)) ==>
              During(maxRetries, fetches, i, n, CommitCount()) >= 1
    ensures anew && NeverProcessed(fetches, i, n) && During(maxRetries, fetches, i, n, CommitCount()) >= 1 ==>
              exists j :: i <= j < n && LetterDue(maxRetries, fetches, i, j)
  {
    hide CursorAfter, Effects, Total, Turn, Counting;
    if i == n {
      NotCountingYet(maxRetries, CursorAfter(maxRetries, fetches[..n]), m, anew);
    } else {
      DeliveryRun(maxRetries, fetches, i, n - 1, m, anew);
      var c, f := CursorAfter(maxRetries, fetches[..n - 1]), fetches[n - 1];
      CursorOk(maxRetries, fetches[..n - 1]);
      TurnAt(maxRetries, fetches, n - 1);
      if f.FetchFailed? {
        NoEffects(maxRetries, c, f);
      } else {
        CommitsNonNegative(maxRetries, c, f);
        if During(maxRetries, fetches, i, n - 1, CommitCount()) == 0 {
          CountingStep(maxRetries, c, f, Deliveries(fetches, i, n - 1), anew);
          assert f.published && Deliveries(fetches, i, n) >= maxRetries <==> LetterDue(maxRetries, fetches, i, n - 1);
        }
      }
    }
  }

  lemma NotCountingYet(maxRetries: nat, c: Cursor, m: Message, anew: bool)
    requires anew ==> !c.valid || c.at != m
    ensures Counting(maxRetries, c, m, 0, anew)
  {
  }

  lemma CommitsNonNegative(maxRetries: nat, c: Cursor, f: Fetch)
    ensures Total(Effects(maxRetries, c, f), CommitCount()) >= 0
  {
    hide Total, Effects;
    if f.Fetched? { EffectTotals(maxRetries, c, f); } else { NoEffects(maxRetries, c, f); }
  }

  /** A message that keeps being delivered alone is settled once a dead letter gets through at its maxRetries-th delivery or later. */
  lemma PoisonIsSettled(maxRetries: nat, fetches: seq<Fetch>, i: nat, n: nat, m: Message)
    requires maxRetries >= 1 && i <= n <= |fetches| && OnlyDelivers(fetches, i, n, m)
    requires exists j :: i <= j < n && LetterDue(maxRetries, fetches, i, j)
    ensures During(maxRetries, fetches, i, n, CommitCount()) >= 1
  {
    hide During, CursorAfter, LetterDue;
    DeliveryRun(maxRetries, fetches, i, n, m, false);
  }

  /**
    A failing message that the cursor does not stand on is settled by a run of deliveries exactly
    when some dead letter gets through at its maxRetries-th delivery or later.
   */
  lemma PoisonIsSettledIff(maxRetries: nat, fetches: seq<Fetch>, i: nat, n: nat, m: Message)
    requires maxRetries >= 1 && i <= n <= |fetches| && OnlyDelivers(fetches, i, n, m) && NeverProcessed(fetches, i, n)
    requires var c := CursorAfter(maxRetries, fetches[..i]); !c.valid || c.at != m
    ensures During(maxRetries, fetches, i, n, CommitCount()) >= 1
       <==> exists j :: i <= j < n && LetterDue(maxRetries, fetches, i, j)
  {
    hide During, CursorAfter, LetterDue;
    DeliveryRun(maxRetries, fetches, i, n, m, true);
  }

  /** Fetches i to j deliver m alone, often enough, and the last one's dead letter gets through. */
  predicate Settles(maxRetries: nat, fetches: seq<Fetch>, i: nat, j: nat, m: Message) {
    i <= j < |fetches| && OnlyDelivers(fetches, i, j + 1, m) && fetches[j].Fetched? && LetterDue(maxRetries, fetches, i, j)
  }

  lemma {:induction false} DuringSplits(maxRetries: nat, fetches: seq<Fetch>, i: nat, k: nat, n: nat)
    requires i <= k <= n <= |fetches|
    ensures During(maxRetries, fetches, i, n, CommitCount())
         == During(maxRetries, fetches, i, k, CommitCount()) + During(maxRetries, fetches, k, n, CommitCount())
    ensures During(maxRetries, fetches, k, n, CommitCount()) >= 0
  {
    hide Total, Effects, CursorAfter;
    if k < n {
      DuringSplits(maxRetries, fetches, i, k, n - 1);
      CommitsNonNegative(maxRetries, CursorAfter(maxRetries, fetches[..n - 1]), fetches[n - 1]);
    }
  }

  lemma {:induction false} FirstCommit(maxRetries: nat, fetches: seq<Fetch>, n: nat) returns (j: nat)
    requires n <= |fetches| && During(maxRetries, fetches, 0, n, CommitCount()) >= 1
    ensures j < n && Total(EffectsAt(maxRetries, fetches, j), CommitCount()) >= 1
  {
    hide EffectsAt, Total;
    if Total(EffectsAt(maxRetries, fetches, n - 1), CommitCount()) >= 1 {
      j := n - 1;
    } else {
      j := FirstCommit(maxRetries, fetches, n - 1);
    }
  }

  lemma {:induction false} CallsAreDeliveries(maxRetries: nat, fetches: seq<Fetch>, i: nat, n: nat)
    requires i <= n <= |fetches|
    ensures During(maxRetries, fetches, i, n, CallCount()) <= Deliveries(fetches, i, n)
  {
    hide Total, Effects, CursorAfter;
    if i < n {
      CallsAreDeliveries(maxRetries, fetches, i, n - 1);
      var c, f := CursorAfter(maxRetries, fetches[..n - 1]), fetches[n - 1];
      if f.Fetched? { EffectTotals(maxRetries, c, f); } else { NoEffects(maxRetries, c, f); }
    }
  }

  lemma LetterBeforeCommit(maxRetries: nat, c: Cursor, f: Fetch)
    requires Total(Effects(maxRetries, c, f), CommitCount()) >= 1 && (f.Fetched? ==> !f.processed)
    ensures f.Fetched? && f.published
    ensures exists e :: e in Effects(maxRetries, c, f) && e.Published? && e.m == f.m
  {
    if f.FetchFailed? {
      NoEffects(maxRetries, c, f);
    } else {
      EffectTotals(maxRetries, c, f);
      hide Total;
      var d := Moved(c, f.m);
      assert Published(f.m, if d.exhausted then d.failed else d.failed + 1, true) in Effects(maxRetries, c, f);
    }
  }

  /**
    While the processor only fails, something is settled exactly when some message is delivered
    maxRetries times with no other in between and a dead letter for it then gets through.
   */
  lemma SettledIffInARow(maxRetries: nat, fetches: seq<Fetch>)
    requires maxRetries >= 1 && NeverProcessed(fetches, 0, |fetches|)
    ensures During(maxRetries, fetches, 0, |fetches|, CommitCount()) >= 1
       <==> exists i: nat, j: nat, m: Message :: Settles(maxRetries, fetches, i, j, m)
  {
    hide During, Effects, CursorAfter, Total, LetterDue, Deliveries, AllCallsFailed;
    var n := |fetches|;
    if During(maxRetries, fetches, 0, n, CommitCount()) >= 1 {
      var i, j, m := CommitNeedsRow(maxRetries, fetches);
    }
    if i: nat, j: nat, m: Message :| Settles(maxRetries, fetches, i, j, m) {
      DeliveryRun(maxRetries, fetches, i, j + 1, m, false);
      DuringSplits(maxRetries, fetches, 0, i, j + 1);
      DuringSplits(maxRetries, fetches, 0, 0, i);
      DuringSplits(maxRetries, fetches, 0, j + 1, n);
    }
  }

  lemma CommitNeedsRow(maxRetries: nat, fetches: seq<Fetch>) returns (i: nat, j: nat, m: Message)
    requires maxRetries >= 1 && NeverProcessed(fetches, 0, |fetches|)
    requires During(maxRetries, fetches, 0, |fetches|, CommitCount()) >= 1
    ensures Settles(maxRetries, fetches, i, j, m)
  {
    hide During, Effects, CursorAfter, Total, Deliveries;
    j := FirstCommit(maxRetries, fetches, |fetches|);
    LetterBeforeCommit(maxRetries, CursorAfter(maxRetries, fetches[..j]), fetches[j]);
    var e :| e in EffectsAt(maxRetries, fetches, j) && e.Published? && e.m == fetches[j].m;
    DeadLettersAreTruthful(maxRetries, fetches, j, e);
    i :| AllCallsFailed(maxRetries, fetches, i, j, e.m, maxRetries);
    m := e.m;
    CallsAreDeliveries(maxRetries, fetches, i, j + 1);
  }

  /** In particular two failing messages delivered in turn reset each other's count and are never settled. */
  lemma {:induction false} AlternatingPoisonNeverSettles(maxRetries: nat, fetches: seq<Fetch>, a: Message, b: Message)
    requires maxRetries >= 2 && a != b
    requires forall j :: 0 <= j < |fetches| ==>
               fetches[j].Fetched? && !fetches[j].processed && fetches[j].m == if j % 2 == 0 then a else b
    ensures During(maxRetries, fetches, 0, |fetches|, CommitCount()) == 0
    ensures fetches != [] ==> CursorAfter(maxRetries, fetches) == Cursor(true, fetches[|fetches| - 1].m, false, 1)
  {
    hide Effects, Total, CursorAfter;
    if fetches != [] {
      var n := |fetches| - 1;
      AlternatingPoisonNeverSettles(maxRetries, fetches[..n], a, b);
      NothingValidYet(maxRetries, fetches);
      DuringPrefix(maxRetries, fetches, n, n);
      EffectTotals(maxRetries, CursorAfter(maxRetries, fetches[..n]), fetches[n]);
      TurnAt(maxRetries, fetches, n);
      assert fetches[..n + 1] == fetches;
    }
  }

  lemma {:induction false} DuringPrefix(maxRetries: nat, fetches: seq<Fetch>, n: nat, j: nat)
    requires j <= n <= |fetches|
    ensures During(maxRetries, fetches[..n], 0, j, CommitCount()) == During(maxRetries, fetches, 0, j, CommitCount())
  {
    if j > 0 {
      DuringPrefix(maxRetries, fetches, n, j - 1);
      assert fetches[..n][..j - 1] == fetches[..j - 1];
    }
  }
}
