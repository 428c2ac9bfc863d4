/**
  What the daily limit means in points.  The limit of a rule counts rewards, so the points of a
  day are the rule's amount for every reward; and every number of rewards up to the limit can
  really be paid, whatever the database held before.
 */
module PointsDailyPoints {
  import opened Common
  import opened PointsLedger
  import opened PointsBooks
  import opened PointsInterleaving
  import opened PointsAlone
  import opened PointsDailyLimit

  function PointsFor(k: Key): Row -> int {
    (r: Row) => if r.userId == k.0 && r.refType == k.1 then r.amount else 0
  }

  /** Points of kind k credited since today's counters started. */
  function PointsToday(s: Sys, k: Key): int
    requires s.dayStart <= |s.db.ledger|
  {
    Total(s.db.ledger[s.dayStart..], PointsFor(k))
  }

  // ---------- points are rewards times the amount ----------

  /** Rows of a rewarded kind carry the rule's amount. */
  predicate AmountsFit(rows: seq<Row>) {
    forall i :: 0 <= i < |rows| && RuleOf(rows[i].refType).Some? ==> rows[i].amount == RuleOf(rows[i].refType).value.amount
  }

  function Times(amount: int, n: int): int {
    amount * n
  }

  lemma TimesNext(amount: int, n: int)
    ensures Times(amount, n + 1) == Times(amount, n) + amount && Times(amount, 0) == 0
  {
  }

  lemma {:induction false} PointsAreRewards(rows: seq<Row>, k: Key)
    requires AmountsFit(rows) && RuleOf(k.1).Some?
    ensures Total(rows, PointsFor(k)) == Times(RuleOf(k.1).value.amount, Total(rows, RewardFor(k)))
  {
    hide Times, RuleOf;
    TimesNext(RuleOf(k.1).value.amount, 0);
    if rows != [] {
      var n := |rows| - 1;
      PointsAreRewards(rows[..n], k);
      TimesNext(RuleOf(k.1).value.amount, Total(rows[..n], RewardFor(k)));
    }
  }

  predicate TodayFits(s: Sys) {
    s.dayStart <= |s.db.ledger| && AmountsFit(s.db.ledger[s.dayStart..])
  }

  lemma RowsFit(g: GrantIds, db: Db, x: Session)
    requires SessionOk(g, db, x) && x.pc.Committing?
    ensures AmountsFit(x.pend.rows)
  {
    CommittingRows(g, db, x);
    assert x.job.Accepted();
    assert MALL[0] == 'm' && GRANT[0] == 'i';
    if RuleOf(MALL).Some? { RuleIsNotGrant(MALL); }
    if RuleOf(GRANT).Some? { RuleIsNotGrant(GRANT); }
    hide SessionOk, RuleOf, HasTxn;
  }

  lemma CommitFits(g: GrantIds, s: Sys, sid: nat, x: Session)
    requires TodayFits(s) && SessionOk(g, s.db, x) && x.pc.Committing?
    ensures TodayFits(Commit(s, sid, x))
  {
    hide SessionOk, RuleOf;
    RowsFit(g, s.db, x);
    var today := s.db.ledger[s.dayStart..];
    assert Commit(s, sid, x).db.ledger[s.dayStart..] == today + x.pend.rows;
  }

  lemma StepFits(g: GrantIds, db0: Db, s: Sys, a: Action)
    requires Inv(g, db0, s) && TodayFits(s)
    ensures TodayFits(Step(g, s, a))
  {
    hide Inv, SessionOk, FindWallet, MovePoints, Commit, CountOf, RuleOf, HasTxn, AmountsFit;
    match a {
      case Advance(sid, choice) =>
        if sid in s.sessions {
          SessionFacts(g, db0, s, sid);
          if s.sessions[sid].pc.Committing? { CommitFits(g, s, sid, s.sessions[sid]); }
        }
      case NewDay =>
        NothingFits();
        assert s.db.ledger[|s.db.ledger|..] == [];
      case _ =>
    }
  }

  lemma NothingFits()
    ensures AmountsFit([])
  {
  }

  lemma {:induction false} RunFits(g: GrantIds, db0: Db, actions: seq<Action>, states: seq<Sys>, n: nat)
    requires IsRun(g, db0, actions, states) && n < |states|
    ensures TodayFits(states[n])
  {
    hide Step, Inv, TodayFits;
    if n == 0 {
      StartFits(db0);
    } else {
      RunFits(g, db0, actions, states, n - 1);
      RunKeepsInv(g, db0, actions, states, n - 1);
      var a := actions[n - 1];
      StepFits(g, db0, states[n - 1], a);
    }
  }

  lemma StartFits(db0: Db)
    ensures TodayFits(Start(db0))
  {
    assert db0.ledger[|db0.ledger|..] == [];
  }

  /** In every reachable state today's points are today's rewards times the rule's amount. */
  lemma PointsTodayExact(g: GrantIds, db0: Db, actions: seq<Action>, states: seq<Sys>, n: nat, k: Key)
    requires IsRun(g, db0, actions, states) && n < |states| && RuleOf(k.1).Some?
    ensures var s := states[n];
            && s.dayStart <= |s.db.ledger|
            && PointsToday(s, k) == RuleOf(k.1).value.amount * PaidToday(s, k)
  {
    RunFits(g, db0, actions, states, n);
    PointsAreRewards(states[n].db.ledger[states[n].dayStart..], k);
  }

  // ---------- the limit can be used up ----------

  function LedgerIds(ledger: seq<Row>): set<nat> {
    set i | 0 <= i < |ledger| :: ledger[i].txnId
  }

  lemma NewTxnId(ledger: seq<Row>, other: nat) returns (id: nat)
    ensures !HasTxn(ledger, id) && id != other
  {
    id := Bounded(LedgerIds(ledger) + {other});
    assert forall i :: 0 <= i < |ledger| ==> ledger[i].txnId in LedgerIds(ledger);
  }

  predicate Idle(s: Sys, k: Key) {
    Quiet(s) && CountOf(s.lost, k) == 0
  }

  lemma NewIdCommits(g: GrantIds, db: Db, job: Job)
    requires job.Earn? && job.Accepted() && !HasTxn(db.ledger, job.txnId) && g(job.user) != job.txnId
    ensures ExecTx(g, db, job, 0).Committed?
  {
    HasTxnAppend(db.ledger, GrantRow(g, job.user), job.txnId);
    RuleIsNotGrant(job.refType);
    hide HasTxn, RuleOf;
  }

  lemma EarnOnce(g: GrantIds, db0: Db, r: Run, k: Key) returns (r': Run)
    requires Ok(g, db0, r) && Idle(Last(r), k) && RuleOf(k.1).Some?
    requires CountOf(Last(r).counters, k) < RuleOf(k.1).value.dailyLimit
    ensures Ok(g, db0, r') && Idle(Last(r'), k)
    ensures CountOf(Last(r').counters, k) == CountOf(Last(r).counters, k) + 1
  {
    hide Ok, Quiet, HasTxn, RuleOf, ExecTx;
    var s := Last(r);
    var id := NewTxnId(s.db.ledger, g(k.0));
    var job := Earn(k.0, k.1, 0, id);
    NewIdCommits(g, s.db, job);
    r' := UndisturbedCommits(g, db0, r, job, 0);
  }

  lemma IdlePaid(g: GrantIds, db0: Db, r: Run, k: Key)
    requires Ok(g, db0, r) && Idle(Last(r), k) && RuleOf(k.1).Some?
    ensures Last(r).dayStart <= |Last(r).db.ledger| && PaidToday(Last(r), k) == CountOf(Last(r).counters, k)
  {
    hide RuleOf, PaidToday;
    DailyLimitExact(g, db0, r.actions, r.states, |r.actions|, k);
    assert InFlight(Last(r), k) == {};
  }

  /** Whatever the database held, every number of rewards up to the limit can be paid on a day. */
  lemma {:induction false} LimitReachable(g: GrantIds, db0: Db, k: Key, p: nat) returns (r: Run)
    requires RuleOf(k.1).Some? && p <= RuleOf(k.1).value.dailyLimit
    ensures Ok(g, db0, r) && Last(r).dayStart <= |Last(r).db.ledger| && PaidToday(Last(r), k) == p
    ensures Idle(Last(r), k)
    decreases p
  {
    if p == 0 {
      r := Run([], [Start(db0)]);
      hide RuleOf, PaidToday;
    } else {
      var before := LimitReachable(g, db0, k, p - 1);
      IdlePaid(g, db0, before, k);
      r := EarnOnce(g, db0, before, k);
    }
    IdlePaid(g, db0, r, k);
  }

  /** In no reachable state have more points of kind k been paid today than its limit says. */
  ghost predicate PointsStayWithinLimit(g: GrantIds, db0: Db, k: Key)
    requires RuleOf(k.1).Some?
  {
    forall r: Run :: Ok(g, db0, r) ==> PointsFit(Last(r), k)
  }

  predicate PointsFit(s: Sys, k: Key)
    requires RuleOf(k.1).Some?
  {
    s.dayStart <= |s.db.ledger| && PointsToday(s, k) <= RuleOf(k.1).value.dailyLimit
  }

  /**
    The day's points stay within the limit exactly for rules of one point a reward.  The points
    that can be reached are the amount times the limit.
   */
  lemma PointsWithinLimitIff(g: GrantIds, db0: Db, k: Key)
    requires RuleOf(k.1).Some?
    ensures PointsStayWithinLimit(g, db0, k) <==> RuleOf(k.1).value.amount <= 1
    ensures exists r: Run :: Ok(g, db0, r) && Last(r).dayStart <= |Last(r).db.ledger|
              && PointsToday(Last(r), k) == RuleOf(k.1).value.amount * RuleOf(k.1).value.dailyLimit
  {
    hide Ok, PointsToday, PaidToday;
    var rule := RuleOf(k.1).value;
    var full := LimitReachable(g, db0, k, rule.dailyLimit);
    RunPoints(g, db0, full, k);
    if rule.amount <= 1 {
      forall r: Run | Ok(g, db0, r) ensures PointsFit(Last(r), k) {
        RunPoints(g, db0, r, k);
      }
    } else {
      assert rule.amount * rule.dailyLimit > rule.dailyLimit;
      assert !PointsFit(Last(full), k);
    }
  }

  lemma RunPoints(g: GrantIds, db0: Db, r: Run, k: Key)
    requires Ok(g, db0, r) && RuleOf(k.1).Some?
    ensures var s, rule := Last(r), RuleOf(k.1).value;
            && s.dayStart <= |s.db.ledger|
            && PointsToday(s, k) == rule.amount * PaidToday(s, k)
            && 0 <= PaidToday(s, k) <= rule.dailyLimit
  {
    hide RuleOf;
    PointsTodayExact(g, db0, r.actions, r.states, |r.actions|, k);
    DailyLimitExact(g, db0, r.actions, r.states, |r.actions|, k);
  }
}
