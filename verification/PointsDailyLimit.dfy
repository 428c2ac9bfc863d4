/**
  The daily limit in Redis against the database, over every interleaving.

  A slot is taken before the transaction and given back by every path that does not commit.
  The counter counts rewards, not points: the limit of a rule bounds how often it may pay.
 */
module PointsDailyLimit {
  import opened Common
  import opened PointsLedger
  import opened PointsBooks
  import opened PointsInterleaving

  function RewardFor(k: Key): Row -> int {
    (r: Row) => if r.userId == k.0 && r.refType == k.1 then 1 else 0
  }

  /** Rewards of kind k committed since today's counters started. */
  function PaidToday(s: Sys, k: Key): int
    requires s.dayStart <= |s.db.ledger|
  {
    Total(s.db.ledger[s.dayStart..], RewardFor(k))
  }

  predicate Holds(x: Session, k: Key) {
    x.slot && x.job.Earn? && (x.job.user, x.job.refType) == k
  }

  /** Sessions that took a slot of k and have neither committed nor given it back. */
  function InFlight(s: Sys, k: Key): set<nat> {
    set t | t in s.sessions && Holds(s.sessions[t], k)
  }

  predicate CounterOk(s: Sys, k: Key)
    requires s.dayStart <= |s.db.ledger| && RuleOf(k.1).Some?
  {
    && CountOf(s.counters, k) == PaidToday(s, k) + |InFlight(s, k)| + CountOf(s.lost, k)
    && CountOf(s.counters, k) <= RuleOf(k.1).value.dailyLimit
    && CountOf(s.lost, k) >= 0
  }

  ghost predicate DailyInv(s: Sys) {
    && s.dayStart <= |s.db.ledger|
    && forall k: Key :: RuleOf(k.1).Some? ==> CounterOk(s, k)
  }

  lemma {:induction false} RewardsNonNegative(l: seq<Row>, k: Key)
    ensures Total(l, RewardFor(k)) >= 0
  {
    if l != [] {
      RewardsNonNegative(l[..|l| - 1], k);
    }
  }

  /** A step that keeps the counters, the ledger and every session's slot. */
  lemma SameSlots(s: Sys, sid: nat, x: Session)
    requires DailyInv(s)
    requires if sid in s.sessions then x.slot == s.sessions[sid].slot && x.job == s.sessions[sid].job else !x.slot
    ensures DailyInv(Put(s, sid, x))
  {
    var s' := Put(s, sid, x);
    forall k: Key | RuleOf(k.1).Some? ensures CounterOk(s', k) {
      assert CounterOk(s, k);
      assert InFlight(s', k) == InFlight(s, k);
    }
  }

  lemma InFlightAfter(s: Sys, s': Sys, sid: nat, k: Key)
    requires sid in s.sessions && s'.sessions.Keys == s.sessions.Keys
    requires forall t :: t in s.sessions && t != sid ==> s'.sessions[t] == s.sessions[t]
    ensures |InFlight(s', k)| == |InFlight(s, k)| - (if Holds(s.sessions[sid], k) then 1 else 0)
                                                  + (if Holds(s'.sessions[sid], k) then 1 else 0)
  {
    hide Holds;
    CountOne(s, sid, k);
    CountOne(s', sid, k);
    assert InFlight(s, k) - {sid} == InFlight(s', k) - {sid};
  }

  lemma CountOne(s: Sys, sid: nat, k: Key)
    requires sid in s.sessions
    ensures |InFlight(s, k)| == |InFlight(s, k) - {sid}| + if Holds(s.sessions[sid], k) then 1 else 0
  {
    hide Holds;
    assert InFlight(s, k) == (InFlight(s, k) - {sid}) + if Holds(s.sessions[sid], k) then {sid} else {};
  }

  lemma TakeSlot(s: Sys, sid: nat, x: Session)
    requires DailyInv(s) && sid in s.sessions && s.sessions[sid] == x
    requires x.job.Earn? && x.job.Accepted() && x.pc.TakingSlot? && !x.slot
    ensures DailyInv(BeforeTx(s, sid, x))
  {
    var s' := BeforeTx(s, sid, x);
    if s'.sessions[sid].slot {
      assert s' == Put(s, sid, x.(pc := Reading, slot := true)).(counters := s'.counters);
      forall k: Key | RuleOf(k.1).Some? ensures CounterOk(s', k) {
        assert CounterOk(s, k);
        assert PaidToday(s', k) == PaidToday(s, k);
        InFlightAfter(s, s', sid, k);
      }
    } else {
      SameSlots(s, sid, x.(pc := Finished));
    }
  }

  /** Giving a slot back, or failing to, is the only way out without a commit. */
  lemma DropSlot(s: Sys, sid: nat, x: Session, s': Sys)
    requires DailyInv(s) && sid in s.sessions && s.sessions[sid] == x && x.job.Earn? && x.slot
    requires var k := (x.job.user, x.job.refType);
             || s' == ReturnSlot(s, sid, x)
             || s' == Put(s, sid, x.(pc := Finished, slot := false)).(lost := s.lost[k := CountOf(s.lost, k) + 1])
    ensures DailyInv(s')
  {
    forall k: Key | RuleOf(k.1).Some? ensures CounterOk(s', k) {
      assert CounterOk(s, k);
      assert PaidToday(s', k) == PaidToday(s, k);
      InFlightAfter(s, s', sid, k);
    }
  }

  /** A slot taken by a request that never hears of it counts as lost. */
  lemma TakeLost(s: Sys, sid: nat, x: Session)
    requires DailyInv(s) && sid in s.sessions && s.sessions[sid] == x
    requires x.job.Earn? && x.job.Accepted() && x.pc.TakingSlot? && !x.slot
    ensures DailyInv(LoseReply(s, sid, x))
  {
    var k0 := (x.job.user, x.job.refType);
    var s' := LoseReply(s, sid, x);
    if s'.lost == s.lost {
      assert CounterOk(s, k0);
      SameSlots(s, sid, x.(pc := Finished));
    } else {
      forall k: Key | RuleOf(k.1).Some? ensures CounterOk(s', k) {
        assert CounterOk(s, k);
        assert PaidToday(s', k) == PaidToday(s, k);
        InFlightAfter(s, s', sid, k);
      }
    }
  }

  lemma CommittingRows(g: GrantIds, db: Db, x: Session)
    requires SessionOk(g, db, x) && x.pc.Committing?
    ensures var part := GrantPart(g, db, x);
            x.pend.rows == if x.job.Open? then part else part + [x.job.MainRow(x.seen)]
    ensures x.job.Earn? <==> x.slot
  {
  }

  lemma RowReward(job: Job, seen: Wallet, k: Key)
    requires job.Accepted() && !job.Open? && RuleOf(k.1).Some?
    ensures RewardFor(k)(job.MainRow(seen)) == if job.Earn? && (job.user, job.refType) == k then 1 else 0
  {
    RuleIsNotGrant(k.1);
  }

  lemma GrantReward(g: GrantIds, user: nat, k: Key)
    requires RuleOf(k.1).Some?
    ensures Total([GrantRow(g, user)], RewardFor(k)) == 0
  {
    RuleIsNotGrant(k.1);
    TotalAppend([], GrantRow(g, user), RewardFor(k));
    assert [] + [GrantRow(g, user)] == [GrantRow(g, user)];
  }

  lemma RowsPaid(g: GrantIds, db: Db, x: Session, k: Key)
    requires SessionOk(g, db, x) && x.pc.Committing? && RuleOf(k.1).Some?
    ensures Total(x.pend.rows, RewardFor(k)) == if Holds(x, k) then 1 else 0
  {
    CommittingRows(g, db, x);
    assert x.job.Accepted();
    hide SessionOk, RuleOf, RewardFor;
    var part := GrantPart(g, db, x);
    GrantReward(g, x.job.user, k);
    assert Total(part, RewardFor(k)) == 0;
    if !x.job.Open? {
      TotalAppend(part, x.job.MainRow(x.seen), RewardFor(k));
      RowReward(x.job, x.seen, k);
    }
  }

  lemma CommitKeepsDaily(g: GrantIds, s: Sys, sid: nat, x: Session)
    requires DailyInv(s) && sid in s.sessions && s.sessions[sid] == x
    requires SessionOk(g, s.db, x) && x.pc.Committing?
    ensures DailyInv(Commit(s, sid, x))
  {
    var s' := Commit(s, sid, x);
    hide SessionOk;
    assert s'.db.ledger == s.db.ledger + x.pend.rows;
    assert s'.db.ledger[s.dayStart..] == s.db.ledger[s.dayStart..] + x.pend.rows;
    forall k: Key | RuleOf(k.1).Some? ensures CounterOk(s', k) {
      assert CounterOk(s, k);
      TotalConcat(s.db.ledger[s.dayStart..], x.pend.rows, RewardFor(k));
      RowsPaid(g, s.db, x, k);
      InFlightAfter(s, s', sid, k);
    }
  }

  lemma NewDayKeepsDaily(s: Sys)
    requires DailyInv(s) && forall t :: t in s.sessions ==> !s.sessions[t].slot
    ensures DailyInv(s.(counters := map[], lost := map[], dayStart := |s.db.ledger|))
  {
    var s' := s.(counters := map[], lost := map[], dayStart := |s.db.ledger|);
    forall k: Key | RuleOf(k.1).Some? ensures CounterOk(s', k) {
      assert InFlight(s', k) == {};
    }
  }

  lemma AdvanceKeepsDaily(g: GrantIds, db0: Db, s: Sys, sid: nat, choice: nat)
    requires Inv(g, db0, s) && DailyInv(s) && sid in s.sessions
    ensures DailyInv(Step(g, s, Advance(sid, choice)))
  {
    var x := s.sessions[sid];
    assert SessionOk(g, s.db, x);
    assert PcFits(x) && x.job.Accepted();
    hide Inv, DailyInv, SessionOk, FindWallet, MovePoints;
    if Finding(x.pc) {
      SameSlots(s, sid, FindWallet(g, s, sid, x, choice));
    } else if Moving(x.pc) {
      SameSlots(s, sid, MovePoints(s, sid, x));
    } else if x.pc.Committing? {
      CommitKeepsDaily(g, s, sid, x);
    } else if x.pc.TakingSlot? {
      TakeSlot(s, sid, x);
    } else if x.pc.CheckingTxn? {
      SameSlots(s, sid, BeforeTx(s, sid, x).sessions[sid]);
    } else if x.pc.ReturningSlot? {
      DropSlot(s, sid, x, ReturnSlot(s, sid, x));
    }
  }

  lemma StepKeepsDaily(g: GrantIds, db0: Db, s: Sys, a: Action)
    requires Inv(g, db0, s) && DailyInv(s)
    ensures DailyInv(Step(g, s, a))
  {
    if a.Advance? {
      if a.sid in s.sessions { AdvanceKeepsDaily(g, db0, s, a.sid, a.choice); }
    } else if Step(g, s, a) != s {
      OtherKeepsDaily(g, db0, s, a);
    }
  }

  lemma SlotsByPc(g: GrantIds, db0: Db, s: Sys, sid: nat)
    requires Inv(g, db0, s) && sid in s.sessions
    ensures var x := s.sessions[sid];
            && (x.pc.ReturningSlot? ==> x.job.Earn? && x.slot)
            && (x.pc.TakingSlot? ==> x.job.Earn? && !x.slot)
  {
    assert SessionOk(g, s.db, s.sessions[sid]);
  }

  lemma OtherKeepsDaily(g: GrantIds, db0: Db, s: Sys, a: Action)
    requires Inv(g, db0, s) && DailyInv(s) && !a.Advance? && Step(g, s, a) != s
    ensures DailyInv(Step(g, s, a))
  {
    hide DailyInv, CountOf, PcFits, Expected, OnceWas, PastOk, Apart, ExecAll, FindWallet, MovePoints, BeforeTx, Commit;
    match a {
      case Spawn(sid, job) => SameSlots(s, sid, Step(g, s, a).sessions[sid]);
      case Fail(sid) => SameSlots(s, sid, s.sessions[sid].RolledBack());
      case LoseSlot(sid) =>
        SlotsByPc(g, db0, s, sid);
        if s.sessions[sid].pc.TakingSlot? {
          TakeLost(s, sid, s.sessions[sid]);
        } else {
          DropSlot(s, sid, s.sessions[sid], Step(g, s, a));
        }
      case NewDay => NewDayKeepsDaily(s);
      case Advance(_, _) =>
    }
  }

  lemma StartDaily(db0: Db)
    ensures DailyInv(Start(db0))
  {
    forall k: Key | RuleOf(k.1).Some? ensures CounterOk(Start(db0), k) {
      assert InFlight(Start(db0), k) == {};
      assert db0.ledger[|db0.ledger|..] == [];
    }
  }

  lemma {:induction false} RunKeepsDaily(g: GrantIds, db0: Db, actions: seq<Action>, states: seq<Sys>, n: nat)
    requires IsRun(g, db0, actions, states) && n < |states|
    ensures DailyInv(states[n])
  {
    if n == 0 {
      StartDaily(db0);
    } else {
      RunKeepsDaily(g, db0, actions, states, n - 1);
      RunKeepsInv(g, db0, actions, states, n - 1);
      var a := actions[n - 1];
      hide Step, Inv, DailyInv;
      StepKeepsDaily(g, db0, states[n - 1], a);
    }
  }

  /**
    In every reachable state the counter is exactly the rewards committed today, plus those
    still in flight, plus the slots Redis failed to take back; so it lies between 0 and the
    limit, and so does the number of rewards paid.
   */
  lemma DailyLimitExact(g: GrantIds, db0: Db, actions: seq<Action>, states: seq<Sys>, n: nat, k: Key)
    requires IsRun(g, db0, actions, states) && n < |states|
    requires RuleOf(k.1).Some?
    ensures var s := states[n];
            && s.dayStart <= |s.db.ledger|
            && CountOf(s.counters, k) == PaidToday(s, k) + |InFlight(s, k)| + CountOf(s.lost, k)
            && 0 <= PaidToday(s, k) <= CountOf(s.counters, k) <= RuleOf(k.1).value.dailyLimit
  {
    RunKeepsDaily(g, db0, actions, states, n);
    var s := states[n];
    assert CounterOk(s, k);
    RewardsNonNegative(s.db.ledger[s.dayStart..], k);
  }
}
