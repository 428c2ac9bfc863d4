/**
  The step system loses nothing: a request that nobody disturbs gets exactly what its transaction
  does when it runs alone.
 */
module PointsAlone {
  import opened Common
  import opened PointsLedger
  import opened PointsBooks
  import opened PointsInterleaving

  // ---------- runs, one action longer ----------

  datatype Run = Run(actions: seq<Action>, states: seq<Sys>)

  ghost predicate Ok(g: GrantIds, db0: Db, r: Run): (ok: bool)
    ensures ok ==> r.states != []
  {
    IsRun(g, db0, r.actions, r.states)
  }

  function Last(r: Run): Sys
    requires r.states != []
  {
    r.states[|r.states| - 1]
  }

  lemma Extend(g: GrantIds, db0: Db, r: Run, a: Action) returns (r': Run)
    requires Ok(g, db0, r)
    ensures Ok(g, db0, r') && Next(g, Last(r), a, Last(r'))
  {
    var n := |r.actions|;
    RunKeepsInv(g, db0, r.actions, r.states, n);
    var s' := Step(g, r.states[n], a);
    hide Step, Inv;
    r' := Run(r.actions + [a], r.states + [s']);
    forall i {:trigger r'.actions[i]} | 0 <= i < |r'.actions| ensures Next(g, r'.states[i], r'.actions[i], r'.states[i + 1]) {
      if i < n {
        assert r'.actions[i] == r.actions[i];
      }
    }
  }

  lemma LastIsCurrent(g: GrantIds, db0: Db, r: Run)
    requires Ok(g, db0, r)
    ensures Last(r).past != [] && Last(r).past[|Last(r).past| - 1] == Last(r).db.wallets
  {
    RunKeepsInv(g, db0, r.actions, r.states, |r.actions|);
  }

  lemma {:induction false} Bounded(ids: set<nat>) returns (n: nat)
    ensures forall x :: x in ids ==> x < n
    decreases |ids|
  {
    if ids == {} {
      n := 0;
    } else {
      var x :| x in ids;
      var m := Bounded(ids - {x});
      n := if m > x then m else x + 1;
      forall y | y in ids ensures y < n {
        assert y == x || y in ids - {x};
      }
    }
  }

  lemma NewSession(s: Sys) returns (sid: nat)
    ensures sid !in s.sessions
  {
    sid := Bounded(s.sessions.Keys);
  }

  /** Nobody but session sid is doing anything. */
  predicate QuietBut(s: Sys, sid: nat) {
    forall t :: t in s.sessions && t != sid ==> s.sessions[t].pc.Finished? && s.sessions[t].pend == NOTHING && !s.sessions[t].slot
  }

  lemma QuietLocks(s: Sys, sid: nat, u: nat, id: nat)
    requires QuietBut(s, sid)
    ensures !WalletBusy(s, sid, u) && !TxnBusy(s, sid, id)
  {
  }

  predicate Quiet(s: Sys) {
    forall t :: t in s.sessions ==> s.sessions[t].pc.Finished? && s.sessions[t].pend == NOTHING && !s.sessions[t].slot
  }

  // ---------- an undisturbed request ----------

  function Held(db: Db, u: nat): Wallet {
    if u in db.wallets then db.wallets[u] else NEW_WALLET
  }

  /** What a transaction that commits found. */
  lemma CommitConditions(g: GrantIds, db: Db, job: Job, code: nat)
    requires job.Accepted() && ExecTx(g, db, job, code).Committed?
    ensures !job.Open? ==> !HasTxn(db.ledger, job.txnId) && (job.user !in db.wallets && !HasTxn(db.ledger, g(job.user)) ==> g(job.user) != job.txnId)
    ensures job.Redeem? ==> Available(db.codes, job.productId, code) && Held(db, job.user).balance >= job.price && !HasOrder(db.orders, job.orderId)
  {
    HasTxnAppend(db.ledger, GrantRow(g, job.user), if job.Open? then 0 else job.txnId);
    hide HasTxn, HasOrder;
  }

  function Rank(pc: Pc): nat {
    match pc
    case CheckingTxn => 0
    case TakingSlot => 1
    case ClaimingCode => 2
    case Reading => 3
    case OpeningRead => 4
    case InsertingWallet => 5
    case InsertingGrant => 6
    case ReadingAfterDup => 6
    case ReadingAgain => 7
    case Selling => 8
    case InsertingRow => 9
    case Updating => 10
    case InsertingOrder => 11
    case Committing => 12
    case ReturningSlot => 13
    case Finished => 13
  }

  /** The request is under way, has seen the current wallet row, and holds the code it is to get. */
  predicate OnItsWay(x: Session, db: Db, job: Job, code: nat) {
    && x.job == job
    && Rank(x.pc) <= 12 && !x.pc.ReadingAfterDup?
    && (HasSeen(x) ==> x.seen == Held(db, job.user))
    && (x.pc.InsertingWallet? ==> job.user !in db.wallets)
    && (x.claimed ==> x.code == code)
    && (!job.Redeem? ==> x.code == 0)
  }

  predicate Alone(s: Sys, sid: nat, db: Db, job: Job, code: nat) {
    && sid in s.sessions && QuietBut(s, sid) && s.db == db
    && s.past != [] && s.past[|s.past| - 1] == db.wallets
    && OnItsWay(s.sessions[sid], db, job, code)
  }

  /** There is room under the daily limit as long as no slot has been taken. */
  predicate SlotFree(s: Sys, x: Session) {
    x.job.Earn? && x.job.Accepted() && Rank(x.pc) <= 1 ==>
      CountOf(s.counters, (x.job.user, x.job.refType)) < RuleOf(x.job.refType).value.dailyLimit
  }

  lemma QuietOrders(s: Sys, sid: nat, id: nat, c: nat, g: GrantIds)
    requires QuietBut(s, sid) && forall t :: t in s.sessions ==> SessionOk(g, s.db, s.sessions[t])
    ensures !OrderBusy(s, sid, id) && !CodeBusy(s, sid, c)
  {
    forall t | t in s.sessions && t != sid ensures !s.sessions[t].claimed {
      assert SessionOk(g, s.db, s.sessions[t]);
      IdleHoldsNothing(g, s.db, s.sessions[t]);
    }
  }

  lemma FindMovesOn(g: GrantIds, s: Sys, sid: nat, x: Session, db: Db, job: Job, code: nat)
    requires s.past != [] && s.past[|s.past| - 1] == db.wallets && s.db == db && OnItsWay(x, db, job, code)
    requires SessionOk(g, db, x) && Finding(x.pc)
    requires !WalletBusy(s, sid, job.user) && !TxnBusy(s, sid, g(job.user)) && !CodeBusy(s, sid, code)
    requires job.Redeem? ==> Available(db.codes, job.productId, code)
    ensures var y := FindWallet(g, s, sid, x, if x.pc.ClaimingCode? then code else |s.past|);
            OnItsWay(y, db, job, code) && Rank(y.pc) > Rank(x.pc)
  {
    hide WalletBusy, TxnBusy, CodeBusy, HasTxn, Available, HasOrder;
    assert Stale(s.past, job.user, |s.past|) == if job.user in db.wallets then Some(db.wallets[job.user]) else None;
    hide Stale;
  }

  lemma MoveMovesOn(g: GrantIds, s: Sys, sid: nat, x: Session, db: Db, job: Job, code: nat)
    requires s.db == db && OnItsWay(x, db, job, code) && SessionOk(g, db, x) && Moving(x.pc) && !job.Open?
    requires !WalletBusy(s, sid, job.user) && !TxnBusy(s, sid, job.txnId) && (job.Redeem? ==> !OrderBusy(s, sid, job.orderId))
    requires !HasTxn(db.ledger, job.txnId)
    requires job.user !in db.wallets && !HasTxn(db.ledger, g(job.user)) ==> g(job.user) != job.txnId
    requires job.Redeem? ==> Held(db, job.user).balance >= job.price && !HasOrder(db.orders, job.orderId)
    ensures var y := MovePoints(s, sid, x);
            OnItsWay(y, db, job, code) && Rank(y.pc) > Rank(x.pc)
  {
    hide WalletBusy, TxnBusy, OrderBusy, Available, HasOrder;
    if x.pc.InsertingRow? {
      assert x.pend.rows == GrantPart(g, db, x) + [];
      assert !HasTxn(x.pend.rows, job.txnId);
    }
    if job.Earn? { RuleIsNotGrant(job.refType); }
    hide HasTxn;
  }

  function OneMore(counters: map<Key, int>, job: Job): map<Key, int>
    requires job.Earn?
  {
    var k := (job.user, job.refType);
    counters[k := CountOf(counters, k) + 1]
  }

  /** The counters of a request that began with the given ones: an earn takes its slot on the way to its transaction. */
  function CountersBy(counters: map<Key, int>, job: Job, pc: Pc): map<Key, int> {
    if job.Earn? && Rank(pc) > 1 then OneMore(counters, job) else counters
  }

  lemma BeginMovesOn(s: Sys, sid: nat, x: Session, db: Db, job: Job, code: nat)
    requires s.db == db && OnItsWay(x, db, job, code) && job.Earn? && job.Accepted() && !HasTxn(db.ledger, job.txnId)
    requires x.pc.CheckingTxn? || x.pc.TakingSlot?
    requires SlotFree(s, x)
    ensures var s' := BeforeTx(s, sid, x);
            && s'.sessions == s.sessions[sid := s'.sessions[sid]] && s'.db == s.db && s'.past == s.past && s'.log == s.log
            && OnItsWay(s'.sessions[sid], db, job, code) && Rank(s'.sessions[sid].pc) > Rank(x.pc) && SlotFree(s', s'.sessions[sid])
            && s'.lost == s.lost && s'.counters == (if x.pc.TakingSlot? then OneMore(s.counters, job) else s.counters)
            && (x.pc.CheckingTxn? ==> s'.sessions[sid].pc.TakingSlot?)
  {
    hide HasTxn, RuleOf;
  }

  lemma StillAlone(s: Sys, sid: nat, db: Db, job: Job, code: nat, s': Sys)
    requires Alone(s, sid, db, job, code) && sid in s'.sessions
    requires s'.sessions == s.sessions[sid := s'.sessions[sid]] && s'.db == s.db && s'.past == s.past
    requires OnItsWay(s'.sessions[sid], db, job, code)
    ensures Alone(s', sid, db, job, code)
  {
    hide OnItsWay;
  }

  lemma LocksFree(g: GrantIds, db0: Db, s: Sys, sid: nat, u: nat, id: nat, order: nat, c: nat)
    requires Inv(g, db0, s) && QuietBut(s, sid)
    ensures !WalletBusy(s, sid, u) && !TxnBusy(s, sid, id) && !OrderBusy(s, sid, order) && !CodeBusy(s, sid, c)
  {
    hide SessionOk, WalletBusy, TxnBusy, OrderBusy, CodeBusy, QuietBut, ExecAll, PastOk, Apart;
    QuietLocks(s, sid, u, id);
    QuietOrders(s, sid, order, c, g);
  }

  function ChoiceAt(s: Sys, x: Session, code: nat): nat {
    if x.pc.ClaimingCode? then code else |s.past|
  }

  lemma PcKinds(g: GrantIds, db: Db, x: Session, job: Job, code: nat)
    requires SessionOk(g, db, x) && OnItsWay(x, db, job, code) && !x.pc.Committing?
    ensures Finding(x.pc) || Moving(x.pc) || ((x.pc.CheckingTxn? || x.pc.TakingSlot?) && job.Earn?)
    ensures Moving(x.pc) ==> !job.Open?
  {
  }

  /** What Step makes of one statement of a session. */
  lemma StatementOf(g: GrantIds, s: Sys, sid: nat, choice: nat, s': Sys)
    requires Next(g, s, Advance(sid, choice), s') && sid in s.sessions
    ensures var x := s.sessions[sid];
            && (x.pc.CheckingTxn? || x.pc.TakingSlot? ==> x.job.Earn? ==> s' == BeforeTx(s, sid, x))
            && (Finding(x.pc) ==> s' == Put(s, sid, FindWallet(g, s, sid, x, choice)))
            && (Moving(x.pc) && !x.job.Open? ==> s' == Put(s, sid, MovePoints(s, sid, x)))
            && (x.pc.Committing? ==> s' == Commit(s, sid, x))
  {
    hide BeforeTx, FindWallet, MovePoints, Commit, ReturnSlot;
  }

  lemma PutMovesOn(s: Sys, sid: nat, db: Db, job: Job, code: nat, y: Session)
    requires Alone(s, sid, db, job, code) && OnItsWay(y, db, job, code) && Rank(y.pc) > 1
    ensures Alone(Put(s, sid, y), sid, db, job, code) && SlotFree(Put(s, sid, y), y)
    ensures Put(s, sid, y).log == s.log && Put(s, sid, y).sessions[sid] == y
    ensures Put(s, sid, y).lost == s.lost && Put(s, sid, y).counters == s.counters
  {
    hide OnItsWay, RuleOf;
    StillAlone(s, sid, db, job, code, Put(s, sid, y));
  }

  lemma AloneFacts(s: Sys, sid: nat, db: Db, job: Job, code: nat)
    requires Alone(s, sid, db, job, code)
    ensures sid in s.sessions && s.db == db && QuietBut(s, sid) && s.past != [] && s.past[|s.past| - 1] == db.wallets
    ensures OnItsWay(s.sessions[sid], db, job, code) && s.sessions[sid].job == job
  {
  }

  lemma RankOfKind(pc: Pc)
    ensures Finding(pc) || Moving(pc) ==> Rank(pc) > 1
  {
  }

  /** Undisturbed, every statement moves the request on. */
  lemma StepMovesOn(g: GrantIds, db0: Db, s: Sys, sid: nat, db: Db, job: Job, code: nat, s': Sys)
    requires Inv(g, db0, s) && Alone(s, sid, db, job, code) && job.Accepted() && ExecTx(g, db, job, code).Committed?
    requires SlotFree(s, s.sessions[sid]) && !s.sessions[sid].pc.Committing?
    requires Next(g, s, Advance(sid, ChoiceAt(s, s.sessions[sid], code)), s')
    ensures Alone(s', sid, db, job, code) && SlotFree(s', s'.sessions[sid]) && s'.log == s.log
    ensures Rank(s'.sessions[sid].pc) > Rank(s.sessions[sid].pc)
    ensures s'.lost == s.lost
    ensures forall counters :: s.counters == CountersBy(counters, job, s.sessions[sid].pc) ==>
              s'.counters == CountersBy(counters, job, s'.sessions[sid].pc)
  {
    hide *;
    AloneFacts(s, sid, db, job, code);
    var x := s.sessions[sid];
    SessionFacts(g, db0, s, sid);
    CommitConditions(g, db, job, code);
    PcKinds(g, db, x, job, code);
    RankOfKind(x.pc);
    StatementOf(g, s, sid, ChoiceAt(s, x, code), s');
    if (x.pc.CheckingTxn? || x.pc.TakingSlot?) && job.Earn? {
      BeginMovesOn(s, sid, x, db, job, code);
      StillAlone(s, sid, db, job, code, s');
      CountersBegin(s, x, job, s'.sessions[sid].pc);
    } else if Finding(x.pc) {
      LocksFree(g, db0, s, sid, job.user, g(job.user), 0, code);
      ChoiceIs(s, x, code);
      FindMovesOn(g, s, sid, x, db, job, code);
      var y := FindWallet(g, s, sid, x, ChoiceAt(s, x, code));
      PutMovesOn(s, sid, db, job, code, y);
      CountersStay(job, x.pc, y.pc);
    } else {
      LocksFree(g, db0, s, sid, job.user, job.txnId, if job.Redeem? then job.orderId else 0, code);
      MoveMovesOn(g, s, sid, x, db, job, code);
      var y := MovePoints(s, sid, x);
      PutMovesOn(s, sid, db, job, code, y);
      CountersStay(job, x.pc, y.pc);
    }
  }

  lemma CountersStay(job: Job, pc: Pc, pc': Pc)
    requires Rank(pc) > 1 && Rank(pc') > 1
    ensures forall counters :: CountersBy(counters, job, pc') == CountersBy(counters, job, pc)
  {
    hide CountOf;
  }

  lemma CountersBegin(s: Sys, x: Session, job: Job, pc': Pc)
    requires job.Earn? && (x.pc.CheckingTxn? || x.pc.TakingSlot?) && Rank(pc') > Rank(x.pc)
    requires x.pc.CheckingTxn? ==> pc'.TakingSlot?
    ensures forall counters :: s.counters == CountersBy(counters, job, x.pc) ==>
              (if x.pc.TakingSlot? then OneMore(s.counters, job) else s.counters) == CountersBy(counters, job, pc')
  {
    hide CountOf;
  }

  lemma ChoiceIs(s: Sys, x: Session, code: nat)
    ensures ChoiceAt(s, x, code) == if x.pc.ClaimingCode? then code else |s.past|
  {
  }

  lemma Spawned(g: GrantIds, s: Sys, sid: nat, job: Job, code: nat, s': Sys)
    requires Quiet(s) && sid !in s.sessions && job.Accepted() && Next(g, s, Spawn(sid, job), s')
    requires s.past != [] && s.past[|s.past| - 1] == s.db.wallets
    requires job.Earn? ==> CountOf(s.counters, (job.user, job.refType)) < RuleOf(job.refType).value.dailyLimit
    ensures Alone(s', sid, s.db, job, code) && SlotFree(s', s'.sessions[sid]) && s'.log == s.log
    ensures s'.lost == s.lost && s'.counters == s.counters == CountersBy(s.counters, job, s'.sessions[sid].pc)
  {
    hide RuleOf, CountOf;
  }

  lemma CommitEnds(g: GrantIds, db0: Db, s: Sys, sid: nat, db: Db, job: Job, code: nat, s': Sys)
    requires Inv(g, db0, s) && Alone(s, sid, db, job, code) && s.sessions[sid].pc.Committing?
    requires Next(g, s, Advance(sid, ChoiceAt(s, s.sessions[sid], code)), s')
    ensures Quiet(s') && s'.log == s.log + [Entry(job, if job.Redeem? then code else 0)]
    ensures ExecTx(g, db, job, s.sessions[sid].code) == Committed(s'.db)
    ensures job.Redeem? ==> s.sessions[sid].code == code
    ensures s'.lost == s.lost && s'.counters == s.counters
  {
    hide *;
    AloneFacts(s, sid, db, job, code);
    var x := s.sessions[sid];
    SessionFacts(g, db0, s, sid);
    CommitIsSerial(g, db, x);
    StatementOf(g, s, sid, ChoiceAt(s, x, code), s');
    CommitQuiets(g, s, sid, x, db, job, code);
  }

  lemma CommitQuiets(g: GrantIds, s: Sys, sid: nat, x: Session, db: Db, job: Job, code: nat)
    requires QuietBut(s, sid) && SessionOk(g, db, x) && OnItsWay(x, db, job, code) && x.pc.Committing? && s.db == db
    ensures var s' := Commit(s, sid, x);
            Quiet(s') && s'.log == s.log + [Entry(job, if job.Redeem? then code else 0)] && s'.db == Apply(db, x)
            && s'.lost == s.lost && s'.counters == s.counters
    ensures x.code == if job.Redeem? then code else 0
  {
    hide Apply, HasTxn, Expected, GrantPart, OnceWas, Available, HasOrder, RuleOf;
  }

  lemma CodeOnlyForRedeem(g: GrantIds, db: Db, job: Job, code: nat, code': nat)
    requires job.Accepted() && !job.Redeem?
    ensures ExecTx(g, db, job, code) == ExecTx(g, db, job, code')
  {
    hide HasTxn, HasOrder, RuleOf;
  }

  /**
    Any request whose transaction would commit when run alone does commit if nobody disturbs it,
    and leaves exactly the tables that transaction leaves, whatever went on before.
   */
  lemma UndisturbedCommits(g: GrantIds, db0: Db, r: Run, job: Job, code: nat) returns (r': Run)
    requires Ok(g, db0, r) && Quiet(Last(r)) && job.Accepted() && ExecTx(g, Last(r).db, job, code).Committed?
    requires job.Earn? ==> CountOf(Last(r).counters, (job.user, job.refType)) < RuleOf(job.refType).value.dailyLimit
    ensures Ok(g, db0, r') && Quiet(Last(r'))
    ensures ExecTx(g, Last(r).db, job, code) == Committed(Last(r').db)
    ensures Last(r').log == Last(r).log + [Entry(job, if job.Redeem? then code else 0)]
    ensures Last(r').lost == Last(r).lost
    ensures Last(r').counters == if job.Earn? then OneMore(Last(r).counters, job) else Last(r).counters
  {
    hide *;
    var s := Last(r);
    LastIsCurrent(g, db0, r);
    var sid := NewSession(s);
    r' := Extend(g, db0, r, Spawn(sid, job));
    Spawned(g, s, sid, job, code, Last(r'));
    AloneHasSession(Last(r'), sid, s.db, job, code);
    while !Last(r').sessions[sid].pc.Committing?
      invariant Ok(g, db0, r') && Alone(Last(r'), sid, s.db, job, code) && sid in Last(r').sessions
      invariant SlotFree(Last(r'), Last(r').sessions[sid]) && Last(r').log == s.log
      invariant Rank(Last(r').sessions[sid].pc) <= 12
      invariant Last(r').lost == s.lost && Last(r').counters == CountersBy(s.counters, job, Last(r').sessions[sid].pc)
      decreases 13 - Rank(Last(r').sessions[sid].pc)
    {
      var now := Last(r');
      OkIsInv(g, db0, r');
      r' := Extend(g, db0, r', Advance(sid, ChoiceAt(now, now.sessions[sid], code)));
      StepMovesOn(g, db0, now, sid, s.db, job, code, Last(r'));
      AloneHasSession(Last(r'), sid, s.db, job, code);
    }
    var now := Last(r');
    OkIsInv(g, db0, r');
    r' := Extend(g, db0, r', Advance(sid, ChoiceAt(now, now.sessions[sid], code)));
    CommitEnds(g, db0, now, sid, s.db, job, code, Last(r'));
    CountersAtCommit(s.counters, job, now.sessions[sid].pc);
    if !job.Redeem? { CodeOnlyForRedeem(g, s.db, job, code, now.sessions[sid].code); }
  }

  lemma CountersAtCommit(counters: map<Key, int>, job: Job, pc: Pc)
    requires pc.Committing?
    ensures CountersBy(counters, job, pc) == if job.Earn? then OneMore(counters, job) else counters
  {
    hide CountOf;
  }

  lemma AloneHasSession(s: Sys, sid: nat, db: Db, job: Job, code: nat)
    requires Alone(s, sid, db, job, code)
    ensures sid in s.sessions && Rank(s.sessions[sid].pc) <= 12
  {
  }

  lemma OkIsInv(g: GrantIds, db0: Db, r: Run)
    requires Ok(g, db0, r)
    ensures Inv(g, db0, Last(r))
  {
    hide Inv;
    RunKeepsInv(g, db0, r.actions, r.states, |r.actions|);
  }
}
