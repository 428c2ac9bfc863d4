/**
  When every delivery ends up credited: no earn request failed, found its day full, or lost the
  race for a wallet version, and all of them are finished.
 */
module PointsDeliveries {
  import opened Common
  import opened PointsLedger
  import opened PointsBooks
  import opened PointsInterleaving
  import opened PointsRuns

  /** The steps that end an earn request without a credit. */
  predicate Refuses(s: Sys, a: Action) {
    match a
    case Fail(sid) => sid in s.sessions && s.sessions[sid].job.Earn? && !Ended(s.sessions[sid])
    case LoseSlot(sid) => sid in s.sessions && s.sessions[sid].job.Earn? && s.sessions[sid].pc.TakingSlot?
    case Advance(sid, choice) =>
      && sid in s.sessions && s.sessions[sid].job.Earn?
      && (DayIsFull(s, s.sessions[sid]) || WalletUnseen(s, s.sessions[sid], choice) || VersionMoved(s, sid, s.sessions[sid]))
    case _ => false
  }

  predicate DayIsFull(s: Sys, x: Session)
    requires x.job.Earn?
  {
    && x.pc.TakingSlot? && x.job.Accepted()
    && CountOf(s.counters, (x.job.user, x.job.refType)) >= RuleOf(x.job.refType).value.dailyLimit
  }

  /** The wallet insert hit a duplicate, and the read after it does not see the row. */
  predicate WalletUnseen(s: Sys, x: Session, choice: nat) {
    x.pc.ReadingAfterDup? && s.past != [] && Stale(s.past, x.job.user, choice).None?
  }

  predicate VersionMoved(s: Sys, sid: nat, x: Session) {
    && x.pc.Updating? && !WalletBusy(s, sid, x.job.user)
    && (CurrentWallet(s.db, x).None? || CurrentWallet(s.db, x).value.version != x.seen.version)
  }

  /** Ids of earns are never ids of grants or redemptions. */
  ghost predicate EarnIdsApart(g: GrantIds, s: Sys) {
    forall t :: t in s.sessions && s.sessions[t].job.Earn? ==>
      && (forall u :: s.sessions[t].job.txnId != g(u))
      && (forall t' :: t' in s.sessions && s.sessions[t'].job.Redeem? ==> s.sessions[t'].job.txnId != s.sessions[t].job.txnId)
  }

  predicate Ended(x: Session) {
    x.job.Earn? && (x.pc.Finished? || x.pc.ReturningSlot?)
  }

  /** An earn request that has ended left its id in the ledger. */
  predicate EndedIsPosted(s: Sys) {
    forall t :: t in s.sessions && Ended(s.sessions[t]) ==> HasTxn(s.db.ledger, s.sessions[t].job.txnId)
  }

  lemma PutEnds(s: Sys, sid: nat, y: Session, s': Sys)
    requires EndedIsPosted(s) && s'.db == s.db && s'.sessions == s.sessions[sid := y]
    requires Ended(y) ==> HasTxn(s.db.ledger, y.job.txnId)
    ensures EndedIsPosted(s')
  {
  }

  lemma FindingEnds(g: GrantIds, s: Sys, sid: nat, x: Session, choice: nat)
    requires s.past != [] && x.job.Earn? && PcFits(x) && Finding(x.pc) && !WalletUnseen(s, x, choice)
    ensures !Ended(FindWallet(g, s, sid, x, choice))
  {
    hide Stale, WalletBusy, TxnBusy, HasTxn;
  }

  lemma MovingEnds(g: GrantIds, s: Sys, sid: nat, x: Session)
    requires SessionOk(g, s.db, x) && x.job.Earn? && Moving(x.pc) && !VersionMoved(s, sid, x)
    requires forall u :: x.job.txnId != g(u)
    ensures Ended(MovePoints(s, sid, x)) ==> HasTxn(s.db.ledger, x.job.txnId)
  {
    if x.pc.InsertingRow? {
      assert x.pend.rows == GrantPart(g, s.db, x) + [];
      assert !HasTxn(GrantPart(g, s.db, x), x.job.txnId);
    }
    if x.job.Earn? { RuleIsNotGrant(x.job.refType); }
  }

  lemma CommitPosts(g: GrantIds, s: Sys, sid: nat, x: Session)
    requires EndedIsPosted(s) && SessionOk(g, s.db, x) && x.pc.Committing?
    ensures EndedIsPosted(Commit(s, sid, x))
  {
    var s' := Commit(s, sid, x);
    assert s'.db.ledger == s.db.ledger + x.pend.rows;
    if x.job.Earn? {
      assert x.pend.rows == GrantPart(g, s.db, x) + [x.job.MainRow(x.seen)];
      HasTxnAppend(s.db.ledger + GrantPart(g, s.db, x), x.job.MainRow(x.seen), x.job.txnId);
      assert s.db.ledger + x.pend.rows == s.db.ledger + GrantPart(g, s.db, x) + [x.job.MainRow(x.seen)];
    }
    hide SessionOk, Expected, GrantPart, HasTxn;
    forall t | t in s'.sessions && Ended(s'.sessions[t]) ensures HasTxn(s'.db.ledger, s'.sessions[t].job.txnId) {
      if t != sid {
        HasTxnSplit(s.db.ledger, x.pend.rows, s.sessions[t].job.txnId);
      }
    }
  }

  lemma EarnStepPosts(g: GrantIds, db0: Db, s: Sys, sid: nat, choice: nat)
    requires Inv(g, db0, s) && EndedIsPosted(s) && sid in s.sessions && s.sessions[sid].job.Earn?
    requires forall u :: s.sessions[sid].job.txnId != g(u)
    requires !Refuses(s, Advance(sid, choice))
    ensures EndedIsPosted(Step(g, s, Advance(sid, choice)))
  {
    var x := s.sessions[sid];
    var s' := Step(g, s, Advance(sid, choice));
    SessionFacts(g, db0, s, sid);
    hide SessionOk, EndedIsPosted, FindWallet, MovePoints, HasTxn, WalletUnseen, VersionMoved, Commit, Apart, ExecAll;
    if Finding(x.pc) {
      FindingEnds(g, s, sid, x, choice);
      PutEnds(s, sid, FindWallet(g, s, sid, x, choice), s');
    } else if Moving(x.pc) {
      MovingEnds(g, s, sid, x);
      PutEnds(s, sid, MovePoints(s, sid, x), s');
    } else if x.pc.Committing? {
      CommitPosts(g, s, sid, x);
    } else if !x.pc.Finished? {
      EdgeStepPosts(g, s, sid, x);
    }
  }

  lemma EdgeStepPosts(g: GrantIds, s: Sys, sid: nat, x: Session)
    requires EndedIsPosted(s) && sid in s.sessions && s.sessions[sid] == x && x.job.Earn? && x.job.Accepted()
    requires x.pc.CheckingTxn? || x.pc.TakingSlot? || x.pc.ReturningSlot?
    requires !DayIsFull(s, x)
    ensures EndedIsPosted(if x.pc.ReturningSlot? then ReturnSlot(s, sid, x) else BeforeTx(s, sid, x))
  {
    hide HasTxn;
    var s' := if x.pc.ReturningSlot? then ReturnSlot(s, sid, x) else BeforeTx(s, sid, x);
    assert Ended(x) ==> HasTxn(s.db.ledger, x.job.txnId);
    PutEnds(s, sid, s'.sessions[sid], s');
  }

  lemma OtherJobsPost(g: GrantIds, db0: Db, s: Sys, sid: nat, choice: nat)
    requires Inv(g, db0, s) && EndedIsPosted(s) && sid in s.sessions && !s.sessions[sid].job.Earn?
    ensures EndedIsPosted(Step(g, s, Advance(sid, choice)))
  {
    var x := s.sessions[sid];
    var s' := Step(g, s, Advance(sid, choice));
    SessionFacts(g, db0, s, sid);
    hide SessionOk, EndedIsPosted, FindWallet, MovePoints, HasTxn, Commit, Apart, ExecAll;
    if Finding(x.pc) {
      PutEnds(s, sid, FindWallet(g, s, sid, x, choice), s');
    } else if Moving(x.pc) {
      PutEnds(s, sid, MovePoints(s, sid, x), s');
    } else if x.pc.Committing? {
      CommitPosts(g, s, sid, x);
    }
  }

  lemma StepPosts(g: GrantIds, db0: Db, s: Sys, a: Action)
    requires Inv(g, db0, s) && EndedIsPosted(s) && EarnIdsApart(g, s) && !Refuses(s, a)
    ensures EndedIsPosted(Step(g, s, a))
  {
    hide PcFits, Expected, OnceWas, Later, EndedIsPosted, HasTxn, Apart, ExecAll, DayIsFull, WalletUnseen, VersionMoved, BeforeTx, Commit, ReturnSlot;
    var s' := Step(g, s, a);
    match a {
      case Advance(sid, choice) =>
        if sid in s.sessions {
          if s.sessions[sid].job.Earn? { EarnStepPosts(g, db0, s, sid, choice); } else { OtherJobsPost(g, db0, s, sid, choice); }
        }
      case Spawn(sid, job) => if s' != s { PutEnds(s, sid, s'.sessions[sid], s'); }
      case Fail(sid) => if s' != s { PutEnds(s, sid, s'.sessions[sid], s'); }
      case LoseSlot(sid) =>
        if s' != s {
          PostedWhileReturning(s, sid);
          PutEnds(s, sid, s'.sessions[sid], s');
        }
      case NewDay => SameEnds(s, s');
    }
  }

  lemma PostedWhileReturning(s: Sys, sid: nat)
    requires EndedIsPosted(s) && sid in s.sessions && s.sessions[sid].job.Earn? && s.sessions[sid].pc.ReturningSlot?
    ensures HasTxn(s.db.ledger, s.sessions[sid].job.txnId)
  {
    assert Ended(s.sessions[sid]);
  }

  lemma SameEnds(s: Sys, s': Sys)
    requires EndedIsPosted(s) && s'.db == s.db && s'.sessions == s.sessions
    ensures EndedIsPosted(s')
  {
  }

  // ---------- runs ----------

  lemma {:induction false} RunKeepsJobs(g: GrantIds, db0: Db, actions: seq<Action>, states: seq<Sys>, i: nat, n: nat)
    requires IsRun(g, db0, actions, states) && i <= n < |states|
    ensures SameJobs(states[i], states[n])
  {
    if i < n {
      RunKeepsJobs(g, db0, actions, states, i, n - 1);
      var s, a, s' := states[n - 1], actions[n - 1], states[n];
      hide Step;
      assert Next(g, s, a, s');
      StepKeepsJobs(g, s, a);
    }
  }

  lemma ApartBefore(g: GrantIds, s: Sys, s': Sys)
    requires SameJobs(s, s') && EarnIdsApart(g, s')
    ensures EarnIdsApart(g, s)
  {
  }

  /** No step of the run refuses an earn. */
  predicate NeverRefuses(actions: seq<Action>, states: seq<Sys>, n: nat) {
    forall i {:trigger actions[i]} :: 0 <= i < n && i < |actions| && i < |states| ==> !Refuses(states[i], actions[i])
  }

  lemma {:induction false} RunPosts(g: GrantIds, db0: Db, actions: seq<Action>, states: seq<Sys>, n: nat, last: nat)
    requires IsRun(g, db0, actions, states) && n <= last < |states|
    requires EarnIdsApart(g, states[last]) && NeverRefuses(actions, states, last)
    ensures EndedIsPosted(states[n])
  {
    hide Step, Inv, EarnIdsApart, Refuses, SameJobs;
    if n > 0 {
      RunPosts(g, db0, actions, states, n - 1, last);
      RunKeepsInv(g, db0, actions, states, n - 1);
      RunKeepsJobs(g, db0, actions, states, n - 1, last);
      ApartBefore(g, states[n - 1], states[last]);
      var s, a, s' := states[n - 1], actions[n - 1], states[n];
      assert Next(g, s, a, s') && !Refuses(s, a);
      StepPosts(g, db0, s, a);
    }
  }

  /** A ledger id comes from an earn, a redemption or a grant. */
  lemma {:induction false} LedgerIds(g: GrantIds, db: Db, log: seq<Entry>, id: nat)
    requires AllAccepted(log) && Fresh(db) && ExecAll(g, db, log).Some?
    requires HasTxn(ExecAll(g, db, log).value.ledger, id) && forall u :: id != g(u)
    ensures exists i :: 0 <= i < |log| && !log[i].job.Open? && log[i].job.txnId == id
  {
    if log != [] {
      var n := |log| - 1;
      var before, job := ExecAll(g, db, log[..n]).value, log[n].job;
      TxLedger(g, before, job, log[n].code);
      HasTxnAppend(before.ledger, GrantRow(g, job.user), id);
      hide ExecTx, HasTxn;
      var d := OpenWallet(g, before, job.user);
      if !job.Open? {
        HasTxnAppend(d.ledger, job.MainRow(d.wallets[job.user]), id);
      }
      if job.Open? || job.txnId != id {
        LedgerIds(g, db, log[..n], id);
        var i :| 0 <= i < n && !log[..n][i].job.Open? && log[..n][i].job.txnId == id;
        assert log[i] == log[..n][i];
      }
    }
  }

  lemma PostedIsCredited(g: GrantIds, db0: Db, s: Sys, t: nat)
    requires AllAccepted(s.log) && Fresh(db0) && ExecAll(g, db0, s.log) == Some(s.db) && LogFromSessions(s)
    requires EarnIdsApart(g, s) && t in s.sessions && s.sessions[t].job.Earn? && HasTxn(s.db.ledger, s.sessions[t].job.txnId)
    ensures s.sessions[t].job.txnId in EarnedIds(s.log)
  {
    hide ExecAll, HasTxn;
    var id := s.sessions[t].job.txnId;
    LedgerIds(g, db0, s.log, id);
    var i :| 0 <= i < |s.log| && !s.log[i].job.Open? && s.log[i].job.txnId == id;
    assert HasJob(s, s.log[i].job);
    var t' :| t' in s.sessions && s.sessions[t'].job == s.log[i].job;
  }

  /** If no earn was refused and all are finished, then exactly the delivered ids are credited. */
  lemma AllCredited(g: GrantIds, db0: Db, actions: seq<Action>, states: seq<Sys>, n: nat)
    requires Fresh(db0) && IsRun(g, db0, actions, states) && n < |states|
    requires EarnIdsApart(g, states[n]) && NeverRefuses(actions, states, n)
    requires forall t :: t in states[n].sessions && states[n].sessions[t].job.Earn? ==> states[n].sessions[t].pc.Finished?
    ensures EarnedIds(states[n].log) == DeliveredIds(states[n])
  {
    var s := states[n];
    RunPosts(g, db0, actions, states, n, n);
    RunLogsSessions(g, db0, actions, states, n);
    Serialisable(g, db0, actions, states, n);
    hide IsRun, ExecAll, EarnIdsApart, NeverRefuses;
    forall t | t in s.sessions && s.sessions[t].job.Earn? ensures s.sessions[t].job.txnId in EarnedIds(s.log) {
      assert Ended(s.sessions[t]);
      PostedIsCredited(g, db0, s, t);
    }
    forall i | 0 <= i < |s.log| && s.log[i].job.Earn? ensures s.log[i].job.txnId in DeliveredIds(s) {
      assert HasJob(s, s.log[i].job);
    }
  }

  /**
    Confluence: however often and in whatever order the earns were delivered, once they are all
    finished and none was refused, a balance is the grant, one amount for each distinct delivered
    id, less what was spent.
   */
  lemma DeliveriesDecideBalance(g: GrantIds, db0: Db, actions: seq<Action>, states: seq<Sys>, n: nat, payload: nat -> Payload, u: nat)
    requires Fresh(db0) && IsRun(g, db0, actions, states) && n < |states|
    requires EarnIdsApart(g, states[n]) && NeverRefuses(actions, states, n)
    requires forall t :: t in states[n].sessions && states[n].sessions[t].job.Earn? ==> states[n].sessions[t].pc.Finished?
    requires DeliveriesMatch(payload, states[n]) && u in states[n].db.wallets
    ensures states[n].db.wallets[u].balance
         == INITIAL_BALANCE + SetTotal(DeliveredIds(states[n]), CreditTo(payload, u)) - Total(states[n].db.orders, SpentBy(u))
  {
    hide IsRun, EarnIdsApart, NeverRefuses, DeliveriesMatch, SetTotal, Total;
    AllCredited(g, db0, actions, states, n);
    ReachableBalance(g, db0, actions, states, n, payload, u);
  }
}
