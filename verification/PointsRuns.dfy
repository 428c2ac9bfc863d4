/**
  What holds of every run of the interleaved sessions: the committed tables are those of a serial
  execution, and so everything that serial executions keep holds in every reachable state.
 */
module PointsRuns {
  import opened Common
  import opened PointsLedger
  import opened PointsBooks
  import opened PointsInterleaving

  /** No sequence of actions is ruled out: every one has a run. */
  lemma {:induction false} EveryScheduleRuns(g: GrantIds, db0: Db, actions: seq<Action>)
    ensures exists states :: IsRun(g, db0, actions, states)
  {
    if actions == [] {
      assert IsRun(g, db0, [], [Start(db0)]);
    } else {
      var n := |actions| - 1;
      EveryScheduleRuns(g, db0, actions[..n]);
      var states :| IsRun(g, db0, actions[..n], states);
      RunKeepsInv(g, db0, actions[..n], states, n);
      ExtendRun(g, db0, actions[..n], states, actions[n]);
      assert actions[..n] + [actions[n]] == actions;
    }
  }

  lemma ExtendRun(g: GrantIds, db0: Db, actions: seq<Action>, states: seq<Sys>, a: Action)
    requires IsRun(g, db0, actions, states)
    requires states[|actions|].past != []
    requires forall t :: t in states[|actions|].sessions ==> states[|actions|].sessions[t].job.Accepted()
    ensures exists states' :: IsRun(g, db0, actions + [a], states')
  {
    hide Step;
    var actions', states' := actions + [a], states + [Step(g, states[|actions|], a)];
    forall i {:trigger actions'[i]} | 0 <= i < |actions'| ensures Next(g, states'[i], actions'[i], states'[i + 1]) {
      if i < |actions| {
        assert actions'[i] == actions[i];
      }
    }
    assert IsRun(g, db0, actions', states');
  }

  /**
    Serialisability: after any interleaving, the committed tables are exactly those left by
    running the committed transactions one at a time, in commit order.
   */
  lemma Serialisable(g: GrantIds, db0: Db, actions: seq<Action>, states: seq<Sys>, n: nat)
    requires IsRun(g, db0, actions, states) && n < |states|
    ensures AllAccepted(states[n].log)
    ensures ExecAll(g, db0, states[n].log) == Some(states[n].db)
  {
    RunKeepsInv(g, db0, actions, states, n);
  }

  /** The optimistic lock works because a version number never stands for two different rows. */
  lemma EqualVersionEqualRow(g: GrantIds, db0: Db, actions: seq<Action>, states: seq<Sys>, n: nat, i: nat, j: nat, u: nat)
    requires IsRun(g, db0, actions, states) && n < |states|
    requires var past := states[n].past;
             && i < |past| && j < |past| && u in past[i] && u in past[j] && past[i][u].version == past[j][u].version
    ensures states[n].past[i][u] == states[n].past[j][u]
  {
    RunKeepsInv(g, db0, actions, states, n);
    var past := states[n].past;
    if i < j {
      assert Later(past[i], past[j]);
    } else if j < i {
      assert Later(past[j], past[i]);
    }
  }

  /** In every reachable state: balances, versions, running balances, ids, codes and orders are all in order. */
  lemma ReachableBooks(g: GrantIds, db0: Db, actions: seq<Action>, states: seq<Sys>, n: nat)
    requires Fresh(db0) && IsRun(g, db0, actions, states) && n < |states|
    ensures Books(states[n].db)
    ensures MallBooks(states[n].db)
  {
    Serialisable(g, db0, actions, states, n);
    FreshBooks(db0);
    LogKeepsBooks(g, db0, states[n].log);
  }

  /** In every reachable state each ledger row names the reference, and each order the code, of a committed request. */
  lemma ReachableRows(g: GrantIds, db0: Db, actions: seq<Action>, states: seq<Sys>, n: nat)
    requires Fresh(db0) && IsRun(g, db0, actions, states) && n < |states|
    ensures forall r :: r in states[n].db.ledger ==> RowIsAskedFor(g, r, states[n].log)
    ensures forall o :: o in states[n].db.orders ==> OrderIsAskedFor(o, states[n].log)
  {
    hide IsRun, ExecAll, RowIsAskedFor, OrderIsAskedFor;
    Serialisable(g, db0, actions, states, n);
    RowsAreAskedFor(g, db0, states[n].log);
  }

  /**
    No overselling: in every reachable state the free codes and the orders of a product together
    are as many as the codes it was stocked with, and no code row has come, gone or changed hands.
   */
  lemma ReachableStock(g: GrantIds, db0: Db, actions: seq<Action>, states: seq<Sys>, n: nat, productId: nat)
    requires Fresh(db0) && IsRun(g, db0, actions, states) && n < |states|
    ensures var d := states[n].db;
            && |FreeCodes(d, productId)| + Total(d.orders, OrderOf(productId)) == |CodesOf(db0, productId)|
            && Total(d.orders, OrderOf(productId)) <= |CodesOf(db0, productId)|
            && SameStock(db0, d)
  {
    hide IsRun, ExecAll, FreeCodes, CodesOf, Total, SameStock;
    Serialisable(g, db0, actions, states, n);
    NoOverselling(g, db0, states[n].log, productId);
    SoldForGood(g, db0, states[n].log);
  }

  /** ... and every wallet reconciles when transaction ids are kept apart. */
  lemma ReachableReconciles(g: GrantIds, db0: Db, actions: seq<Action>, states: seq<Sys>, n: nat, u: nat)
    requires Fresh(db0) && IsRun(g, db0, actions, states) && n < |states|
    requires IdsKeptApart(g, states[n].log)
    requires u in states[n].db.wallets
    ensures Reconciles(states[n].db, u)
  {
    Serialisable(g, db0, actions, states, n);
    DistinctIdsReconcile(g, db0, states[n].log);
  }

  lemma CommitKeepsSales(g: GrantIds, s: Sys, sid: nat, x: Session, c: nat)
    requires SessionOk(g, s.db, x) && x.pc.Committing? && c in s.db.codes && s.db.codes[c].sale.Some?
    ensures c in Commit(s, sid, x).db.codes && Commit(s, sid, x).db.codes[c] == s.db.codes[c]
  {
  }

  lemma StepKeepsSales(g: GrantIds, db0: Db, s: Sys, a: Action, c: nat)
    requires Inv(g, db0, s) && c in s.db.codes && s.db.codes[c].sale.Some?
    ensures c in Step(g, s, a).db.codes && Step(g, s, a).db.codes[c] == s.db.codes[c]
  {
    hide Inv, SessionOk, Commit, FindWallet, MovePoints, HasTxn, CountOf, RuleOf;
    if a.Advance? && a.sid in s.sessions {
      SessionFacts(g, db0, s, a.sid);
      if s.sessions[a.sid].pc.Committing? {
        CommitKeepsSales(g, s, a.sid, s.sessions[a.sid], c);
      }
    }
  }

  /** Once sold in some reachable state, a code keeps its buyer and order in every later one. */
  lemma {:induction false} SoldStaysSold(g: GrantIds, db0: Db, actions: seq<Action>, states: seq<Sys>, i: nat, j: nat, c: nat)
    requires IsRun(g, db0, actions, states) && i <= j < |states|
    requires c in states[i].db.codes && states[i].db.codes[c].sale.Some?
    ensures c in states[j].db.codes && states[j].db.codes[c] == states[i].db.codes[c]
  {
    if i < j {
      SoldStaysSold(g, db0, actions, states, i, j - 1, c);
      RunKeepsInv(g, db0, actions, states, j - 1);
      var a := actions[j - 1];
      hide Step, Inv;
      StepKeepsSales(g, db0, states[j - 1], a, c);
    }
  }

  // ---------- deliveries ----------

  predicate HasJob(s: Sys, job: Job) {
    exists t :: t in s.sessions && s.sessions[t].job == job
  }

  predicate LogFromSessions(s: Sys) {
    forall i :: 0 <= i < |s.log| ==> HasJob(s, s.log[i].job)
  }

  predicate SameJobs(s: Sys, s': Sys) {
    forall t :: t in s.sessions ==> t in s'.sessions && s'.sessions[t].job == s.sessions[t].job
  }

  lemma PutKeepsJobs(s: Sys, sid: nat, x: Session, s': Sys)
    requires s'.sessions == s.sessions[sid := x] && (sid in s.sessions ==> x.job == s.sessions[sid].job)
    ensures SameJobs(s, s')
  {
  }

  lemma StepKeepsJobs(g: GrantIds, s: Sys, a: Action)
    requires s.past != [] && forall t :: t in s.sessions ==> s.sessions[t].job.Accepted()
    ensures var s' := Step(g, s, a);
            && SameJobs(s, s')
            && (s'.log == s.log || (a.Advance? && a.sid in s.sessions
                                    && s'.log == s.log + [Entry(s.sessions[a.sid].job, s.sessions[a.sid].code)]))
  {
    hide *;
    match a {
      case Advance(sid, choice) => AdvanceKeepsJobs(g, s, sid, choice);
      case _ => OtherKeepsJobs(g, s, a);
    }
  }

  lemma AdvanceKeepsJobs(g: GrantIds, s: Sys, sid: nat, choice: nat)
    requires s.past != [] && forall t :: t in s.sessions ==> s.sessions[t].job.Accepted()
    ensures var s' := Step(g, s, Advance(sid, choice));
            && SameJobs(s, s')
            && (s'.log == s.log || (sid in s.sessions && s'.log == s.log + [Entry(s.sessions[sid].job, s.sessions[sid].code)]))
  {
    hide FindWallet, MovePoints, Commit, BeforeTx, ReturnSlot, Finding, Moving, SameJobs;
    var s' := Step(g, s, Advance(sid, choice));
    if sid in s.sessions {
      var x := s.sessions[sid];
      OwnStatement(s, sid, x);
      if s' == s { NothingMoved(s, s'); } else { PutKeepsJobs(s, sid, s'.sessions[sid], s'); }
    } else {
      NothingMoved(s, s');
    }
  }

  lemma OwnStatement(s: Sys, sid: nat, x: Session)
    requires x.job.Accepted()
    ensures var s' := Commit(s, sid, x); s'.sessions == s.sessions[sid := x.Done()] && s'.log == s.log + [Entry(x.job, x.code)]
    ensures x.job.Earn? ==> var s' := BeforeTx(s, sid, x); s'.log == s.log && exists y: Session :: y.job == x.job && s'.sessions == s.sessions[sid := y]
    ensures x.job.Earn? ==> var s' := ReturnSlot(s, sid, x); s'.log == s.log && exists y: Session :: y.job == x.job && s'.sessions == s.sessions[sid := y]
  {
    hide HasTxn, CountOf, RuleOf, Apply;
    if x.job.Earn? {
      assert BeforeTx(s, sid, x).sessions == s.sessions[sid := BeforeTx(s, sid, x).sessions[sid]];
      assert ReturnSlot(s, sid, x).sessions == s.sessions[sid := ReturnSlot(s, sid, x).sessions[sid]];
    }
  }

  lemma OtherKeepsJobs(g: GrantIds, s: Sys, a: Action)
    requires s.past != [] && forall t :: t in s.sessions ==> s.sessions[t].job.Accepted()
    requires !a.Advance?
    ensures var s' := Step(g, s, a); SameJobs(s, s') && s'.log == s.log
  {
    hide BeforeTx, FindWallet, MovePoints, Commit, ReturnSlot, CountOf, SameJobs;
    var s' := Step(g, s, a);
    if s'.sessions == s.sessions {
      NothingMoved(s, s');
    } else {
      PutKeepsJobs(s, a.sid, s'.sessions[a.sid], s');
    }
  }

  lemma NothingMoved(s: Sys, s': Sys)
    requires s'.sessions == s.sessions
    ensures SameJobs(s, s')
  {
  }

  lemma {:induction false} RunLogsSessions(g: GrantIds, db0: Db, actions: seq<Action>, states: seq<Sys>, n: nat)
    requires IsRun(g, db0, actions, states) && n < |states|
    ensures LogFromSessions(states[n])
  {
    if n > 0 {
      RunLogsSessions(g, db0, actions, states, n - 1);
      RunKeepsInv(g, db0, actions, states, n - 1);
      var s, a, s' := states[n - 1], actions[n - 1], states[n];
      hide Step, Inv, SessionOk;
      assert Next(g, s, a, s');
      StepKeepsJobs(g, s, a);
      forall i | 0 <= i < |s'.log| ensures HasJob(s', s'.log[i].job) {
        if i < |s.log| {
          assert s'.log[i] == s.log[i];
          var t :| t in s.sessions && s.sessions[t].job == s.log[i].job;
          assert s'.sessions[t].job == s'.log[i].job;
        } else {
          assert s'.sessions[a.sid].job == s'.log[i].job;
        }
      }
    }
  }

  ghost function DeliveredIds(s: Sys): set<nat> {
    set t | t in s.sessions && s.sessions[t].job.Earn? :: s.sessions[t].job.txnId
  }

  /** Each transaction id was only ever delivered for one user and one kind of reward. */
  ghost predicate DeliveriesMatch(payload: nat -> Payload, s: Sys) {
    forall t :: t in s.sessions && s.sessions[t].job.Earn? ==>
      payload(s.sessions[t].job.txnId) == Payload(s.sessions[t].job.user, s.sessions[t].job.refType)
  }

  lemma CreditedAreDelivered(payload: nat -> Payload, s: Sys)
    requires LogFromSessions(s) && DeliveriesMatch(payload, s)
    ensures EarnedIds(s.log) <= DeliveredIds(s) && PayloadsMatch(payload, s.log)
  {
    forall i | 0 <= i < |s.log| && s.log[i].job.Earn?
      ensures s.log[i].job.txnId in DeliveredIds(s)
      ensures payload(s.log[i].job.txnId) == Payload(s.log[i].job.user, s.log[i].job.refType)
    {
      assert HasJob(s, s.log[i].job);
    }
  }

  /**
    At most once, and confluent.  In any state of any interleaving of deliveries, however often
    and in whatever order they came, a balance counts every credited id once.  Once all delivered
    ids are credited it depends only on the set of them, and on what was spent.
   */
  lemma ReachableBalance(g: GrantIds, db0: Db, actions: seq<Action>, states: seq<Sys>, n: nat, payload: nat -> Payload, u: nat)
    requires Fresh(db0) && IsRun(g, db0, actions, states) && n < |states|
    requires DeliveriesMatch(payload, states[n]) && u in states[n].db.wallets
    ensures var s := states[n];
            var spent := Total(s.db.orders, SpentBy(u));
            && EarnedIds(s.log) <= DeliveredIds(s)
            && s.db.wallets[u].balance == INITIAL_BALANCE + SetTotal(EarnedIds(s.log), CreditTo(payload, u)) - spent
            && (DeliveredIds(s) <= EarnedIds(s.log) ==>
                  s.db.wallets[u].balance == INITIAL_BALANCE + SetTotal(DeliveredIds(s), CreditTo(payload, u)) - spent)
  {
    var s := states[n];
    hide IsRun, Inv, ExecAll, SetTotal, Total;
    RunLogsSessions(g, db0, actions, states, n);
    CreditedAreDelivered(payload, s);
    Serialisable(g, db0, actions, states, n);
    BalanceIsPerDistinctId(g, db0, s.log, payload, u);
    if DeliveredIds(s) <= EarnedIds(s.log) {
      assert DeliveredIds(s) == EarnedIds(s.log);
    }
  }
}
