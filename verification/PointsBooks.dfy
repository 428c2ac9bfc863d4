/**
  What holds of the points and mall tables after any number of committed transactions,
  run one at a time in commit order from a fresh database.
 */
module PointsBooks {
  import opened Common
  import opened PointsLedger

  predicate AllAccepted(log: seq<Entry>) {
    forall i :: 0 <= i < |log| ==> log[i].job.Accepted()
  }

  // ---------- the mall ----------

  lemma TxSellsFreeCode(g: GrantIds, db: Db, job: Job, code: nat)
    requires job.Accepted() && job.Redeem?
    requires ExecTx(g, db, job, code).Committed?
    ensures Available(db.codes, job.productId, code)
    ensures var d := ExecTx(g, db, job, code).db;
            && d.codes == db.codes[code := Code(job.productId, Some(Sale(job.orderId, job.user)))]
            && d.orders == db.orders + [Order(job.orderId, job.user, job.productId, job.price, code)]
            && !HasOrder(db.orders, job.orderId)
  {
  }

  lemma SaleKeepsMatch(db: Db, d: Db, o: Order)
    requires SoldMatchOrders(db) && Available(db.codes, o.productId, o.codeId) && !HasOrder(db.orders, o.orderId)
    requires d.codes == db.codes[o.codeId := Code(o.productId, Some(Sale(o.orderId, o.userId)))]
    requires d.orders == db.orders + [o]
    ensures SoldMatchOrders(d)
  {
    var n := |db.orders|;
    forall i | 0 <= i < n
      ensures d.orders[i].codeId in d.codes && OrderSells(d, i, d.orders[i].codeId) && d.orders[i].codeId != o.codeId
    {
      assert OrderSells(db, i, db.orders[i].codeId);
    }
    assert OrderSells(d, n, o.codeId);
    forall c | c in d.codes && d.codes[c].sale.Some?
      ensures exists i :: 0 <= i < |d.orders| && OrderSells(d, i, c)
    {
      if c != o.codeId {
        var i :| 0 <= i < n && OrderSells(db, i, c);
        assert OrderSells(d, i, c);
      }
    }
  }

  lemma SaleTakesOneCode(db: Db, d: Db, o: Order, p: nat)
    requires Available(db.codes, o.productId, o.codeId)
    requires d.codes == db.codes[o.codeId := Code(o.productId, Some(Sale(o.orderId, o.userId)))]
    requires d.orders == db.orders + [o]
    requires |FreeCodes(db, p)| + Total(db.orders, OrderOf(p)) == |CodesOf(db, p)|
    ensures |FreeCodes(d, p)| + Total(d.orders, OrderOf(p)) == |CodesOf(d, p)|
    ensures CodesOf(d, p) == CodesOf(db, p)
  {
    TotalAppend(db.orders, o, OrderOf(p));
    assert CodesOf(d, p) == CodesOf(db, p);
    assert FreeCodes(d, p) == if o.productId == p then FreeCodes(db, p) - {o.codeId} else FreeCodes(db, p);
  }

  /** The ledger rows a transaction appends, if it commits: an optional grant, then its own row. */
  lemma TxLedger(g: GrantIds, db: Db, job: Job, code: nat)
    requires job.Accepted() && ExecTx(g, db, job, code).Committed?
    ensures var d := OpenWallet(g, db, job.user);
            ExecTx(g, db, job, code).db.ledger ==
            if job.Open? then d.ledger else d.ledger + [job.MainRow(d.wallets[job.user])]
  {
  }

  lemma TxMallFigures(g: GrantIds, db: Db, job: Job, code: nat, u: nat)
    requires job.Accepted() && ExecTx(g, db, job, code).Committed?
    ensures Total(ExecTx(g, db, job, code).db.ledger, MallFor(u))
         == Total(db.ledger, MallFor(u)) - (if job.Redeem? && job.user == u then job.price else 0)
  {
    TxLedger(g, db, job, code);
    assert MALL[0] == 'm' && GRANT[0] == 'i';
    if job.user !in db.wallets && !HasTxn(db.ledger, g(job.user)) {
      TotalAppend(db.ledger, GrantRow(g, job.user), MallFor(u));
    }
    var d := OpenWallet(g, db, job.user);
    if !job.Open? {
      if job.Earn? { RuleIsNotGrant(job.refType); }
      TotalAppend(d.ledger, job.MainRow(d.wallets[job.user]), MallFor(u));
    }
  }

  lemma TxKeepsMall(g: GrantIds, db: Db, job: Job, code: nat)
    requires job.Accepted() && MallBooks(db)
    requires ExecTx(g, db, job, code).Committed?
    ensures MallBooks(ExecTx(g, db, job, code).db)
    ensures forall p :: CodesOf(ExecTx(g, db, job, code).db, p) == CodesOf(db, p)
  {
    var d := ExecTx(g, db, job, code).db;
    if job.Redeem? {
      var o := Order(job.orderId, job.user, job.productId, job.price, code);
      TxSellsFreeCode(g, db, job, code);
      SaleKeepsMatch(db, d, o);
      forall p
        ensures |FreeCodes(d, p)| + Total(d.orders, OrderOf(p)) == |CodesOf(d, p)| && CodesOf(d, p) == CodesOf(db, p)
      {
        SaleTakesOneCode(db, d, o, p);
      }
      forall u ensures Total(d.orders, SpentBy(u)) == -Total(d.ledger, MallFor(u)) {
        TotalAppend(db.orders, o, SpentBy(u));
        TxMallFigures(g, db, job, code, u);
      }
    } else {
      assert d.codes == db.codes && d.orders == db.orders;
      forall i | 0 <= i < |d.orders| ensures d.orders[i].codeId in d.codes && OrderSells(d, i, d.orders[i].codeId) {
        assert OrderSells(db, i, db.orders[i].codeId);
      }
      forall c | c in d.codes && d.codes[c].sale.Some?
        ensures exists i :: 0 <= i < |d.orders| && OrderSells(d, i, c)
      {
        var i :| 0 <= i < |db.orders| && OrderSells(db, i, c);
        assert OrderSells(d, i, c);
      }
      forall p ensures |FreeCodes(d, p)| + Total(d.orders, OrderOf(p)) == |CodesOf(d, p)| {
        assert FreeCodes(d, p) == FreeCodes(db, p) && CodesOf(d, p) == CodesOf(db, p);
      }
      forall u ensures Total(d.orders, SpentBy(u)) == -Total(d.ledger, MallFor(u)) {
        TxMallFigures(g, db, job, code, u);
      }
    }
  }

  lemma FreshBooks(db: Db)
    requires Fresh(db)
    ensures Books(db) && MallBooks(db)
  {
    forall u ensures BooksFor(db, u) {
    }
    forall p ensures |FreeCodes(db, p)| + Total(db.orders, OrderOf(p)) == |CodesOf(db, p)| {
      assert FreeCodes(db, p) == CodesOf(db, p);
    }
  }

  /** Every wallet balances, every id is used once, and no code is sold twice, after any log. */
  lemma {:induction false} LogKeepsBooks(g: GrantIds, db: Db, log: seq<Entry>)
    requires AllAccepted(log) && Books(db) && MallBooks(db)
    requires ExecAll(g, db, log).Some?
    ensures Books(ExecAll(g, db, log).value)
    ensures MallBooks(ExecAll(g, db, log).value)
  {
    if log != [] {
      var n := |log| - 1;
      LogKeepsBooks(g, db, log[..n]);
      var before := ExecAll(g, db, log[..n]).value;
      TxKeepsBooks(g, before, log[n].job, log[n].code);
      TxKeepsMall(g, before, log[n].job, log[n].code);
    }
  }

  /** The same code rows for the same products, and those that were sold still sold to the same buyers. */
  predicate SameStock(db: Db, d: Db) {
    && d.codes.Keys == db.codes.Keys
    && forall c :: c in db.codes ==>
         && d.codes[c].productId == db.codes[c].productId
         && (db.codes[c].sale.Some? ==> d.codes[c] == db.codes[c])
  }

  lemma TxKeepsStock(g: GrantIds, db: Db, job: Job, code: nat)
    requires job.Accepted() && ExecTx(g, db, job, code).Committed?
    ensures SameStock(db, ExecTx(g, db, job, code).db)
  {
    if job.Redeem? {
      TxSellsFreeCode(g, db, job, code);
    }
  }

  /** Codes are neither added nor removed, and a sold code keeps its owner, through any later log. */
  lemma {:induction false} SoldForGood(g: GrantIds, db: Db, log: seq<Entry>)
    requires AllAccepted(log) && ExecAll(g, db, log).Some?
    ensures SameStock(db, ExecAll(g, db, log).value)
  {
    hide ExecTx;
    if log != [] {
      var n := |log| - 1;
      SoldForGood(g, db, log[..n]);
      TxKeepsStock(g, ExecAll(g, db, log[..n]).value, log[n].job, log[n].code);
    }
  }

  lemma SameStockSameCodes(db: Db, d: Db, productId: nat)
    requires SameStock(db, d)
    ensures CodesOf(d, productId) == CodesOf(db, productId)
  {
    assert forall c :: c in CodesOf(d, productId) <==> c in CodesOf(db, productId);
  }

  /**
    Whatever the stock counter said: free codes and orders of a product together are always as
    many as the codes it was stocked with, so there are never more orders than that.
   */
  lemma NoOverselling(g: GrantIds, db: Db, log: seq<Entry>, productId: nat)
    requires AllAccepted(log) && Fresh(db) && ExecAll(g, db, log).Some?
    ensures var d := ExecAll(g, db, log).value;
            && |FreeCodes(d, productId)| + Total(d.orders, OrderOf(productId)) == |CodesOf(db, productId)|
            && Total(d.orders, OrderOf(productId)) <= |CodesOf(db, productId)|
  {
    FreshBooks(db);
    LogKeepsBooks(g, db, log);
    SoldForGood(g, db, log);
    hide ExecAll, Books, SameStock, SoldMatchOrders;
    var d := ExecAll(g, db, log).value;
    SameStockSameCodes(db, d, productId);
    assert |FreeCodes(d, productId)| + Total(d.orders, OrderOf(productId)) == |CodesOf(d, productId)|;
  }

  // ---------- reconciliation ----------

  /** A wallet reconciles exactly when its grant row is in the ledger; otherwise it is 100 too high. */
  lemma ReconcilesIffGranted(db: Db, user: nat)
    requires Books(db) && user in db.wallets
    ensures Reconciles(db, user) <==> Grants(db.ledger, user) == 1
    ensures !Reconciles(db, user) ==> db.wallets[user].balance == Sum(db.ledger, user) + INITIAL_BALANCE
  {
    assert BooksFor(db, user);
  }

  /**
    The grant row is missing for good exactly when its id was already taken at the moment
    the wallet was created (CreateWalletInTx ignores the duplicate key).
   */
  lemma GrantDroppedIffTaken(g: GrantIds, db: Db, job: Job, code: nat)
    requires job.Accepted() && Books(db) && job.user !in db.wallets
    requires ExecTx(g, db, job, code).Committed?
    ensures job.user in ExecTx(g, db, job, code).db.wallets
    ensures Reconciles(ExecTx(g, db, job, code).db, job.user) <==> !HasTxn(db.ledger, g(job.user))
  {
    var d := ExecTx(g, db, job, code).db;
    TxKeepsBooks(g, db, job, code);
    ReconcilesIffGranted(d, job.user);
    assert BooksFor(db, job.user);
    TxLedger(g, db, job, code);
    FiguresAppend(db.ledger, GrantRow(g, job.user), job.user);
    var o := OpenWallet(g, db, job.user);
    if !job.Open? {
      if job.Earn? { RuleIsNotGrant(job.refType); }
      assert MALL[0] == 'm' && GRANT[0] == 'i';
      FiguresAppend(o.ledger, job.MainRow(o.wallets[job.user]), job.user);
    }
  }

  /** Whatever the ids are computed with: an earn whose id is the grant id of another user costs that user the grant row. */
  lemma CollisionBreaksReconciliation(g: GrantIds, u: nat, v: nat)
    requires u != v && g(u) != g(v)
    ensures var log := [Entry(Earn(u, "comment", 1, g(v)), 0), Entry(Open(v), 0)];
            var r := ExecAll(g, Db(map[], [], map[], []), log);
            r.Some? && v in r.value.wallets && !Reconciles(r.value, v)
  {
    var db0 := Db(map[], [], map[], []);
    var e1 := Entry(Earn(u, "comment", 1, g(v)), 0);
    var e2 := Entry(Open(v), 0);
    FreshBooks(db0);
    ExecAllAppend(g, db0, [], e1);
    var db1 := ExecTx(g, db0, e1.job, 0).db;
    assert [] + [e1] == [e1];
    assert db1.ledger[1].txnId == g(v);
    ExecAllAppend(g, db0, [e1], e2);
    assert [e1] + [e2] == [e1, e2];
    TxKeepsBooks(g, db0, e1.job, 0);
    GrantDroppedIffTaken(g, db1, e2.job, 0);
  }

  /** Grant ids are distinct per user and never used for anything else. */
  ghost predicate IdsKeptApart(g: GrantIds, log: seq<Entry>) {
    && (forall u, v :: u != v ==> g(u) != g(v))
    && (forall i, u :: 0 <= i < |log| && !log[i].job.Open? ==> log[i].job.txnId != g(u))
  }

  ghost predicate GrantIdsOnlyOnGrants(g: GrantIds, ledger: seq<Row>) {
    forall i :: 0 <= i < |ledger| ==>
      if ledger[i].refType == GRANT then ledger[i].txnId == g(ledger[i].userId)
      else forall u :: ledger[i].txnId != g(u)
  }

  lemma {:induction false} RowsCountMembers(ledger: seq<Row>, i: nat)
    requires i < |ledger|
    ensures Rows(ledger, ledger[i].userId) > 0
  {
    var n := |ledger| - 1;
    RowsNonNegative(ledger[..n], ledger[i].userId);
    if i < n {
      RowsCountMembers(ledger[..n], i);
    }
  }

  lemma {:induction false} RowsNonNegative(ledger: seq<Row>, u: nat)
    ensures Rows(ledger, u) >= 0
  {
    if ledger != [] {
      RowsNonNegative(ledger[..|ledger| - 1], u);
    }
  }

  lemma TxKeepsGrantIdsApart(g: GrantIds, db: Db, job: Job, code: nat)
    requires job.Accepted() && ExecTx(g, db, job, code).Committed?
    requires GrantIdsOnlyOnGrants(g, db.ledger)
    requires !job.Open? ==> forall u :: job.txnId != g(u)
    ensures GrantIdsOnlyOnGrants(g, ExecTx(g, db, job, code).db.ledger)
  {
    TxLedger(g, db, job, code);
    if job.Earn? { RuleIsNotGrant(job.refType); }
    assert MALL[0] == 'm' && GRANT[0] == 'i';
    assert GrantIdsOnlyOnGrants(g, OpenWallet(g, db, job.user).ledger);
  }

  lemma TxKeepsReconciled(g: GrantIds, db: Db, job: Job, code: nat, u: nat)
    requires job.Accepted() && ExecTx(g, db, job, code).Committed?
    requires Books(db) && GrantIdsOnlyOnGrants(g, db.ledger)
    requires forall u, v :: u != v ==> g(u) != g(v)
    requires forall u :: u in db.wallets ==> Reconciles(db, u)
    requires u in ExecTx(g, db, job, code).db.wallets
    ensures Reconciles(ExecTx(g, db, job, code).db, u)
  {
    hide ExecTx, Sum, Rows, RuleOf, RunningBalances, DistinctIds;
    TxMovesOnlyOwner(g, db, job, code, u);
    if u == job.user {
      if u in db.wallets {
        TxKeepsBooks(g, db, job, code);
        ReconcilesIffGranted(db, u);
        ReconcilesIffGranted(ExecTx(g, db, job, code).db, u);
      } else {
        assert BooksFor(db, u);
        if HasTxn(db.ledger, g(u)) {
          var i :| 0 <= i < |db.ledger| && db.ledger[i].txnId == g(u);
          RowsCountMembers(db.ledger, i);
        }
        GrantDroppedIffTaken(g, db, job, code);
      }
    }
  }

  /** With transaction ids kept apart, every wallet reconciles after every committed log. */
  lemma {:induction false} DistinctIdsReconcile(g: GrantIds, db: Db, log: seq<Entry>)
    requires AllAccepted(log) && Fresh(db) && ExecAll(g, db, log).Some?
    requires IdsKeptApart(g, log)
    ensures var d := ExecAll(g, db, log).value;
            && GrantIdsOnlyOnGrants(g, d.ledger)
            && forall u :: u in d.wallets ==> Reconciles(d, u)
  {
    if log != [] {
      var n := |log| - 1;
      var job, code := log[n].job, log[n].code;
      DistinctIdsReconcile(g, db, log[..n]);
      FreshBooks(db);
      LogKeepsBooks(g, db, log[..n]);
      var before := ExecAll(g, db, log[..n]).value;
      var d := ExecTx(g, before, job, code).db;
      TxKeepsGrantIdsApart(g, before, job, code);
      forall u | u in d.wallets ensures Reconciles(d, u) {
        TxKeepsReconciled(g, before, job, code, u);
      }
    }
  }

  lemma TxLeavesOthers(g: GrantIds, db: Db, job: Job, code: nat, u: nat)
    requires job.Accepted() && ExecTx(g, db, job, code).Committed? && u != job.user
    ensures var d := ExecTx(g, db, job, code).db;
            (u in d.wallets <==> u in db.wallets) && (u in d.wallets ==> d.wallets[u] == db.wallets[u])
  {
    hide HasTxn, HasOrder, RuleOf;
  }

  lemma TxFigures(g: GrantIds, db: Db, job: Job, code: nat, u: nat)
    requires job.Accepted() && ExecTx(g, db, job, code).Committed?
    ensures var d := ExecTx(g, db, job, code).db;
            && (u != job.user ==> Sum(d.ledger, u) == Sum(db.ledger, u))
            && (job.user in db.wallets ==> Grants(d.ledger, u) == Grants(db.ledger, u))
  {
    hide ExecTx, Total, Sum, Rows, Grants, HasTxn, RuleOf;
    TxLedger(g, db, job, code);
    FiguresAppend(db.ledger, GrantRow(g, job.user), u);
    var o := OpenWallet(g, db, job.user);
    if !job.Open? {
      if job.Earn? { RuleIsNotGrant(job.refType); }
      assert MALL[0] == 'm' && GRANT[0] == 'i';
      FiguresAppend(o.ledger, job.MainRow(o.wallets[job.user]), u);
    }
  }

  lemma TxMovesOnlyOwner(g: GrantIds, db: Db, job: Job, code: nat, u: nat)
    requires job.Accepted() && ExecTx(g, db, job, code).Committed?
    ensures var d := ExecTx(g, db, job, code).db;
            && (u != job.user ==>
                  && (u in d.wallets <==> u in db.wallets)
                  && (u in d.wallets ==> d.wallets[u] == db.wallets[u])
                  && Sum(d.ledger, u) == Sum(db.ledger, u))
            && (job.user in db.wallets ==> Grants(d.ledger, u) == Grants(db.ledger, u))
  {
    hide *;
    TxFigures(g, db, job, code, u);
    if u != job.user { TxLeavesOthers(g, db, job, code, u); }
  }

  // ---------- where rows come from ----------

  /** A grant row, or the row of a logged earn or redemption with the very reference it was asked for. */
  ghost predicate RowIsAskedFor(g: GrantIds, r: Row, log: seq<Entry>) {
    || (r.refType == "initial_grant" && r.refId == r.userId && r.amount == 100 && r.txnId == g(r.userId))
    || (exists i :: 0 <= i < |log| && log[i].job.Earn? && log[i].job.txnId == r.txnId && log[i].job.user == r.userId
          && log[i].job.refType == r.refType && log[i].job.refId == r.refId)
    || (exists i :: 0 <= i < |log| && log[i].job.Redeem? && log[i].job.txnId == r.txnId && log[i].job.user == r.userId
          && r.refType == "mall_redeem" && log[i].job.orderId == r.refId && r.amount == -log[i].job.price)
  }

  /** An order for the code, the product, the price and the buyer of a logged redemption. */
  ghost predicate OrderIsAskedFor(o: Order, log: seq<Entry>) {
    exists i :: 0 <= i < |log| && log[i].job.Redeem? && o.orderId == log[i].job.orderId && o.userId == log[i].job.user
      && o.productId == log[i].job.productId && o.spent == log[i].job.price && o.codeId == log[i].code
  }

  lemma LongerLog(g: GrantIds, r: Row, log: seq<Entry>, n: nat)
    requires n <= |log| && RowIsAskedFor(g, r, log[..n])
    ensures RowIsAskedFor(g, r, log)
  {
    assert forall i :: 0 <= i < n ==> log[..n][i] == log[i];
  }

  lemma LongerLogOrder(o: Order, log: seq<Entry>, n: nat)
    requires n <= |log| && OrderIsAskedFor(o, log[..n])
    ensures OrderIsAskedFor(o, log)
  {
    assert forall i :: 0 <= i < n ==> log[..n][i] == log[i];
  }

  lemma TxRowsAskedFor(g: GrantIds, db: Db, job: Job, code: nat, log: seq<Entry>, r: Row)
    requires job.Accepted() && ExecTx(g, db, job, code).Committed? && log != [] && log[|log| - 1] == Entry(job, code)
    requires r in ExecTx(g, db, job, code).db.ledger && r !in db.ledger
    ensures RowIsAskedFor(g, r, log)
  {
    TxLedger(g, db, job, code);
    hide ExecTx, HasTxn;
    var n := |log| - 1;
    assert log[n].job == job;
  }

  lemma TxOrdersAskedFor(g: GrantIds, db: Db, job: Job, code: nat, log: seq<Entry>, o: Order)
    requires job.Accepted() && ExecTx(g, db, job, code).Committed? && log != [] && log[|log| - 1] == Entry(job, code)
    requires o in ExecTx(g, db, job, code).db.orders && o !in db.orders
    ensures OrderIsAskedFor(o, log)
  {
    if job.Redeem? {
      TxSellsFreeCode(g, db, job, code);
      assert log[|log| - 1].job == job;
    }
    hide HasTxn, HasOrder;
  }

  /** Every ledger row and every order is one that was asked for, with its own reference. */
  lemma {:induction false} RowsAreAskedFor(g: GrantIds, db: Db, log: seq<Entry>)
    requires AllAccepted(log) && Fresh(db) && ExecAll(g, db, log).Some?
    ensures forall r :: r in ExecAll(g, db, log).value.ledger ==> RowIsAskedFor(g, r, log)
    ensures forall o :: o in ExecAll(g, db, log).value.orders ==> OrderIsAskedFor(o, log)
  {
    hide ExecTx, RowIsAskedFor, OrderIsAskedFor;
    if log != [] {
      var n := |log| - 1;
      RowsAreAskedFor(g, db, log[..n]);
      var before, d := ExecAll(g, db, log[..n]).value, ExecAll(g, db, log).value;
      forall r | r in d.ledger ensures RowIsAskedFor(g, r, log) {
        if r in before.ledger { LongerLog(g, r, log, n); } else { TxRowsAskedFor(g, before, log[n].job, log[n].code, log, r); }
      }
      forall o | o in d.orders ensures OrderIsAskedFor(o, log) {
        if o in before.orders { LongerLogOrder(o, log, n); } else { TxOrdersAskedFor(g, before, log[n].job, log[n].code, log, o); }
      }
    }
  }

  // ---------- deliveries: at most once, in any order ----------

  /** What a transaction id stands for: the stable id names one user and one kind of reward. */
  datatype Payload = Payload(user: nat, refType: string)

  function CreditTo(payload: nat -> Payload, user: nat): nat -> int {
    (t: nat) => if payload(t).user == user && RuleOf(payload(t).refType).Some?
                then RuleOf(payload(t).refType).value.amount else 0
  }

  ghost predicate PayloadsMatch(payload: nat -> Payload, log: seq<Entry>) {
    forall i :: 0 <= i < |log| && log[i].job.Earn? ==>
      payload(log[i].job.txnId) == Payload(log[i].job.user, log[i].job.refType)
  }

  ghost function EarnedIds(log: seq<Entry>): set<nat> {
    set i | 0 <= i < |log| && log[i].job.Earn? :: log[i].job.txnId
  }

  lemma EarnedIdsAppend(log: seq<Entry>, e: Entry)
    ensures EarnedIds(log + [e]) == EarnedIds(log) + if e.job.Earn? then {e.job.txnId} else {}
  {
    var l := log + [e];
    forall t | t in EarnedIds(log) ensures t in EarnedIds(l) {
      var i :| 0 <= i < |log| && log[i].job.Earn? && log[i].job.txnId == t;
      assert l[i] == log[i];
    }
    assert l[|log|] == e;
  }

  lemma TxEarnFigures(g: GrantIds, db: Db, job: Job, code: nat, u: nat)
    requires job.Accepted() && ExecTx(g, db, job, code).Committed?
    ensures var d := ExecTx(g, db, job, code).db;
            Sum(d.ledger, u) - INITIAL_BALANCE * Grants(d.ledger, u) - Total(d.ledger, MallFor(u))
            == Sum(db.ledger, u) - INITIAL_BALANCE * Grants(db.ledger, u) - Total(db.ledger, MallFor(u))
               + if job.Earn? && job.user == u then job.Amount() else 0
  {
    hide ExecTx, Total, Sum, Rows, Grants, HasTxn, RuleOf;
    TxMallFigures(g, db, job, code, u);
    TxLedger(g, db, job, code);
    FiguresAppend(db.ledger, GrantRow(g, job.user), u);
    var o := OpenWallet(g, db, job.user);
    if !job.Open? {
      if job.Earn? { RuleIsNotGrant(job.refType); }
      assert MALL[0] == 'm' && GRANT[0] == 'i';
      FiguresAppend(o.ledger, job.MainRow(o.wallets[job.user]), u);
    }
  }

  lemma TxIdsGrow(g: GrantIds, db: Db, job: Job, code: nat, t: nat)
    requires job.Accepted() && ExecTx(g, db, job, code).Committed?
    ensures HasTxn(db.ledger, t) ==> HasTxn(ExecTx(g, db, job, code).db.ledger, t)
    ensures !job.Open? ==> !HasTxn(db.ledger, job.txnId) && HasTxn(ExecTx(g, db, job, code).db.ledger, job.txnId)
  {
    TxLedger(g, db, job, code);
    HasTxnAppend(db.ledger, GrantRow(g, job.user), t);
    var o := OpenWallet(g, db, job.user);
    if !job.Open? {
      HasTxnAppend(db.ledger, GrantRow(g, job.user), job.txnId);
      HasTxnAppend(o.ledger, job.MainRow(o.wallets[job.user]), t);
      HasTxnAppend(o.ledger, job.MainRow(o.wallets[job.user]), job.txnId);
    }
  }

  ghost predicate EarnedFrom(db: Db, ids: set<nat>, payload: nat -> Payload, u: nat) {
    && (forall t :: t in ids ==> HasTxn(db.ledger, t))
    && Sum(db.ledger, u) == INITIAL_BALANCE * Grants(db.ledger, u) + Total(db.ledger, MallFor(u))
                            + SetTotal(ids, CreditTo(payload, u))
  }

  lemma TxCreditsOnce(g: GrantIds, db: Db, job: Job, code: nat, ids: set<nat>, payload: nat -> Payload, u: nat)
    requires job.Accepted() && ExecTx(g, db, job, code).Committed?
    requires EarnedFrom(db, ids, payload, u)
    requires job.Earn? ==> payload(job.txnId) == Payload(job.user, job.refType)
    ensures EarnedFrom(ExecTx(g, db, job, code).db, ids + (if job.Earn? then {job.txnId} else {}), payload, u)
  {
    var d := ExecTx(g, db, job, code).db;
    TxEarnFigures(g, db, job, code, u);
    forall t | t in ids ensures HasTxn(d.ledger, t) {
      TxIdsGrow(g, db, job, code, t);
    }
    TxIdsGrow(g, db, job, code, 0);
    if job.Earn? {
      var ids' := ids + {job.txnId};
      SetTotalRemove(ids', CreditTo(payload, u), job.txnId);
      assert ids' - {job.txnId} == ids;
    } else {
      assert ids + {} == ids;
    }
  }

  lemma {:induction false} EarnedIsPerDistinctId(g: GrantIds, db: Db, log: seq<Entry>, payload: nat -> Payload, u: nat)
    requires AllAccepted(log) && Fresh(db) && ExecAll(g, db, log).Some?
    requires PayloadsMatch(payload, log)
    ensures EarnedFrom(ExecAll(g, db, log).value, EarnedIds(log), payload, u)
  {
    if log == [] {
      assert EarnedIds(log) == {};
    } else {
      var n := |log| - 1;
      EarnedIsPerDistinctId(g, db, log[..n], payload, u);
      assert log == log[..n] + [log[n]];
      EarnedIdsAppend(log[..n], log[n]);
      TxCreditsOnce(g, ExecAll(g, db, log[..n]).value, log[n].job, log[n].code, EarnedIds(log[..n]), payload, u);
    }
  }

  /**
    However deliveries were duplicated or reordered, a balance is the initial grant, plus one
    amount per distinct credited transaction id, minus what was spent in the mall.
   */
  lemma BalanceIsPerDistinctId(g: GrantIds, db: Db, log: seq<Entry>, payload: nat -> Payload, u: nat)
    requires AllAccepted(log) && Fresh(db) && ExecAll(g, db, log).Some?
    requires PayloadsMatch(payload, log)
    ensures var d := ExecAll(g, db, log).value;
            u in d.wallets ==>
              d.wallets[u].balance == INITIAL_BALANCE + SetTotal(EarnedIds(log), CreditTo(payload, u)) - Total(d.orders, SpentBy(u))
  {
    FreshBooks(db);
    LogKeepsBooks(g, db, log);
    EarnedIsPerDistinctId(g, db, log, payload, u);
    assert BooksFor(ExecAll(g, db, log).value, u);
  }

  /** Two shops that credited the same ids and sold the same orders agree on every balance. */
  lemma Confluent(g: GrantIds, db: Db, log: seq<Entry>, log': seq<Entry>, payload: nat -> Payload, u: nat)
    requires AllAccepted(log) && AllAccepted(log') && Fresh(db)
    requires ExecAll(g, db, log).Some? && ExecAll(g, db, log').Some?
    requires PayloadsMatch(payload, log) && PayloadsMatch(payload, log')
    requires EarnedIds(log) == EarnedIds(log')
    requires var d, d' := ExecAll(g, db, log).value, ExecAll(g, db, log').value;
             && u in d.wallets && u in d'.wallets
             && Total(d.orders, SpentBy(u)) == Total(d'.orders, SpentBy(u))
    ensures ExecAll(g, db, log).value.wallets[u].balance == ExecAll(g, db, log').value.wallets[u].balance
  {
    BalanceIsPerDistinctId(g, db, log, payload, u);
    BalanceIsPerDistinctId(g, db, log', payload, u);
  }
}
