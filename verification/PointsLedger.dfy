/**
  The points tables and what one transaction does to them when it runs alone.

  A wallet row carries a balance and an optimistic-lock version; every change is also a
  ledger row whose primary key is the transaction id.  The mall sells activation codes:
  a redemption sells one code, writes one expense row and one order.  Rows are kept in
  commit order.
 */
module PointsLedger {
  import opened Common

  const INITIAL_BALANCE: int := 100
  const GRANT := "initial_grant"
  const MALL := "mall_redeem"

  datatype Wallet = Wallet(balance: int, version: int)

  datatype Row = Row(txnId: nat, userId: nat, amount: int, refType: string, refId: nat, balanceAfter: int)

  datatype Sale = Sale(orderId: nat, buyer: nat)

  datatype Code = Code(productId: nat, sale: Option<Sale>)

  datatype Order = Order(orderId: nat, userId: nat, productId: nat, spent: int, codeId: nat)

  datatype Db = Db(wallets: map<nat, Wallet>, ledger: seq<Row>, codes: map<nat, Code>, orders: seq<Order>)

  /** How the grant transaction id of a user is computed: any function at all. */
  type GrantIds = nat -> nat

  /** A daily counter: one per user and kind of reward. */
  type Key = (nat, string)

  function CountOf(m: map<Key, int>, k: Key): int {
    if k in m then m[k] else 0
  }

  datatype Rule = Rule(amount: int, dailyLimit: int)

  function RuleOf(refType: string): Option<Rule> {
    if refType == "article" then Some(Rule(10, 50))
    else if refType == "comment" then Some(Rule(5, 30))
    else if refType == "article_liked" then Some(Rule(1, 20))
    else if refType == "comment_liked" then Some(Rule(1, 10))
    else if refType == "checkin" then Some(Rule(2, 2))
    else None
  }

  /** The work one transaction is asked to do; a redemption says which code row it claimed. */
  datatype Job =
    | Earn(user: nat, refType: string, refId: nat, txnId: nat)
    | Redeem(user: nat, productId: nat, price: int, orderId: nat, txnId: nat)
    | Open(user: nat)
  {
    /** Earn requests whose type has no rule never reach the database. */
    predicate Accepted() { Earn? ==> RuleOf(refType).Some? }

    function Amount(): int
      requires Accepted()
    {
      match this
      case Earn(_, refType, _, _) => RuleOf(refType).value.amount
      case Redeem(_, _, price, _, _) => -price
      case Open(_) => 0
    }

    function MainRow(seen: Wallet): Row
      requires Accepted() && !Open?
    {
      match this
      case Earn(user, refType, refId, txnId) =>
        Row(txnId, user, Amount(), refType, refId, seen.balance + Amount())
      case Redeem(user, _, _, orderId, txnId) =>
        Row(txnId, user, Amount(), MALL, orderId, seen.balance + Amount())
    }
  }

  datatype Error = OutOfStock | InsufficientBalance | ConcurrentModify | WalletNotFound | DailyLimitExceeded

  datatype Outcome = Committed(db: Db) | Skipped | Refused(error: Error)

  predicate HasTxn(ledger: seq<Row>, id: nat) {
    exists i :: 0 <= i < |ledger| && ledger[i].txnId == id
  }

  predicate HasOrder(orders: seq<Order>, id: nat) {
    exists i :: 0 <= i < |orders| && orders[i].orderId == id
  }

  predicate Available(codes: map<nat, Code>, productId: nat, code: nat) {
    code in codes && codes[code].productId == productId && codes[code].sale.None?
  }

  function GrantRow(g: GrantIds, user: nat): Row {
    Row(g(user), user, INITIAL_BALANCE, GRANT, user, INITIAL_BALANCE)
  }

  /** CreateWalletInTx running alone: a grant row whose id is taken is silently dropped. */
  function OpenWallet(g: GrantIds, db: Db, user: nat): Db {
    if user in db.wallets then db
    else db.(wallets := db.wallets[user := Wallet(INITIAL_BALANCE, 0)],
             ledger := if HasTxn(db.ledger, g(user)) then db.ledger else db.ledger + [GrantRow(g, user)])
  }

  /** One whole transaction running alone. */
  function ExecTx(g: GrantIds, db: Db, job: Job, code: nat): Outcome
    requires job.Accepted()
  {
    if job.Redeem? && !Available(db.codes, job.productId, code) then Refused(OutOfStock) else
    var d := OpenWallet(g, db, job.user);
    if job.Open? then Committed(d) else
    var w := d.wallets[job.user];
    if job.Redeem? && w.balance < job.price then Refused(InsufficientBalance)
    else if HasTxn(d.ledger, job.txnId) then Skipped
    else
      var moved := d.(wallets := d.wallets[job.user := Wallet(w.balance + job.Amount(), w.version + 1)],
                      ledger := d.ledger + [job.MainRow(w)]);
      if job.Earn? then Committed(moved)
      else if HasOrder(d.orders, job.orderId) then Skipped
      else Committed(moved.(
        codes := d.codes[code := Code(job.productId, Some(Sale(job.orderId, job.user)))],
        orders := d.orders + [Order(job.orderId, job.user, job.productId, job.price, code)]))
  }

  /** A committed transaction: what it did and which code row it took. */
  datatype Entry = Entry(job: Job, code: nat)

  /** Running committed transactions one at a time; None when one of them would not commit. */
  function ExecAll(g: GrantIds, db: Db, log: seq<Entry>): Option<Db>
    requires forall i :: 0 <= i < |log| ==> log[i].job.Accepted()
  {
    if log == [] then Some(db)
    else
      var before := ExecAll(g, db, log[..|log| - 1]);
      var e := log[|log| - 1];
      if before.None? then None
      else
        var r := ExecTx(g, before.value, e.job, e.code);
        if r.Committed? then Some(r.db) else None
  }

  lemma ExecAllAppend(g: GrantIds, db: Db, log: seq<Entry>, e: Entry)
    requires forall i :: 0 <= i < |log| ==> log[i].job.Accepted()
    requires e.job.Accepted()
    requires ExecAll(g, db, log).Some?
    requires ExecTx(g, ExecAll(g, db, log).value, e.job, e.code).Committed?
    ensures ExecAll(g, db, log + [e]) == Some(ExecTx(g, ExecAll(g, db, log).value, e.job, e.code).db)
  {
    assert (log + [e])[..|log|] == log;
  }

  // ---------- what the books say ----------

  function AmountFor(user: nat): Row -> int { (r: Row) => if r.userId == user then r.amount else 0 }
  function RowFor(user: nat): Row -> int { (r: Row) => if r.userId == user then 1 else 0 }
  function GrantFor(user: nat): Row -> int { (r: Row) => if r.userId == user && r.refType == GRANT then 1 else 0 }
  function MallFor(user: nat): Row -> int { (r: Row) => if r.userId == user && r.refType == MALL then r.amount else 0 }
  function SpentBy(user: nat): Order -> int { (o: Order) => if o.userId == user then o.spent else 0 }
  function OrderOf(productId: nat): Order -> int { (o: Order) => if o.productId == productId then 1 else 0 }

  function Sum(ledger: seq<Row>, user: nat): int { Total(ledger, AmountFor(user)) }
  function Rows(ledger: seq<Row>, user: nat): int { Total(ledger, RowFor(user)) }
  function Grants(ledger: seq<Row>, user: nat): int { Total(ledger, GrantFor(user)) }

  /** The part of a balance that no ledger row explains: a grant whose row was dropped. */
  function Unposted(ledger: seq<Row>, user: nat): int { INITIAL_BALANCE * (1 - Grants(ledger, user)) }

  /** The reconciliation query reports a wallet unless this holds. */
  predicate Reconciles(db: Db, user: nat)
    requires user in db.wallets
  {
    db.wallets[user].balance == Sum(db.ledger, user)
  }

  predicate BooksFor(db: Db, user: nat) {
    var l := db.ledger;
    if user in db.wallets then
      && db.wallets[user].balance == Sum(l, user) + Unposted(l, user)
      && db.wallets[user].balance >= 0
      && db.wallets[user].version == Rows(l, user) - Grants(l, user)
      && 0 <= Grants(l, user) <= 1
    else
      Sum(l, user) == Rows(l, user) == Grants(l, user) == 0
  }

  predicate DistinctIds(ledger: seq<Row>) {
    forall i, j :: 0 <= i < j < |ledger| ==> ledger[i].txnId != ledger[j].txnId
  }

  /** BalanceAfter of each row is the user's running balance in commit order. */
  predicate RunningBalances(ledger: seq<Row>) {
    forall i :: 0 <= i < |ledger| ==>
      ledger[i].balanceAfter ==
        Sum(ledger[..i + 1], ledger[i].userId) + Unposted(ledger[..i + 1], ledger[i].userId)
  }

  ghost predicate Books(db: Db) {
    && (forall u :: BooksFor(db, u))
    && DistinctIds(db.ledger)
    && RunningBalances(db.ledger)
  }

  /** Sold codes and orders correspond one to one. */
  predicate SoldMatchOrders(db: Db) {
    && (forall c :: c in db.codes && db.codes[c].sale.Some? ==>
          exists i :: 0 <= i < |db.orders| && OrderSells(db, i, c))
    && (forall i :: 0 <= i < |db.orders| ==> db.orders[i].codeId in db.codes && OrderSells(db, i, db.orders[i].codeId))
    && (forall i, j :: 0 <= i < j < |db.orders| ==>
          db.orders[i].orderId != db.orders[j].orderId && db.orders[i].codeId != db.orders[j].codeId)
  }

  predicate OrderSells(db: Db, i: int, c: nat)
    requires 0 <= i < |db.orders| && c in db.codes
  {
    var o := db.orders[i];
    o.codeId == c && db.codes[c] == Code(o.productId, Some(Sale(o.orderId, o.userId)))
  }

  function FreeCodes(db: Db, productId: nat): set<nat> {
    set c | c in db.codes && Available(db.codes, productId, c)
  }

  function CodesOf(db: Db, productId: nat): set<nat> {
    set c | c in db.codes && db.codes[c].productId == productId
  }

  ghost predicate MallBooks(db: Db) {
    && SoldMatchOrders(db)
    && (forall p :: |FreeCodes(db, p)| + Total(db.orders, OrderOf(p)) == |CodesOf(db, p)|)
    && (forall u :: Total(db.orders, SpentBy(u)) == -Total(db.ledger, MallFor(u)))
  }

  /** A shop that has never been used: no wallet, no row, no order, every code for sale. */
  predicate Fresh(db: Db) {
    && db.wallets == map[] && db.ledger == [] && db.orders == []
    && forall c :: c in db.codes ==> db.codes[c].sale.None?
  }

  lemma HasTxnAppend(ledger: seq<Row>, r: Row, id: nat)
    ensures HasTxn(ledger + [r], id) <==> HasTxn(ledger, id) || r.txnId == id
  {
    if HasTxn(ledger, id) {
      var i :| 0 <= i < |ledger| && ledger[i].txnId == id;
      assert (ledger + [r])[i].txnId == id;
    }
    assert (ledger + [r])[|ledger|] == r;
  }

  /** Appending a row moves only its own user's figures. */
  lemma FiguresAppend(ledger: seq<Row>, r: Row, u: nat)
    ensures Sum(ledger + [r], u) == Sum(ledger, u) + (if r.userId == u then r.amount else 0)
    ensures Rows(ledger + [r], u) == Rows(ledger, u) + (if r.userId == u then 1 else 0)
    ensures Grants(ledger + [r], u) == Grants(ledger, u) + (if r.userId == u && r.refType == GRANT then 1 else 0)
  {
    TotalAppend(ledger, r, AmountFor(u));
    TotalAppend(ledger, r, RowFor(u));
    TotalAppend(ledger, r, GrantFor(u));
  }

  lemma LedgerAppend(ledger: seq<Row>, r: Row)
    requires DistinctIds(ledger) && RunningBalances(ledger)
    requires !HasTxn(ledger, r.txnId)
    requires r.balanceAfter == Sum(ledger + [r], r.userId) + Unposted(ledger + [r], r.userId)
    ensures DistinctIds(ledger + [r]) && RunningBalances(ledger + [r])
  {
    var l := ledger + [r];
    forall i | 0 <= i < |l|
      ensures l[i].balanceAfter == Sum(l[..i + 1], l[i].userId) + Unposted(l[..i + 1], l[i].userId)
    {
      if i < |ledger| {
        assert l[..i + 1] == ledger[..i + 1];
      } else {
        assert l[..i + 1] == l;
      }
    }
  }

  lemma OpenKeepsBooks(g: GrantIds, db: Db, user: nat)
    requires Books(db)
    ensures Books(OpenWallet(g, db, user))
  {
    var d := OpenWallet(g, db, user);
    if user !in db.wallets {
      assert BooksFor(db, user);
      if !HasTxn(db.ledger, g(user)) {
        var r := GrantRow(g, user);
        FiguresAppend(db.ledger, r, user);
        LedgerAppend(db.ledger, r);
        forall u ensures BooksFor(d, u) {
          FiguresAppend(db.ledger, r, u);
          assert BooksFor(db, u);
        }
      } else {
        forall u ensures BooksFor(d, u) {
          assert BooksFor(db, u);
        }
      }
    }
  }

  lemma MoveKeepsBooks(db: Db, user: nat, r: Row)
    requires Books(db) && user in db.wallets
    requires r.userId == user && r.refType != GRANT && !HasTxn(db.ledger, r.txnId)
    requires r.balanceAfter == db.wallets[user].balance + r.amount >= 0
    ensures Books(db.(wallets := db.wallets[user := Wallet(r.balanceAfter, db.wallets[user].version + 1)],
                      ledger := db.ledger + [r]))
  {
    var d := db.(wallets := db.wallets[user := Wallet(r.balanceAfter, db.wallets[user].version + 1)],
                 ledger := db.ledger + [r]);
    assert BooksFor(db, user);
    FiguresAppend(db.ledger, r, user);
    LedgerAppend(db.ledger, r);
    forall u ensures BooksFor(d, u) {
      FiguresAppend(db.ledger, r, u);
      assert BooksFor(db, u);
    }
  }

  lemma BooksIgnoreMall(db: Db, codes: map<nat, Code>, orders: seq<Order>)
    requires Books(db)
    ensures Books(db.(codes := codes, orders := orders))
  {
    forall u ensures BooksFor(db.(codes := codes, orders := orders), u) {
      assert BooksFor(db, u);
    }
  }

  lemma RuleIsNotGrant(refType: string)
    requires RuleOf(refType).Some?
    ensures refType != GRANT && refType != MALL && RuleOf(refType).value.amount > 0
  {
    assert GRANT[0] == 'i' && MALL[0] == 'm';
    assert refType[0] == 'a' || refType[0] == 'c';
  }

  /** The ledger row and the balance of one earn or redemption. */
  lemma PayKeepsBooks(d: Db, job: Job)
    requires Books(d) && job.Accepted() && !job.Open? && job.user in d.wallets
    requires !HasTxn(d.ledger, job.txnId) && (job.Redeem? ==> d.wallets[job.user].balance >= job.price)
    ensures var w := d.wallets[job.user];
            Books(d.(wallets := d.wallets[job.user := Wallet(w.balance + job.Amount(), w.version + 1)],
                     ledger := d.ledger + [job.MainRow(w)]))
  {
    hide DistinctIds, RunningBalances, Sum, Rows, Grants, HasTxn, RuleOf;
    assert BooksFor(d, job.user);
    if job.Earn? { RuleIsNotGrant(job.refType); }
    assert MALL[0] == 'm' && GRANT[0] == 'i';
    MoveKeepsBooks(d, job.user, job.MainRow(d.wallets[job.user]));
  }

  /** Every committed transaction keeps the books balanced. */
  lemma TxKeepsBooks(g: GrantIds, db: Db, job: Job, code: nat)
    requires job.Accepted() && Books(db)
    requires ExecTx(g, db, job, code).Committed?
    ensures Books(ExecTx(g, db, job, code).db)
  {
    hide Books, HasTxn, HasOrder, OpenWallet;
    OpenKeepsBooks(g, db, job.user);
    if !job.Open? {
      var d := OpenWallet(g, db, job.user);
      OpenHasWallet(g, db, job.user);
      PayKeepsBooks(d, job);
      var w, after := d.wallets[job.user], ExecTx(g, db, job, code).db;
      var moved := d.(wallets := d.wallets[job.user := Wallet(w.balance + job.Amount(), w.version + 1)],
                      ledger := d.ledger + [job.MainRow(w)]);
      if job.Redeem? { BooksIgnoreMall(moved, after.codes, after.orders); }
    }
  }

  lemma OpenHasWallet(g: GrantIds, db: Db, user: nat)
    ensures user in OpenWallet(g, db, user).wallets
  {
  }
}
