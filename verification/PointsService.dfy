/**
  The points service and mall, statement by statement, with no other request running.
  Each operation is proved to do exactly one transaction of PointsLedger, or nothing.
 */
module PointsService {
  import opened Common
  import opened PointsLedger

  function OutcomeOf(e: Option<Error>, db: Db): Outcome {
    match e
    case None => Committed(db)
    case Some(error) => Refused(error)
  }

  /** What is paid, and how often a day. */
  lemma RulesWrittenOut(refType: string)
    ensures RuleOf(refType) == if refType == "article" then Some(Rule(10, 50))
                               else if refType == "comment" then Some(Rule(5, 30))
                               else if refType == "article_liked" then Some(Rule(1, 20))
                               else if refType == "comment_liked" then Some(Rule(1, 10))
                               else if refType == "checkin" then Some(Rule(2, 2))
                               else None
  {
  }

  /** An earn in full, on tables where it may or may not commit. */
  lemma EarnWrittenOut(g: GrantIds, db: Db, job: Job)
    requires job.Earn?
    ensures RuleOf(job.refType).Some? ==>
              var u, amount, r := job.user, RuleOf(job.refType).value.amount, ExecTx(g, db, job, 0);
              var held := if u in db.wallets then db.wallets[u] else Wallet(100, 0);
              var granted := u in db.wallets || HasTxn(db.ledger, g(u));
              if HasTxn(db.ledger, job.txnId) || (u !in db.wallets && g(u) == job.txnId) then r == Skipped
              else r == Committed(db.(
                wallets := db.wallets[u := Wallet(held.balance + amount, held.version + 1)],
                ledger := db.ledger + (if granted then [] else [Row(g(u), u, 100, "initial_grant", u, 100)])
                          + [Row(job.txnId, u, amount, job.refType, job.refId, held.balance + amount)]))
  {
    hide HasTxn;
    HasTxnAppend(db.ledger, GrantRow(g, job.user), job.txnId);
    assert db.ledger + [] == db.ledger;
  }

  /** A redemption of a free code in full. */
  lemma RedeemWrittenOut(g: GrantIds, db: Db, job: Job, code: nat)
    requires job.Redeem? && code in db.codes && db.codes[code] == Code(job.productId, None)
    ensures var u, r := job.user, ExecTx(g, db, job, code);
            var held := if u in db.wallets then db.wallets[u] else Wallet(100, 0);
            var granted := u in db.wallets || HasTxn(db.ledger, g(u));
            if held.balance < job.price then r == Refused(InsufficientBalance)
            else if HasTxn(db.ledger, job.txnId) || HasOrder(db.orders, job.orderId) || (u !in db.wallets && g(u) == job.txnId)
            then r == Skipped
            else r == Committed(Db(
              db.wallets[u := Wallet(held.balance - job.price, held.version + 1)],
              db.ledger + (if granted then [] else [Row(g(u), u, 100, "initial_grant", u, 100)])
                + [Row(job.txnId, u, -job.price, "mall_redeem", job.orderId, held.balance - job.price)],
              db.codes[code := Code(job.productId, Some(Sale(job.orderId, u)))],
              db.orders + [Order(job.orderId, u, job.productId, job.price, code)]))
  {
    hide HasTxn, HasOrder;
    HasTxnAppend(db.ledger, GrantRow(g, job.user), job.txnId);
    assert db.ledger + [] == db.ledger;
  }

  class PointsStore {
    const grantId: GrantIds
    var wallets: map<nat, Wallet>
    var ledger: seq<Row>
    var codes: map<nat, Code>
    var orders: seq<Order>
    var daily: map<Key, int>
    var stock: map<nat, int>

    constructor (grantId: GrantIds, codes: map<nat, Code>)
      ensures this.grantId == grantId
      ensures Contents() == Db(map[], [], codes, []) && daily == map[] && stock == map[]
    {
      this.grantId := grantId;
      wallets, ledger, orders := map[], [], [];
      this.codes := codes;
      daily, stock := map[], map[];
    }

    function Contents(): Db
      reads this
    {
      Db(wallets, ledger, codes, orders)
    }

    method CreateWalletInTx(user: nat) returns (w: Wallet)
      modifies this`wallets, this`ledger
      ensures Contents() == OpenWallet(grantId, old(Contents()), user)
      ensures user in wallets && w == wallets[user]
      ensures user in old(wallets) ==> wallets == old(wallets) && ledger == old(ledger)
      ensures user !in old(wallets) ==>
                && wallets == old(wallets)[user := Wallet(100, 0)]
                && ledger == old(ledger) + if HasTxn(old(ledger), grantId(user)) then []
                                           else [Row(grantId(user), user, 100, "initial_grant", user, 100)]
    {
      if user in wallets {
        return wallets[user];
      }
      w := Wallet(INITIAL_BALANCE, 0);
      wallets := wallets[user := w];
      var granted := TryInsertTransaction(GrantRow(grantId, user));
    }

    method TryInsertTransaction(r: Row) returns (inserted: bool)
      modifies this`ledger
      ensures inserted <==> !HasTxn(old(ledger), r.txnId)
      ensures ledger == if inserted then old(ledger) + [r] else old(ledger)
    {
      inserted := !HasTxn(ledger, r.txnId);
      if inserted {
        ledger := ledger + [r];
      }
    }

    /** The guarded UPDATE, and how a caller learns why it matched no row. */
    method UpdateBalance(user: nat, amount: int, version: int) returns (e: Option<Error>)
      modifies this`wallets
      ensures var w := old(wallets);
              if user in w && w[user].version == version && (amount < 0 ==> w[user].balance + amount >= 0)
              then e == None && wallets == w[user := Wallet(w[user].balance + amount, version + 1)]
              else wallets == w
                   && e == Some(if user in w && w[user].version == version then InsufficientBalance else ConcurrentModify)
    {
      var matched := user in wallets && wallets[user].version == version && (amount < 0 ==> wallets[user].balance >= -amount);
      if matched {
        wallets := wallets[user := Wallet(wallets[user].balance + amount, version + 1)];
        return None;
      }
      if user in wallets {
        if wallets[user].version != version {
          return Some(ConcurrentModify);
        }
        if wallets[user].balance < -amount {
          return Some(InsufficientBalance);
        }
      }
      return Some(ConcurrentModify);
    }

    method CheckAndIncrDailyLimit(user: nat, refType: string, limit: int) returns (ok: bool)
      modifies this`daily
      ensures ok <==> CountOf(old(daily), (user, refType)) < limit
      ensures forall k :: CountOf(daily, k) == CountOf(old(daily), k) + if ok && k == (user, refType) then 1 else 0
    {
      var k := (user, refType);
      var cur := CountOf(daily, k) + 1;
      daily := daily[k := cur];
      if cur > limit {
        daily := daily[k := cur - 1];
        return false;
      }
      return true;
    }

    method RollbackDailyLimit(user: nat, refType: string)
      modifies this`daily
      ensures forall k :: CountOf(daily, k) == CountOf(old(daily), k) - if k == (user, refType) then 1 else 0
    {
      daily := daily[(user, refType) := CountOf(daily, (user, refType)) - 1];
    }

    /** The body of the earn transaction; the caller rolls back unless it reports Committed. */
    method EarnInTx(user: nat, refType: string, refId: nat, txnId: nat) returns (r: Outcome)
      requires RuleOf(refType).Some?
      modifies this`wallets, this`ledger
      ensures r == ExecTx(grantId, old(Contents()), Earn(user, refType, refId, txnId), 0)
      ensures r.Committed? ==> r.db == Contents()
    {
      var amount := RuleOf(refType).value.amount;
      var wallet: Wallet;
      if user in wallets {
        wallet := wallets[user];
      } else {
        wallet := CreateWalletInTx(user);
      }
      var row := Row(txnId, user, amount, refType, refId, wallet.balance + amount);
      var inserted := TryInsertTransaction(row);
      if !inserted {
        return Skipped;
      }
      var e := UpdateBalance(user, amount, wallet.version);
      return OutcomeOf(e, Contents());
    }

    /**
      Earning: an unknown kind, a known id, a full day and a failed transaction all leave the
      tables and the counters as they were; otherwise one transaction commits and one slot is used.
     */
    method EarnPoints(user: nat, refType: string, refId: nat, txnIdOrZero: nat, generated: nat) returns (e: Option<Error>)
      modifies this`wallets, this`ledger, this`daily
      ensures var id := if txnIdOrZero == 0 then generated else txnIdOrZero;
              var k := (user, refType);
              var run := RuleOf(refType).Some? && !HasTxn(old(ledger), id) && CountOf(old(daily), k) < RuleOf(refType).value.dailyLimit;
              var r := if run then ExecTx(grantId, old(Contents()), Earn(user, refType, refId, id), 0) else Skipped;
              && Contents() == (if r.Committed? then r.db else old(Contents()))
              && (forall k' :: CountOf(daily, k') == CountOf(old(daily), k') + if r.Committed? && k' == k then 1 else 0)
              && e == (if r.Refused? then Some(r.error)
                       else if RuleOf(refType).Some? && !HasTxn(old(ledger), id) && !run then Some(DailyLimitExceeded)
                       else None)
      ensures var id := if txnIdOrZero == 0 then generated else txnIdOrZero;
              var limit := if refType == "article" then 50 else if refType == "comment" then 30
                           else if refType == "article_liked" then 20 else if refType == "comment_liked" then 10
                           else if refType == "checkin" then 2 else 0;
              var amount := if refType == "article" then 10 else if refType == "comment" then 5
                            else if refType == "checkin" then 2 else 1;
              var held := if user in old(wallets) then old(wallets)[user] else Wallet(100, 0);
              var granted := user in old(wallets) || HasTxn(old(ledger), grantId(user));
              if && CountOf(old(daily), (user, refType)) < limit && limit > 0
                 && !HasTxn(old(ledger), id) && (user in old(wallets) || grantId(user) != id)
              then
                && e == None
                && wallets == old(wallets)[user := Wallet(held.balance + amount, held.version + 1)]
                && ledger == old(ledger)
                             + (if granted then [] else [Row(grantId(user), user, 100, "initial_grant", user, 100)])
                             + [Row(id, user, amount, refType, refId, held.balance + amount)]
              else
                wallets == old(wallets) && ledger == old(ledger)
    {
      RulesWrittenOut(refType);
      ghost var before := Contents();
      var rule := RuleOf(refType);
      if rule.None? {
        return None;
      }
      var txnId := if txnIdOrZero == 0 then generated else txnIdOrZero;
      if HasTxn(ledger, txnId) {
        return None;
      }
      var ok := CheckAndIncrDailyLimit(user, refType, rule.value.dailyLimit);
      if !ok {
        return Some(DailyLimitExceeded);
      }
      var wallets0, ledger0 := wallets, ledger;
      var r := EarnInTx(user, refType, refId, txnId);
      if !r.Committed? {
        wallets, ledger := wallets0, ledger0;
        RollbackDailyLimit(user, refType);
        e := if r.Refused? then Some(r.error) else None;
        EarnWrittenOut(grantId, before, Earn(user, refType, refId, txnId));
        return;
      }
      EarnWrittenOut(grantId, before, Earn(user, refType, refId, txnId));
      return None;
    }

    /** The redeem transaction after a code row has been claimed. */
    method RedeemCode(user: nat, productId: nat, price: int, orderId: nat, txnId: nat, code: nat) returns (r: Outcome)
      requires Available(codes, productId, code)
      modifies this`wallets, this`ledger, this`codes, this`orders
      ensures r == ExecTx(grantId, old(Contents()), Redeem(user, productId, price, orderId, txnId), code)
      ensures r.Committed? ==> r.db == Contents()
    {
      var wallet: Wallet;
      if user in wallets {
        wallet := wallets[user];
      } else {
        wallet := CreateWalletInTx(user);
      }
      if wallet.balance < price {
        return Refused(InsufficientBalance);
      }
      codes := codes[code := Code(productId, Some(Sale(orderId, user)))];
      var row := Row(txnId, user, -price, MALL, orderId, wallet.balance - price);
      var inserted := TryInsertTransaction(row);
      if !inserted {
        return Skipped;
      }
      var e := UpdateBalance(user, -price, wallet.version);
      r := OutcomeOf(e, Contents());
      if r.Committed? {
        if HasOrder(orders, orderId) {
          return Skipped;
        }
        orders := orders + [Order(orderId, user, productId, price, code)];
        r := Committed(Contents());
      }
    }

    method RedeemInTx(user: nat, productId: nat, price: int, orderId: nat, txnId: nat) returns (r: Outcome, code: nat)
      modifies this`wallets, this`ledger, this`codes, this`orders
      ensures r == ExecTx(grantId, old(Contents()), Redeem(user, productId, price, orderId, txnId), code)
      ensures r == Refused(OutOfStock) <==> FreeCodes(old(Contents()), productId) == {}
      ensures Contents() == if r.Committed? then r.db else old(Contents())
      ensures var held := if user in old(wallets) then old(wallets)[user] else Wallet(100, 0);
              var granted := user in old(wallets) || HasTxn(old(ledger), grantId(user));
              var free := exists c :: c in old(codes) && old(codes)[c].productId == productId && old(codes)[c].sale.None?;
              if !free then r == Refused(OutOfStock)
              else if held.balance < price then r == Refused(InsufficientBalance)
              else if HasTxn(old(ledger), txnId) || HasOrder(old(orders), orderId)
                      || (user !in old(wallets) && grantId(user) == txnId) then r == Skipped
              else
                && r.Committed?
                && code in old(codes) && old(codes)[code] == Code(productId, None)
                && wallets == old(wallets)[user := Wallet(held.balance - price, held.version + 1)]
                && ledger == old(ledger)
                             + (if granted then [] else [Row(grantId(user), user, 100, "initial_grant", user, 100)])
                             + [Row(txnId, user, -price, "mall_redeem", orderId, held.balance - price)]
                && codes == old(codes)[code := Code(productId, Some(Sale(orderId, user)))]
                && orders == old(orders) + [Order(orderId, user, productId, price, code)]
    {
      var free := FreeCodes(Contents(), productId);
      assert forall c :: c in codes && codes[c].productId == productId && codes[c].sale.None? ==> c in free;
      if free == {} {
        code := 0;
        assert code !in free;
        return Refused(OutOfStock), code;
      }
      code :| code in free;
      RedeemWrittenOut(grantId, Contents(), Redeem(user, productId, price, orderId, txnId), code);
      var before := Contents();
      r := RedeemCode(user, productId, price, orderId, txnId, code);
      if !r.Committed? {
        wallets, ledger, codes, orders := before.wallets, before.ledger, before.codes, before.orders;
      }
    }

    /**
      Redeeming: the stock counter is only a hint, the transaction decides; a failed
      transaction gives the stock unit back, a committed one resets it to the free codes.
      So does a skipped one whose order exists already: it is answered with that order.
     */
    method RedeemOnce(user: nat, productId: nat, price: int, orderId: nat, txnId: nat) returns (r: Outcome, code: nat)
      modifies this`wallets, this`ledger, this`codes, this`orders, this`stock
      ensures !(productId in old(stock) && old(stock)[productId] > 0) ==>
                r == Refused(OutOfStock) && Contents() == old(Contents()) && stock == old(stock)
      ensures productId in old(stock) && old(stock)[productId] > 0 ==>
                && r == ExecTx(grantId, old(Contents()), Redeem(user, productId, price, orderId, txnId), code)
                && Contents() == (if r.Committed? then r.db else old(Contents()))
                && stock == old(stock)[productId :=
                     if r.Committed? then |FreeCodes(old(Contents()), productId)| - 1
                     else if r.Skipped? && HasOrder(old(orders), orderId) then |FreeCodes(old(Contents()), productId)|
                     else old(stock)[productId]]
    {
      code := 0;
      if productId !in stock || stock[productId] <= 0 {
        return Refused(OutOfStock), code;
      }
      stock := stock[productId := stock[productId] - 1];
      r, code := RedeemInTx(user, productId, price, orderId, txnId);
      if r.Refused? || (r.Skipped? && !HasOrder(orders, orderId)) {
        stock := stock[productId := stock[productId] + 1];
      } else {
        assert r.Committed? ==> FreeCodes(Contents(), productId) == FreeCodes(old(Contents()), productId) - {code};
        stock := stock[productId := |FreeCodes(Contents(), productId)|];
      }
    }
  }
}
