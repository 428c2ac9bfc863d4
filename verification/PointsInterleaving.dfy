/**
  Concurrent earns, redemptions and wallet creations.

  Each request is a session that runs its transaction one statement at a time, interleaved
  arbitrarily with every other session.  A plain SELECT may return any wallet row that was
  ever committed (nothing is assumed of FOR UPDATE on the wallet); a write locks the row it
  touches until the transaction ends, sees the latest committed row, and waits while another
  session holds the lock.  Any statement may fail, which rolls the transaction back.

  The result: the committed tables are exactly what the committed transactions produce when
  run one at a time in commit order.
 */
module PointsInterleaving {
  import opened Common
  import opened PointsLedger
  import opened PointsBooks

  /** What a transaction has written but not committed. */
  datatype Pending = Pending(wallet: Option<Wallet>, rows: seq<Row>, sold: bool, order: Option<Order>)

  const NOTHING := Pending(None, [], false, None)
  const NEW_WALLET := Wallet(INITIAL_BALANCE, 0)

  datatype Pc =
    | CheckingTxn | TakingSlot                       // earn, before its transaction
    | ClaimingCode                                   // redeem: SELECT ... FOR UPDATE SKIP LOCKED
    | Reading                                        // first wallet SELECT
    | OpeningRead | InsertingWallet | InsertingGrant // CreateWalletInTx
    | ReadingAfterDup                                // ... when the wallet insert hit a duplicate key
    | ReadingAgain                                   // redeem: wallet SELECT after creation
    | Selling | InsertingRow | Updating | InsertingOrder | Committing
    | ReturningSlot | Finished

  datatype Session = Session(job: Job, pc: Pc, created: bool, seen: Wallet, claimed: bool, code: nat,
                             pend: Pending, slot: bool)
  {
    predicate InTx() {
      !(pc.CheckingTxn? || pc.TakingSlot? || pc.ReturningSlot? || pc.Finished?)
    }

    /** Rolling back drops every write; an earn still has to give its daily slot back. */
    function RolledBack(): Session {
      this.(pc := if slot then ReturningSlot else Finished, created := false, claimed := false, pend := NOTHING)
    }

    /** CreateWalletInTx has returned w. */
    function Opened(w: Wallet): Session {
      this.(seen := w, pc := if job.Open? then Committing else if job.Earn? then InsertingRow else ReadingAgain)
    }

    function Done(): Session {
      this.(pc := Finished, created := false, claimed := false, pend := NOTHING, slot := false)
    }
  }

  datatype Sys = Sys(
    db: Db,                             // committed tables
    past: seq<map<nat, Wallet>>,        // every committed state of the wallet table
    sessions: map<nat, Session>,
    log: seq<Entry>,                    // committed transactions in commit order
    counters: map<Key, int>,            // today's Redis counters
    lost: map<Key, int>,                // slots that Redis counts and nobody holds
    dayStart: nat)                      // ledger length when today's counters started

  datatype Action =
    | Spawn(sid: nat, job: Job)
    | Advance(sid: nat, choice: nat)
    | Fail(sid: nat)
    | LoseSlot(sid: nat)
    | NewDay

  function Start(db: Db): Sys {
    Sys(db, [db.wallets], map[], [], map[], map[], |db.ledger|)
  }

  function Put(s: Sys, sid: nat, x: Session): Sys {
    s.(sessions := s.sessions[sid := x])
  }

  function Stale(past: seq<map<nat, Wallet>>, u: nat, choice: nat): Option<Wallet>
    requires past != []
  {
    var m := past[if choice < |past| then choice else |past| - 1];
    if u in m then Some(m[u]) else None
  }

  predicate WalletBusy(s: Sys, sid: nat, u: nat) {
    exists t :: t in s.sessions && t != sid && s.sessions[t].pend.wallet.Some? && s.sessions[t].job.user == u
  }

  predicate TxnBusy(s: Sys, sid: nat, id: nat) {
    exists t :: t in s.sessions && t != sid && HasTxn(s.sessions[t].pend.rows, id)
  }

  predicate CodeBusy(s: Sys, sid: nat, c: nat) {
    exists t :: t in s.sessions && t != sid && s.sessions[t].claimed && s.sessions[t].code == c
  }

  predicate OrderBusy(s: Sys, sid: nat, id: nat) {
    exists t :: t in s.sessions && t != sid && s.sessions[t].pend.order.Some? && s.sessions[t].pend.order.value.orderId == id
  }

  function CurrentWallet(db: Db, x: Session): Option<Wallet> {
    if x.pend.wallet.Some? then x.pend.wallet
    else if x.job.user in db.wallets then Some(db.wallets[x.job.user]) else None
  }

  /** COMMIT makes the pending writes visible. */
  function Apply(db: Db, x: Session): Db {
    Db(if x.pend.wallet.Some? then db.wallets[x.job.user := x.pend.wallet.value] else db.wallets,
       db.ledger + x.pend.rows,
       if x.pend.sold && x.job.Redeem?
       then db.codes[x.code := Code(x.job.productId, Some(Sale(x.job.orderId, x.job.user)))] else db.codes,
       if x.pend.order.Some? then db.orders + [x.pend.order.value] else db.orders)
  }

  function Commit(s: Sys, sid: nat, x: Session): Sys {
    var db := Apply(s.db, x);
    s.(db := db, past := s.past + [db.wallets], log := s.log + [Entry(x.job, x.code)],
       sessions := s.sessions[sid := x.Done()])
  }

  /** Before its transaction an earn checks the ledger, then takes a slot of today's limit. */
  function BeforeTx(s: Sys, sid: nat, x: Session): Sys
    requires x.job.Earn? && x.job.Accepted()
  {
    if x.pc.CheckingTxn? then
      Put(s, sid, x.(pc := if HasTxn(s.db.ledger, x.job.txnId) then Finished else TakingSlot))
    else
      var k := (x.job.user, x.job.refType);
      var c := CountOf(s.counters, k) + 1;
      if c > RuleOf(x.job.refType).value.dailyLimit then Put(s, sid, x.(pc := Finished))
      else Put(s, sid, x.(pc := Reading, slot := true)).(counters := s.counters[k := c])
  }

  function ReturnSlot(s: Sys, sid: nat, x: Session): Sys
    requires x.job.Earn?
  {
    var k := (x.job.user, x.job.refType);
    Put(s, sid, x.(pc := Finished, slot := false)).(counters := s.counters[k := CountOf(s.counters, k) - 1])
  }

  /**
    Redis fails: a slot that was to be given back stays taken, and one that was taken is held by
    no session when only the reply is lost.
   */
  function LoseReply(s: Sys, sid: nat, x: Session): Sys
    requires x.job.Earn? && x.job.Accepted()
  {
    var k := (x.job.user, x.job.refType);
    var gone := Put(s, sid, x.(pc := Finished, slot := false)).(lost := s.lost[k := CountOf(s.lost, k) + 1]);
    if x.pc.ReturningSlot? then gone
    else if !x.pc.TakingSlot? then s
    else
      var c := CountOf(s.counters, k) + 1;
      if c > RuleOf(x.job.refType).value.dailyLimit then Put(s, sid, x.(pc := Finished))
      else gone.(counters := s.counters[k := c])
  }

  /** The statements that find or create the wallet. */
  function FindWallet(g: GrantIds, s: Sys, sid: nat, x: Session, choice: nat): (y: Session)
    requires s.past != []
    ensures y.job == x.job && y.slot == x.slot
  {
    var u := x.job.user;
    match x.pc
    case ClaimingCode =>
      if x.job.Redeem? && Available(s.db.codes, x.job.productId, choice) && !CodeBusy(s, sid, choice)
      then x.(claimed := true, code := choice, pc := Reading) else x
    case Reading =>
      (match Stale(s.past, u, choice)
       case Some(w) => x.(seen := w, pc := if x.job.Redeem? then Selling else InsertingRow)
       case None => x.(pc := OpeningRead))
    case OpeningRead =>
      (match Stale(s.past, u, choice)
       case Some(w) => x.Opened(w)
       case None => x.(pc := InsertingWallet))
    case InsertingWallet =>
      if WalletBusy(s, sid, u) then x
      else if u in s.db.wallets then x.(pc := ReadingAfterDup)
      else x.(created := true, pend := x.pend.(wallet := Some(NEW_WALLET)), pc := InsertingGrant)
    case ReadingAfterDup =>
      (match Stale(s.past, u, choice)
       case Some(w) => x.Opened(w)
       case None => x.RolledBack())
    case InsertingGrant =>
      if TxnBusy(s, sid, g(u)) then x
      else if HasTxn(s.db.ledger, g(u)) then x.Opened(NEW_WALLET)
      else x.(pend := x.pend.(rows := x.pend.rows + [GrantRow(g, u)])).Opened(NEW_WALLET)
    case ReadingAgain =>
      (match if x.pend.wallet.Some? then x.pend.wallet else Stale(s.past, u, choice)
       case Some(w) => x.(seen := w, pc := Selling)
       case None => x.RolledBack())
    case _ => x
  }

  /** The statements that move the points once the wallet is known. */
  function MovePoints(s: Sys, sid: nat, x: Session): (y: Session)
    requires x.job.Accepted() && !x.job.Open?
    ensures y.job == x.job && y.slot == x.slot
  {
    var u := x.job.user;
    match x.pc
    case Selling =>
      if x.job.Redeem? && x.seen.balance >= x.job.price
      then x.(pend := x.pend.(sold := Available(s.db.codes, x.job.productId, x.code)), pc := InsertingRow)
      else x.RolledBack()
    case InsertingRow =>
      if TxnBusy(s, sid, x.job.txnId) then x
      else if HasTxn(s.db.ledger, x.job.txnId) || HasTxn(x.pend.rows, x.job.txnId) then x.RolledBack()
      else x.(pend := x.pend.(rows := x.pend.rows + [x.job.MainRow(x.seen)]), pc := Updating)
    case Updating =>
      if WalletBusy(s, sid, u) then x else
      var cur := CurrentWallet(s.db, x);
      if cur.Some? && cur.value.version == x.seen.version
         && (x.job.Amount() < 0 ==> cur.value.balance >= -x.job.Amount())
      then x.(pend := x.pend.(wallet := Some(Wallet(cur.value.balance + x.job.Amount(), x.seen.version + 1))),
              pc := if x.job.Redeem? then InsertingOrder else Committing)
      else x.RolledBack()
    case InsertingOrder =>
      if !x.job.Redeem? || OrderBusy(s, sid, x.job.orderId) then x
      else if HasOrder(s.db.orders, x.job.orderId) then x.RolledBack()
      else x.(pend := x.pend.(order := Some(Order(x.job.orderId, u, x.job.productId, x.job.price, x.code))),
              pc := Committing)
    case _ => x
  }

  predicate Finding(pc: Pc) {
    pc.ClaimingCode? || pc.Reading? || pc.OpeningRead? || pc.InsertingWallet? || pc.InsertingGrant? ||
    pc.ReadingAfterDup? || pc.ReadingAgain?
  }

  predicate Moving(pc: Pc) {
    pc.Selling? || pc.InsertingRow? || pc.Updating? || pc.InsertingOrder?
  }

  function Step(g: GrantIds, s: Sys, a: Action): Sys
    requires s.past != []
    requires forall t :: t in s.sessions ==> s.sessions[t].job.Accepted()
    ensures Step(g, s, a).past != []
    ensures forall t :: t in Step(g, s, a).sessions ==> Step(g, s, a).sessions[t].job.Accepted()
  {
    match a
    case Spawn(sid, job) =>
      if sid in s.sessions || !job.Accepted() then s
      else Put(s, sid, Session(job, if job.Earn? then CheckingTxn else if job.Redeem? then ClaimingCode else OpeningRead,
                               false, NEW_WALLET, false, 0, NOTHING, false))
    case Advance(sid, choice) =>
      if sid !in s.sessions then s else
      var x := s.sessions[sid];
      if (x.pc.CheckingTxn? || x.pc.TakingSlot?) && x.job.Earn? then BeforeTx(s, sid, x)
      else if Finding(x.pc) then Put(s, sid, FindWallet(g, s, sid, x, choice))
      else if Moving(x.pc) && !x.job.Open? then Put(s, sid, MovePoints(s, sid, x))
      else if x.pc.Committing? then Commit(s, sid, x)
      else if x.pc.ReturningSlot? && x.job.Earn? then ReturnSlot(s, sid, x)
      else s
    case Fail(sid) =>
      if sid in s.sessions && !s.sessions[sid].pc.Finished? && !s.sessions[sid].pc.ReturningSlot?
      then Put(s, sid, s.sessions[sid].RolledBack()) else s
    case LoseSlot(sid) =>
      if sid in s.sessions && s.sessions[sid].job.Earn? then LoseReply(s, sid, s.sessions[sid]) else s
    case NewDay =>
      if forall t :: t in s.sessions ==> !s.sessions[t].slot
      then s.(counters := map[], lost := map[], dayStart := |s.db.ledger|) else s
  }

  ghost predicate Next(g: GrantIds, s: Sys, a: Action, s': Sys) {
    && s.past != []
    && (forall t :: t in s.sessions ==> s.sessions[t].job.Accepted())
    && s' == Step(g, s, a)
  }

  /** A run: the states an arbitrary sequence of actions passes through, from a given database. */
  ghost predicate IsRun(g: GrantIds, db0: Db, actions: seq<Action>, states: seq<Sys>) {
    && |states| == |actions| + 1
    && states[0] == Start(db0)
    && forall i {:trigger actions[i]} :: 0 <= i < |actions| ==> Next(g, states[i], actions[i], states[i + 1])
  }

  // ---------- the invariant ----------

  /** A wallet row that was committed at some time: an equal version means an equal row. */
  predicate OnceWas(w: Wallet, db: Db, u: nat) {
    && u in db.wallets
    && w.version <= db.wallets[u].version
    && (w.version == db.wallets[u].version ==> w == db.wallets[u])
  }

  predicate Later(m: map<nat, Wallet>, m': map<nat, Wallet>) {
    forall u :: u in m ==> u in m' && m[u].version <= m'[u].version && (m[u].version == m'[u].version ==> m[u] == m'[u])
  }

  predicate PastOk(s: Sys) {
    && s.past != []
    && s.past[|s.past| - 1] == s.db.wallets
    && forall i, j :: 0 <= i < j < |s.past| ==> Later(s.past[i], s.past[j])
  }

  predicate HasSeen(x: Session) {
    x.pc.ReadingAgain? || Moving(x.pc) || x.pc.Committing?
  }

  predicate Posted(x: Session) {
    !x.job.Open? && (x.pc.Updating? || x.pc.InsertingOrder? || x.pc.Committing?)
  }

  predicate Moved(x: Session) {
    !x.job.Open? && (x.pc.InsertingOrder? || x.pc.Committing?)
  }

  predicate Sold(x: Session) {
    x.job.Redeem? && (x.pc.InsertingRow? || x.pc.Updating? || x.pc.InsertingOrder? || x.pc.Committing?)
  }

  function GrantPart(g: GrantIds, db: Db, x: Session): seq<Row> {
    if x.created && !x.pc.InsertingGrant? && !HasTxn(db.ledger, g(x.job.user)) then [GrantRow(g, x.job.user)] else []
  }

  /** The writes a session must have pending at its point in the transaction. */
  function Expected(g: GrantIds, db: Db, x: Session): Pending
    requires x.job.Accepted()
  {
    Pending(
      if Moved(x) then Some(Wallet(x.seen.balance + x.job.Amount(), x.seen.version + 1))
      else if x.created then Some(NEW_WALLET) else None,
      GrantPart(g, db, x) + (if Posted(x) then [x.job.MainRow(x.seen)] else []),
      Sold(x),
      if x.job.Redeem? && x.pc.Committing?
      then Some(Order(x.job.orderId, x.job.user, x.job.productId, x.job.price, x.code)) else None)
  }

  predicate PcFits(x: Session) {
    && (!x.InTx() ==> !x.created && !x.claimed)
    && (x.pc.CheckingTxn? || x.pc.TakingSlot? || x.pc.ReturningSlot? ==> x.job.Earn?)
    && (x.pc.ClaimingCode? ==> x.job.Redeem? && !x.claimed)
    && (x.pc.ReadingAgain? || x.pc.Selling? || x.pc.InsertingOrder? ==> x.job.Redeem?)
    && (x.pc.Reading? || Moving(x.pc) ==> !x.job.Open?)
    && (x.created ==> HasSeen(x) || x.pc.InsertingGrant?)
    && (x.pc.InsertingGrant? ==> x.created)
    && (x.claimed ==> x.job.Redeem?)
    && (x.job.Redeem? && x.InTx() && !x.pc.ClaimingCode? ==> x.claimed)
    && (x.slot ==> x.job.Earn?)
    && (x.job.Earn? && (x.InTx() || x.pc.ReturningSlot?) ==> x.slot)
    && (x.pc.CheckingTxn? || x.pc.TakingSlot? || x.pc.Finished? ==> !x.slot)
  }

  predicate SessionOk(g: GrantIds, db: Db, x: Session) {
    && x.job.Accepted()
    && PcFits(x)
    && x.pend == Expected(g, db, x)
    && (x.created ==> x.job.user !in db.wallets)
    && (HasSeen(x) ==> if x.created then x.seen == NEW_WALLET else OnceWas(x.seen, db, x.job.user))
    && (Posted(x) ==> !HasTxn(db.ledger + GrantPart(g, db, x), x.job.txnId))
    && (Moved(x) && !x.created ==> x.seen == db.wallets[x.job.user])
    && (Moved(x) && x.job.Amount() < 0 ==> x.seen.balance >= -x.job.Amount())
    && (Sold(x) ==> x.seen.balance >= x.job.price)
    && (x.claimed ==> Available(db.codes, x.job.productId, x.code))
    && (x.job.Redeem? && x.pc.Committing? ==> !HasOrder(db.orders, x.job.orderId))
  }

  /** Two sessions never hold a lock on the same row. */
  ghost predicate Apart(x: Session, y: Session) {
    && !(x.pend.wallet.Some? && y.pend.wallet.Some? && x.job.user == y.job.user)
    && (forall id :: HasTxn(x.pend.rows, id) ==> !HasTxn(y.pend.rows, id))
    && !(x.claimed && y.claimed && x.code == y.code)
    && !(x.pend.order.Some? && y.pend.order.Some? && x.pend.order.value.orderId == y.pend.order.value.orderId)
  }

  ghost predicate Inv(g: GrantIds, db0: Db, s: Sys) {
    && AllAccepted(s.log)
    && ExecAll(g, db0, s.log) == Some(s.db)
    && PastOk(s)
    && (forall t :: t in s.sessions ==> SessionOk(g, s.db, s.sessions[t]))
    && (forall t, t' :: t in s.sessions && t' in s.sessions && t != t' ==> Apart(s.sessions[t], s.sessions[t']))
  }

  lemma StaleWasCommitted(s: Sys, u: nat, choice: nat)
    requires PastOk(s)
    ensures Stale(s.past, u, choice).Some? ==> OnceWas(Stale(s.past, u, choice).value, s.db, u)
  {
    var i := if choice < |s.past| then choice else |s.past| - 1;
    if i < |s.past| - 1 {
      assert Later(s.past[i], s.past[|s.past| - 1]);
    }
  }

  ghost predicate ApartFromAll(s: Sys, sid: nat, x: Session) {
    forall t :: t in s.sessions && t != sid ==> Apart(x, s.sessions[t])
  }

  lemma LocalStep(g: GrantIds, db0: Db, s: Sys, sid: nat, x: Session)
    requires Inv(g, db0, s) && SessionOk(g, s.db, x) && ApartFromAll(s, sid, x)
    ensures Inv(g, db0, Put(s, sid, x))
  {
    hide SessionOk, ExecAll, Later;
    var s' := Put(s, sid, x);
    forall t, t' | t in s'.sessions && t' in s'.sessions && t != t' ensures Apart(s'.sessions[t], s'.sessions[t']) {
    }
  }

  lemma SessionFacts(g: GrantIds, db0: Db, s: Sys, sid: nat)
    requires Inv(g, db0, s) && sid in s.sessions
    ensures s.past != [] && SessionOk(g, s.db, s.sessions[sid]) && PcFits(s.sessions[sid]) && s.sessions[sid].job.Accepted()
  {
  }

  lemma RollbackOk(g: GrantIds, s: Sys, sid: nat, x: Session)
    requires SessionOk(g, s.db, x) && !x.pc.Finished? && !x.pc.ReturningSlot?
    ensures SessionOk(g, s.db, x.RolledBack()) && ApartFromAll(s, sid, x.RolledBack())
  {
    var y := x.RolledBack();
    assert y.pend.rows == [];
    assert Expected(g, s.db, y).rows == [];
  }

  lemma ReadKeeps(g: GrantIds, s: Sys, sid: nat, x: Session, choice: nat)
    requires SessionOk(g, s.db, x) && ApartFromAll(s, sid, x) && PastOk(s)
    requires x.pc.Reading? || x.pc.OpeningRead? || x.pc.ReadingAfterDup? || x.pc.ReadingAgain?
    ensures SessionOk(g, s.db, FindWallet(g, s, sid, x, choice))
    ensures ApartFromAll(s, sid, FindWallet(g, s, sid, x, choice))
  {
    hide Stale, Later, OnceWas, HasTxn, Available, HasOrder, WalletBusy, TxnBusy, CodeBusy;
    var y := FindWallet(g, s, sid, x, choice);
    StaleWasCommitted(s, x.job.user, choice);
    RollbackOk(g, s, sid, x);
    if y != x.RolledBack() {
      assert y.pend == x.pend;
      assert Expected(g, s.db, y).rows == Expected(g, s.db, x).rows;
    }
  }

  lemma ClaimKeeps(g: GrantIds, s: Sys, sid: nat, x: Session, choice: nat)
    requires SessionOk(g, s.db, x) && ApartFromAll(s, sid, x) && s.past != []
    requires x.pc.ClaimingCode? || x.pc.InsertingWallet?
    ensures SessionOk(g, s.db, FindWallet(g, s, sid, x, choice))
    ensures ApartFromAll(s, sid, FindWallet(g, s, sid, x, choice))
  {
    var y := FindWallet(g, s, sid, x, choice);
    assert y.pend.rows == x.pend.rows;
    assert Expected(g, s.db, y).rows == Expected(g, s.db, x).rows;
  }

  lemma FindKeepsInv(g: GrantIds, db0: Db, s: Sys, sid: nat, choice: nat)
    requires Inv(g, db0, s) && sid in s.sessions && Finding(s.sessions[sid].pc)
    ensures Inv(g, db0, Put(s, sid, FindWallet(g, s, sid, s.sessions[sid], choice)))
  {
    var x := s.sessions[sid];
    assert ApartFromAll(s, sid, x);
    if x.pc.InsertingGrant? {
      GrantKeeps(g, s, sid, x, FindWallet(g, s, sid, x, choice));
    } else if x.pc.ClaimingCode? || x.pc.InsertingWallet? {
      ClaimKeeps(g, s, sid, x, choice);
    } else {
      ReadKeeps(g, s, sid, x, choice);
    }
    LocalStep(g, db0, s, sid, FindWallet(g, s, sid, x, choice));
  }

  lemma GrantKeeps(g: GrantIds, s: Sys, sid: nat, x: Session, y: Session)
    requires SessionOk(g, s.db, x) && ApartFromAll(s, sid, x) && s.past != []
    requires x.pc.InsertingGrant? && y == FindWallet(g, s, sid, x, 0)
    ensures SessionOk(g, s.db, y) && ApartFromAll(s, sid, y)
  {
    assert x.pend.rows == [];
    if y != x && !HasTxn(s.db.ledger, g(x.job.user)) {
      assert y.pend.rows == [GrantRow(g, x.job.user)];
    }
  }

  lemma SellKeeps(g: GrantIds, s: Sys, sid: nat, x: Session)
    requires SessionOk(g, s.db, x) && ApartFromAll(s, sid, x) && x.pc.Selling?
    ensures SessionOk(g, s.db, MovePoints(s, sid, x)) && ApartFromAll(s, sid, MovePoints(s, sid, x))
  {
    RollbackOk(g, s, sid, x);
    var y := MovePoints(s, sid, x);
    if y != x.RolledBack() {
      assert y.pend.rows == x.pend.rows == Expected(g, s.db, y).rows;
    }
  }

  lemma InsertKeeps(g: GrantIds, s: Sys, sid: nat, x: Session)
    requires SessionOk(g, s.db, x) && ApartFromAll(s, sid, x) && x.pc.InsertingRow?
    ensures SessionOk(g, s.db, MovePoints(s, sid, x)) && ApartFromAll(s, sid, MovePoints(s, sid, x))
  {
    RollbackOk(g, s, sid, x);
    var y := MovePoints(s, sid, x);
    if y.pc.Updating? {
      var r := x.job.MainRow(x.seen);
      assert x.pend.rows == GrantPart(g, s.db, x) == GrantPart(g, s.db, y);
      assert y.pend.rows == GrantPart(g, s.db, y) + [r];
      forall t, id | t in s.sessions && t != sid && HasTxn(y.pend.rows, id) ensures !HasTxn(s.sessions[t].pend.rows, id) {
        HasTxnAppend(x.pend.rows, r, id);
        assert Apart(x, s.sessions[t]);
      }
      if HasTxn(s.db.ledger + GrantPart(g, s.db, y), x.job.txnId) {
        HasTxnSplit(s.db.ledger, GrantPart(g, s.db, y), x.job.txnId);
      }
    }
  }

  lemma HasTxnSplit(a: seq<Row>, b: seq<Row>, id: nat)
    ensures HasTxn(a + b, id) <==> HasTxn(a, id) || HasTxn(b, id)
  {
    if HasTxn(a, id) {
      var i :| 0 <= i < |a| && a[i].txnId == id;
      assert (a + b)[i].txnId == id;
    }
    if HasTxn(b, id) {
      var i :| 0 <= i < |b| && b[i].txnId == id;
      assert (a + b)[|a| + i].txnId == id;
    }
  }

  /** The version guard: an update that matches a row saw that very row. */
  lemma UpdateKeeps(g: GrantIds, s: Sys, sid: nat, x: Session)
    requires SessionOk(g, s.db, x) && ApartFromAll(s, sid, x) && x.pc.Updating?
    ensures SessionOk(g, s.db, MovePoints(s, sid, x)) && ApartFromAll(s, sid, MovePoints(s, sid, x))
  {
    RollbackOk(g, s, sid, x);
    var y := MovePoints(s, sid, x);
    if y != x.RolledBack() && y != x {
      assert y.pend.rows == x.pend.rows == Expected(g, s.db, y).rows;
      assert CurrentWallet(s.db, x) == Some(x.seen);
    }
  }

  lemma OrderKeeps(g: GrantIds, s: Sys, sid: nat, x: Session)
    requires SessionOk(g, s.db, x) && ApartFromAll(s, sid, x) && x.pc.InsertingOrder?
    ensures SessionOk(g, s.db, MovePoints(s, sid, x)) && ApartFromAll(s, sid, MovePoints(s, sid, x))
  {
    RollbackOk(g, s, sid, x);
    var y := MovePoints(s, sid, x);
    if y.pc.Committing? {
      assert y.pend.rows == x.pend.rows == Expected(g, s.db, y).rows;
    }
  }

  lemma MoveKeepsInv(g: GrantIds, db0: Db, s: Sys, sid: nat)
    requires Inv(g, db0, s) && sid in s.sessions && Moving(s.sessions[sid].pc)
    ensures !s.sessions[sid].job.Open?
    ensures Inv(g, db0, Put(s, sid, MovePoints(s, sid, s.sessions[sid])))
  {
    var x := s.sessions[sid];
    assert ApartFromAll(s, sid, x);
    match x.pc {
      case Selling => SellKeeps(g, s, sid, x);
      case InsertingRow => InsertKeeps(g, s, sid, x);
      case Updating => UpdateKeeps(g, s, sid, x);
      case InsertingOrder => OrderKeeps(g, s, sid, x);
    }
    LocalStep(g, db0, s, sid, MovePoints(s, sid, x));
  }

  // ---------- commit ----------

  /** What a session commits is what its whole transaction would do running alone right then. */
  lemma CommitIsSerial(g: GrantIds, db: Db, x: Session)
    requires SessionOk(g, db, x) && x.pc.Committing?
    ensures ExecTx(g, db, x.job, x.code) == Committed(Apply(db, x))
  {
    var d := OpenWallet(g, db, x.job.user);
    assert d.ledger == db.ledger + GrantPart(g, db, x);
    if !x.job.Open? {
      assert d.wallets[x.job.user] == x.seen;
      assert d.ledger + [x.job.MainRow(x.seen)] == db.ledger + x.pend.rows;
    } else {
      assert x.pend.rows == GrantPart(g, db, x);
    }
  }

  lemma CommitMovesForward(g: GrantIds, db: Db, x: Session)
    requires SessionOk(g, db, x) && x.pc.Committing?
    ensures Later(db.wallets, Apply(db, x).wallets)
  {
  }

  lemma CommitKeepsOther(g: GrantIds, db: Db, x: Session, y: Session)
    requires SessionOk(g, db, x) && x.pc.Committing?
    requires SessionOk(g, db, y) && Apart(x, y)
    ensures SessionOk(g, Apply(db, x), y)
  {
    var d := Apply(db, x);
    CommitMovesForward(g, db, x);
    GrantPartStays(g, db, x, y);
    if Posted(y) {
      var id, part := y.job.txnId, GrantPart(g, db, y);
      PostedIsPending(g, db, y);
      HasTxnSplit(db.ledger, x.pend.rows, id);
      HasTxnSplit(db.ledger, part, id);
      HasTxnSplit(d.ledger, part, id);
    }
    hide HasTxn, HasOrder, GrantPart;
  }

  lemma PostedIsPending(g: GrantIds, db: Db, y: Session)
    requires SessionOk(g, db, y) && Posted(y)
    ensures HasTxn(y.pend.rows, y.job.txnId)
  {
    assert y.pend.rows[|y.pend.rows| - 1].txnId == y.job.txnId;
  }

  lemma GrantPartStays(g: GrantIds, db: Db, x: Session, y: Session)
    requires SessionOk(g, db, x) && x.pc.Committing?
    requires SessionOk(g, db, y) && Apart(x, y)
    ensures GrantPart(g, Apply(db, x), y) == GrantPart(g, db, y)
  {
    var gu := g(y.job.user);
    HasTxnSplit(db.ledger, x.pend.rows, gu);
    if y.created && !y.pc.InsertingGrant? && !HasTxn(db.ledger, gu) {
      assert y.pend.rows[0] == GrantRow(g, y.job.user);
      assert HasTxn(y.pend.rows, gu);
    }
  }

  lemma CommitKeepsPast(g: GrantIds, s: Sys, sid: nat, x: Session)
    requires PastOk(s) && SessionOk(g, s.db, x) && x.pc.Committing?
    ensures PastOk(Commit(s, sid, x))
  {
    var s' := Commit(s, sid, x);
    var n := |s.past|;
    CommitMovesForward(g, s.db, x);
    forall i, j | 0 <= i < j < |s'.past| ensures Later(s'.past[i], s'.past[j]) {
      if j == n {
        assert Later(s.past[n - 1], s'.past[n]);
        assert i < n - 1 ==> Later(s.past[i], s.past[n - 1]);
      } else {
        assert Later(s.past[i], s.past[j]);
      }
    }
  }

  lemma CommitKeepsSessions(g: GrantIds, s: Sys, sid: nat, x: Session)
    requires SessionOk(g, s.db, x) && x.pc.Committing? && ApartFromAll(s, sid, x)
    requires forall t :: t in s.sessions ==> SessionOk(g, s.db, s.sessions[t])
    ensures forall t :: t in Commit(s, sid, x).sessions ==> SessionOk(g, Apply(s.db, x), Commit(s, sid, x).sessions[t])
    ensures ApartFromAll(Commit(s, sid, x), sid, x.Done())
  {
    IdleKeeps(g, Commit(s, sid, x), sid, x.Done());
    forall t | t in s.sessions && t != sid ensures SessionOk(g, Apply(s.db, x), s.sessions[t]) {
      CommitKeepsOther(g, s.db, x, s.sessions[t]);
    }
  }

  lemma CommitKeepsInv(g: GrantIds, db0: Db, s: Sys, sid: nat)
    requires Inv(g, db0, s) && sid in s.sessions && s.sessions[sid].pc.Committing?
    ensures Inv(g, db0, Commit(s, sid, s.sessions[sid]))
  {
    var x := s.sessions[sid];
    var s' := Commit(s, sid, x);
    CommitIsSerial(g, s.db, x);
    ExecAllAppend(g, db0, s.log, Entry(x.job, x.code));
    CommitKeepsPast(g, s, sid, x);
    CommitKeepsSessions(g, s, sid, x);
    forall t, t' | t in s'.sessions && t' in s'.sessions && t != t' ensures Apart(s'.sessions[t], s'.sessions[t']) {
    }
  }

  lemma IdleKeeps(g: GrantIds, s: Sys, sid: nat, x: Session)
    requires x.job.Accepted() && PcFits(x) && !x.InTx() && x.pend == NOTHING
    ensures SessionOk(g, s.db, x) && ApartFromAll(s, sid, x)
  {
    assert Expected(g, s.db, x).rows == [];
  }

  // ---------- every run ----------

  lemma OutsideKeepsInv(g: GrantIds, db0: Db, s: Sys, sid: nat, x: Session, s': Sys)
    requires Inv(g, db0, s) && x.job.Accepted() && PcFits(x) && x.pend == NOTHING && !HasSeen(x) && !x.created && !x.claimed
    requires s' == Put(s, sid, x).(counters := s'.counters, lost := s'.lost)
    ensures Inv(g, db0, s')
  {
    assert Expected(g, s.db, x).rows == [];
    assert SessionOk(g, s.db, x);
    assert ApartFromAll(s, sid, x);
    LocalStep(g, db0, s, sid, x);
    assert s'.sessions == Put(s, sid, x).sessions;
  }

  lemma AdvanceKeepsInv(g: GrantIds, db0: Db, s: Sys, sid: nat, choice: nat)
    requires Inv(g, db0, s) && sid in s.sessions
    ensures Inv(g, db0, Step(g, s, Advance(sid, choice)))
  {
    var x := s.sessions[sid];
    if Finding(x.pc) {
      FindKeepsInv(g, db0, s, sid, choice);
    } else if Moving(x.pc) {
      MoveKeepsInv(g, db0, s, sid);
    } else if x.pc.Committing? {
      CommitKeepsInv(g, db0, s, sid);
    } else if x.pc.ReturningSlot? {
      ReturnSlotKeepsInv(g, db0, s, sid);
    } else if !x.pc.Finished? {
      BeforeTxKeepsInv(g, db0, s, sid);
    }
  }

  lemma IdleHoldsNothing(g: GrantIds, db: Db, x: Session)
    requires SessionOk(g, db, x) && !x.InTx()
    ensures x.pend == NOTHING && !x.created && !x.claimed
  {
    assert x.pend.rows == [];
  }

  lemma BeforeTxKeepsInv(g: GrantIds, db0: Db, s: Sys, sid: nat)
    requires Inv(g, db0, s) && sid in s.sessions
    requires s.sessions[sid].pc.CheckingTxn? || s.sessions[sid].pc.TakingSlot?
    ensures s.sessions[sid].job.Earn? && Inv(g, db0, BeforeTx(s, sid, s.sessions[sid]))
  {
    hide Inv, SessionOk, HasTxn, CountOf, RuleOf;
    var x := s.sessions[sid];
    SessionFacts(g, db0, s, sid);
    IdleHoldsNothing(g, s.db, x);
    var s' := BeforeTx(s, sid, x);
    OutsideKeepsInv(g, db0, s, sid, s'.sessions[sid], s');
  }

  lemma ReturnSlotKeepsInv(g: GrantIds, db0: Db, s: Sys, sid: nat)
    requires Inv(g, db0, s) && sid in s.sessions && s.sessions[sid].pc.ReturningSlot?
    ensures s.sessions[sid].job.Earn? && Inv(g, db0, ReturnSlot(s, sid, s.sessions[sid]))
  {
    hide Inv, SessionOk, CountOf;
    var x := s.sessions[sid];
    SessionFacts(g, db0, s, sid);
    IdleHoldsNothing(g, s.db, x);
    var s' := ReturnSlot(s, sid, x);
    OutsideKeepsInv(g, db0, s, sid, s'.sessions[sid], s');
  }

  lemma FailKeepsInv(g: GrantIds, db0: Db, s: Sys, sid: nat)
    requires Inv(g, db0, s)
    ensures Inv(g, db0, Step(g, s, Fail(sid)))
  {
    if sid in s.sessions && !s.sessions[sid].pc.Finished? && !s.sessions[sid].pc.ReturningSlot? {
      SessionFacts(g, db0, s, sid);
      hide Inv, SessionOk, ApartFromAll;
      RollbackOk(g, s, sid, s.sessions[sid]);
      LocalStep(g, db0, s, sid, s.sessions[sid].RolledBack());
    }
  }

  lemma SpawnKeepsInv(g: GrantIds, db0: Db, s: Sys, sid: nat, job: Job)
    requires Inv(g, db0, s)
    ensures Inv(g, db0, Step(g, s, Spawn(sid, job)))
  {
    hide Expected, OnceWas, ExecAll, Apart, Later, RuleOf;
    if sid !in s.sessions && job.Accepted() {
      var s' := Step(g, s, Spawn(sid, job));
      OutsideKeepsInv(g, db0, s, sid, s'.sessions[sid], s');
    }
  }

  lemma LoseKeepsInv(g: GrantIds, db0: Db, s: Sys, sid: nat)
    requires Inv(g, db0, s)
    ensures Inv(g, db0, Step(g, s, LoseSlot(sid)))
  {
    hide Inv, SessionOk, CountOf, RuleOf;
    if sid in s.sessions && s.sessions[sid].job.Earn? {
      var x := s.sessions[sid];
      SessionFacts(g, db0, s, sid);
      var s' := LoseReply(s, sid, x);
      if x.pc.ReturningSlot? || x.pc.TakingSlot? {
        IdleHoldsNothing(g, s.db, x);
        OutsideKeepsInv(g, db0, s, sid, s'.sessions[sid], s');
      }
    }
  }

  lemma NewDayKeepsInv(g: GrantIds, db0: Db, s: Sys)
    requires Inv(g, db0, s)
    ensures Inv(g, db0, Step(g, s, NewDay))
  {
    hide ExecAll;
    var s' := Step(g, s, NewDay);
    assert s'.sessions == s.sessions && s'.db == s.db && s'.past == s.past && s'.log == s.log;
  }

  lemma StepKeepsInv(g: GrantIds, db0: Db, s: Sys, a: Action)
    requires Inv(g, db0, s)
    ensures Inv(g, db0, Step(g, s, a))
  {
    hide Inv;
    match a {
      case Advance(sid, choice) => if sid in s.sessions { AdvanceKeepsInv(g, db0, s, sid, choice); }
      case Fail(sid) => FailKeepsInv(g, db0, s, sid);
      case NewDay => NewDayKeepsInv(g, db0, s);
      case Spawn(sid, job) => SpawnKeepsInv(g, db0, s, sid, job);
      case LoseSlot(sid) => LoseKeepsInv(g, db0, s, sid);
    }
  }

  lemma {:induction false} RunKeepsInv(g: GrantIds, db0: Db, actions: seq<Action>, states: seq<Sys>, n: nat)
    requires IsRun(g, db0, actions, states) && n < |states|
    ensures Inv(g, db0, states[n])
  {
    if n > 0 {
      RunKeepsInv(g, db0, actions, states, n - 1);
      var a := actions[n - 1];
      hide Step;
      StepKeepsInv(g, db0, states[n - 1], a);
    }
  }
}
