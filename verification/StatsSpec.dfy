/**
  Article statistics: what a message adds to a buffer, how buffers merge, and what one flush
  does to the article tables.
 */
module StatsSpec {
  import opened Common
  import opened Counts

  datatype Kind = View | Like | Unlike | Unknown

  datatype Msg = Msg(kind: Kind, article: nat, user: nat, likeDelta: Option<int>)
  {
    predicate Accepted() {
      article != 0 && kind != Unknown
    }

    /** What the message adds to the article's view count. */
    function Views(): int {
      if kind == View then 1 else 0
    }

    /** What the message itself adds to the like count; likes by known users count when their row is inserted. */
    function Likes(): int {
      if kind == Like && user == 0 then 1
      else if kind == Unlike then if likeDelta.Some? then likeDelta.value else -1
      else 0
    }
  }

  datatype Pair = Pair(user: nat, article: nat)

  datatype Buf = Buf(views: Counts, likes: Counts, ins: set<Pair>, del: set<Pair>)

  const EMPTY := Buf(map[], map[], {}, {})

  predicate IsEmpty(b: Buf) {
    b == EMPTY
  }

  function Applied(b: Buf, m: Msg): Buf {
    if m.kind == View then b.(views := Bump(b.views, m.article, 1))
    else if m.kind == Like then
      if m.user != 0 then b.(ins := b.ins + {Pair(m.user, m.article)})
      else b.(likes := Bump(b.likes, m.article, 1))
    else if m.kind == Unlike then
      b.(likes := if m.Likes() != 0 then Bump(b.likes, m.article, m.Likes()) else b.likes,
         del := if m.user != 0 then b.del + {Pair(m.user, m.article)} else b.del)
    else b
  }

  function Merged(a: Buf, b: Buf): Buf {
    Buf(Sum(a.views, b.views), Sum(a.likes, b.likes), a.ins + b.ins, a.del + b.del)
  }

  /** One buffer fed the whole stream. */
  function Of(msgs: seq<Msg>): Buf {
    if msgs == [] then EMPTY else Applied(Of(msgs[..|msgs| - 1]), msgs[|msgs| - 1])
  }

  lemma SumLaws(a: Counts, b: Counts, c: Counts)
    ensures Sum(a, b) == Sum(b, a)
    ensures Sum(a, Sum(b, c)) == Sum(Sum(a, b), c)
    ensures Sum(a, map[]) == a
  {
    SumAssociates(a, b, c);
  }

  lemma SumAssociates(a: Counts, b: Counts, c: Counts)
    ensures Sum(a, Sum(b, c)) == Sum(Sum(a, b), c)
  {
    var l, r := Sum(a, Sum(b, c)), Sum(Sum(a, b), c);
    assert l.Keys == r.Keys;
    forall k | k in l ensures l[k] == r[k] {
      GetSum(b, c, k);
      GetSum(a, b, k);
    }
  }

  lemma GetSum(a: Counts, b: Counts, k: nat)
    ensures Get(Sum(a, b), k) == Get(a, k) + Get(b, k)
  {
  }

  lemma SumBump(a: Counts, b: Counts, k: nat, n: int)
    ensures Sum(a, Bump(b, k, n)) == Bump(Sum(a, b), k, n)
  {
    assert Sum(a, Bump(b, k, n)).Keys == Bump(Sum(a, b), k, n).Keys;
  }

  /** Buffers form a commutative monoid under merging. */
  lemma MergeLaws(a: Buf, b: Buf, c: Buf)
    ensures Merged(a, b) == Merged(b, a)
    ensures Merged(a, Merged(b, c)) == Merged(Merged(a, b), c)
    ensures Merged(a, EMPTY) == a
  {
    SumLaws(a.views, b.views, c.views);
    SumLaws(a.likes, b.likes, c.likes);
  }

  lemma MergeApplied(a: Buf, b: Buf, m: Msg)
    ensures Merged(a, Applied(b, m)) == Applied(Merged(a, b), m)
  {
    hide Sum, Bump;
    SumBump(a.views, b.views, m.article, 1);
    SumBump(a.likes, b.likes, m.article, 1);
    SumBump(a.likes, b.likes, m.article, m.Likes());
  }

  /** Feeding two streams separately and merging is feeding one after the other. */
  lemma {:induction false} OfConcat(xs: seq<Msg>, ys: seq<Msg>)
    ensures Of(xs + ys) == Merged(Of(xs), Of(ys))
  {
    if ys == [] {
      assert xs + ys == xs;
      MergeLaws(Of(xs), EMPTY, EMPTY);
    } else {
      var n := |ys| - 1;
      assert (xs + ys)[..|xs| + n] == xs + ys[..n];
      OfConcat(xs, ys[..n]);
      MergeApplied(Of(xs), Of(ys[..n]), ys[n]);
    }
  }

  lemma OfMoveToEnd(xs: seq<Msg>, i: nat)
    requires i < |xs|
    ensures Of(xs) == Of(xs[..i] + xs[i + 1..] + [xs[i]])
  {
    hide Of, Merged;
    var a, x, b := xs[..i], [xs[i]], xs[i + 1..];
    assert xs == a + (x + b);
    OfConcat(a, x + b);
    OfConcat(x, b);
    OfConcat(a + b, x);
    OfConcat(a, b);
    MergeLaws(Of(x), Of(b), EMPTY);
    MergeLaws(Of(a), Of(b), Of(x));
  }

  /** Order does not matter: streams with the same messages give the same buffer. */
  lemma {:induction false} OfAnyOrder(xs: seq<Msg>, ys: seq<Msg>)
    requires multiset(xs) == multiset(ys)
    ensures Of(xs) == Of(ys)
  {
    if xs == [] {
      assert |multiset(ys)| == 0;
    } else {
      var n := |xs| - 1;
      var x := xs[n];
      assert xs == xs[..n] + [x];
      assert x in multiset(ys);
      var i :| 0 <= i < |ys| && ys[i] == x;
      var rest := ys[..i] + ys[i + 1..];
      assert ys == ys[..i] + [x] + ys[i + 1..];
      assert multiset(ys) == multiset(rest) + multiset{x};
      assert multiset(xs) == multiset(xs[..n]) + multiset{x};
      assert multiset(xs[..n]) == multiset(rest) by {
        assert multiset(rest) == multiset(ys) - multiset{x};
        assert multiset(xs[..n]) == multiset(xs) - multiset{x};
      }
      OfAnyOrder(xs[..n], rest);
      OfMoveToEnd(ys, i);
      assert (rest + [x])[..|rest|] == rest;
    }
  }

  function ViewsOf(article: nat): Msg -> int { (m: Msg) => if m.article == article then m.Views() else 0 }
  function LikesOf(article: nat): Msg -> int { (m: Msg) => if m.article == article then m.Likes() else 0 }

  /** The buffer's counters are plain sums over the messages. */
  lemma {:induction false} OfCounts(msgs: seq<Msg>, article: nat)
    ensures Get(Of(msgs).views, article) == Total(msgs, ViewsOf(article))
    ensures Get(Of(msgs).likes, article) == Total(msgs, LikesOf(article))
  {
    if msgs != [] {
      OfCounts(msgs[..|msgs| - 1], article);
    }
  }

  // ---------- the article tables ----------

  datatype Db = Db(views: Counts, likes: Counts, rows: set<Pair>)

  predicate ValidPair(p: Pair) {
    p.user != 0 && p.article != 0
  }

  function ValidOnes(ps: set<Pair>): set<Pair> {
    set p | p in ps && ValidPair(p)
  }

  function OnArticle(ps: set<Pair>, article: nat): set<Pair> {
    set p | p in ps && p.article == article
  }

  /** Rows a flush really inserts. */
  function NewRows(db: Db, b: Buf): set<Pair> {
    ValidOnes(b.ins) - db.rows
  }

  /** Rows a flush really deletes. */
  function GoneRows(db: Db, b: Buf): set<Pair> {
    (db.rows + NewRows(db, b)) * ValidOnes(b.del)
  }

  /** One committed flush: each newly inserted row counts one like, deleted rows count nothing. */
  function Flushed(db: Db, b: Buf): Db {
    Db(Updated(db.views, b.views),
       map a | a in db.likes :: db.likes[a] + Get(b.likes, a) + |OnArticle(NewRows(db, b), a)|,
       db.rows + NewRows(db, b) - GoneRows(db, b))
  }

  /** One message, written out by its kind. */
  lemma AppliedWrittenOut(b: Buf, m: Msg, a: nat)
    ensures var r := Applied(b, m);
            var mine := a == m.article;
            && Get(r.views, a) == Get(b.views, a) + (if m.kind == View && mine then 1 else 0)
            && Get(r.likes, a) == Get(b.likes, a)
                 + (if m.kind == Like && m.user == 0 && mine then 1 else 0)
                 + (if m.kind == Unlike && m.likeDelta.None? && mine then -1 else 0)
                 + (if m.kind == Unlike && m.likeDelta.Some? && mine then m.likeDelta.value else 0)
            && r.ins == b.ins + (if m.kind == Like && m.user != 0 then {Pair(m.user, m.article)} else {})
            && r.del == b.del + (if m.kind == Unlike && m.user != 0 then {Pair(m.user, m.article)} else {})
  {
  }

  /** One committed flush, written out: inserts first, one like for each row that is new, deletes last. */
  lemma FlushedWrittenOut(db: Db, b: Buf, a: nat, p: Pair)
    ensures var r := Flushed(db, b);
            var valid := p.user != 0 && p.article != 0;
            && (p in r.rows <==> (p in db.rows || (valid && p in b.ins)) && !(valid && p in b.del))
            && r.views.Keys == db.views.Keys && r.likes.Keys == db.likes.Keys
            && (a in db.views ==> r.views[a] == db.views[a] + Get(b.views, a))
            && (a in db.likes ==>
                  r.likes[a] == db.likes[a] + Get(b.likes, a)
                                + |set q | q in b.ins && q !in db.rows && q.user != 0 && q.article != 0 && q.article == a|)
  {
    assert OnArticle(NewRows(db, b), a)
        == set q | q in b.ins && q !in db.rows && q.user != 0 && q.article != 0 && q.article == a;
  }

  lemma FlushedRowCount(db: Db, b: Buf, a: nat)
    ensures |OnArticle(Flushed(db, b).rows, a)|
         == |OnArticle(db.rows, a)| + |OnArticle(NewRows(db, b), a)| - |OnArticle(GoneRows(db, b), a)|
  {
    var all := OnArticle(db.rows + NewRows(db, b), a);
    assert all == OnArticle(db.rows, a) + OnArticle(NewRows(db, b), a);
    assert all == OnArticle(Flushed(db, b).rows, a) + OnArticle(GoneRows(db, b), a);
  }

  // ---------- what the window loses: the order of like and unlike ----------

  /** Whether the user likes the article after these messages, taken in order. */
  predicate LikedAfter(msgs: seq<Msg>, before: bool, p: Pair) {
    if msgs == [] then before
    else
      var m := msgs[|msgs| - 1];
      if m.user == p.user && m.article == p.article && m.kind == Like then true
      else if m.user == p.user && m.article == p.article && m.kind == Unlike then false
      else LikedAfter(msgs[..|msgs| - 1], before, p)
  }

  predicate Unlikes(msgs: seq<Msg>, p: Pair) {
    exists i :: 0 <= i < |msgs| && msgs[i].kind == Unlike && msgs[i].user == p.user && msgs[i].article == p.article
  }

  lemma {:induction false} WindowRow(msgs: seq<Msg>, before: bool, p: Pair)
    requires ValidPair(p)
    ensures p in Of(msgs).del <==> Unlikes(msgs, p)
    ensures p !in Of(msgs).del ==> (LikedAfter(msgs, before, p) <==> before || p in Of(msgs).ins)
  {
    if msgs != [] {
      var n := |msgs| - 1;
      WindowRow(msgs[..n], before, p);
      if Unlikes(msgs[..n], p) {
        var i :| 0 <= i < n && msgs[..n][i].kind == Unlike && msgs[..n][i].user == p.user && msgs[..n][i].article == p.article;
        assert msgs[i] == msgs[..n][i];
      }
      if Unlikes(msgs, p) {
        var i :| 0 <= i < |msgs| && msgs[i].kind == Unlike && msgs[i].user == p.user && msgs[i].article == p.article;
        assert i < n ==> msgs[..n][i] == msgs[i];
      }
    }
  }

  /**
    A flush inserts before it deletes, so it leaves the row the messages asked for exactly
    when the window holds no unlike of the pair, or the pair ends up unliked.
   */
  lemma FlushFollowsOrderIff(msgs: seq<Msg>, db: Db, p: Pair)
    requires ValidPair(p)
    ensures (p in Flushed(db, Of(msgs)).rows <==> LikedAfter(msgs, p in db.rows, p))
        <==> !(Unlikes(msgs, p) && LikedAfter(msgs, p in db.rows, p))
  {
    WindowRow(msgs, p in db.rows, p);
  }

  /** Unlike, then like again, within one window: the like is lost. */
  lemma LikeAgainIsLost()
    ensures var p := Pair(7, 3);
            var msgs := [Msg(Unlike, 3, 7, None), Msg(Like, 3, 7, None)];
            var db := Db(map[], map[], {p});
            LikedAfter(msgs, true, p) && p !in Flushed(db, Of(msgs)).rows
  {
    var p := Pair(7, 3);
    var msgs := [Msg(Unlike, 3, 7, None), Msg(Like, 3, 7, None)];
    assert msgs[0].kind == Unlike;
    FlushFollowsOrderIff(msgs, Db(map[], map[], {p}), p);
  }
}
