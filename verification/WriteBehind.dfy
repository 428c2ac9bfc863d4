/**
  The article statistics worker under concurrency: messages, buffer swaps, and flushes that
  commit or fail, in any order and with any number of drained buffers in flight per shard.
 */
module WriteBehind {
  import opened Common
  import opened Counts
  import opened StatsSpec
  import opened StatsWorker

  datatype Shard = Shard(live: Buf, flights: seq<Buf>)

  datatype Sys = Sys(
    shards: seq<Shard>,
    db: Db,
    handled: seq<Msg>,         // every message acknowledged, in order
    written: Buf,              // everything committed so far, merged
    removals: seq<set<Pair>>)  // the rows each committed flush deleted

  datatype Action =
    | Handle(m: Msg)
    | Swap(shard: nat)
    | FlushCommits(shard: nat, flight: nat)
    | FlushFails(shard: nat, flight: nat)

  function Start(db: Db, shardCount: nat): Sys {
    Sys(seq(shardCount, i => Shard(EMPTY, [])), db, [], EMPTY, [])
  }

  function Step(s: Sys, a: Action): (s': Sys)
    ensures |s'.shards| == |s.shards|
  {
    match a
    case Handle(m) =>
      var k := ShardIndex(m.article, |s.shards|);
      if !m.Accepted() || k >= |s.shards| then s
      else s.(shards := s.shards[k := s.shards[k].(live := Applied(s.shards[k].live, m))], handled := s.handled + [m])
    case Swap(i) =>
      if i >= |s.shards| || IsEmpty(s.shards[i].live) then s
      else s.(shards := s.shards[i := Shard(EMPTY, s.shards[i].flights + [s.shards[i].live])])
    case FlushCommits(i, j) =>
      if i >= |s.shards| || j >= |s.shards[i].flights| then s
      else
        var b := s.shards[i].flights[j];
        s.(shards := s.shards[i := s.shards[i].(flights := Without(s.shards[i].flights, j))],
           db := Flushed(s.db, b), written := Merged(s.written, b), removals := s.removals + [GoneRows(s.db, b)])
    case FlushFails(i, j) =>
      if i >= |s.shards| || j >= |s.shards[i].flights| then s
      else
        var b := s.shards[i].flights[j];
        s.(shards := s.shards[i := Shard(Merged(s.shards[i].live, b), Without(s.shards[i].flights, j))])
  }

  ghost predicate IsRun(db0: Db, shardCount: nat, actions: seq<Action>, states: seq<Sys>) {
    && |states| == |actions| + 1
    && states[0] == Start(db0, shardCount)
    && forall i {:trigger actions[i]} :: 0 <= i < |actions| ==> states[i + 1] == Step(states[i], actions[i])
  }

  function MergeAll(bs: seq<Buf>): Buf {
    if bs == [] then EMPTY else Merged(MergeAll(bs[..|bs| - 1]), bs[|bs| - 1])
  }

  /** All that a shard still has to write. */
  function Whole(sh: Shard): Buf {
    Merged(sh.live, MergeAll(sh.flights))
  }

  function Wholes(shards: seq<Shard>): seq<Buf> {
    seq(|shards|, i requires 0 <= i < |shards| => Whole(shards[i]))
  }

  /** Buffered or drained, but not committed. */
  function Pending(s: Sys): Buf {
    MergeAll(Wholes(s.shards))
  }

  lemma {:induction false} PickOne(bs: seq<Buf>, i: nat)
    requires i < |bs|
    ensures MergeAll(bs) == Merged(MergeAll(Without(bs, i)), bs[i])
  {
    hide Merged;
    var n := |bs| - 1;
    if i == n {
      assert Without(bs, i) == bs[..n];
    } else {
      PickOne(bs[..n], i);
      assert Without(bs, i)[..n - 1] == Without(bs[..n], i);
      assert Without(bs, i)[n - 1] == bs[n];
      SwapLast(MergeAll(Without(bs[..n], i)), bs[i], bs[n]);
    }
  }

  lemma SwapLast(rest: Buf, a: Buf, b: Buf)
    ensures Merged(Merged(rest, a), b) == Merged(Merged(rest, b), a)
  {
    hide Merged;
    MergeLaws(a, b, EMPTY);
    MergeLaws(rest, a, b);
    MergeLaws(rest, b, a);
  }

  /** The pending total of counts is the sum over the parts. */
  lemma {:induction false} MergeAllCounts(bs: seq<Buf>, a: nat)
    ensures Get(MergeAll(bs).views, a) == Total(bs, (b: Buf) => Get(b.views, a))
    ensures Get(MergeAll(bs).likes, a) == Total(bs, (b: Buf) => Get(b.likes, a))
  {
    if bs != [] {
      MergeAllCounts(bs[..|bs| - 1], a);
    }
  }

  lemma PendingAfter(s: Sys, i: nat, sh: Shard)
    requires i < |s.shards|
    ensures exists rest :: Pending(s) == Merged(rest, Whole(s.shards[i])) && Pending(s.(shards := s.shards[i := sh])) == Merged(rest, Whole(sh))
  {
    var ws, ws' := Wholes(s.shards), Wholes(s.shards[i := sh]);
    assert Without(ws, i) == Without(ws', i);
    hide Merged;
    PickOne(ws, i);
    PickOne(ws', i);
  }

  lemma WholeAfterApply(sh: Shard, m: Msg)
    ensures Whole(sh.(live := Applied(sh.live, m))) == Applied(Whole(sh), m)
  {
    var f := MergeAll(sh.flights);
    MergeLaws(f, sh.live, EMPTY);
    MergeLaws(f, Applied(sh.live, m), EMPTY);
    MergeApplied(f, sh.live, m);
  }

  lemma WholeAfterSwap(sh: Shard, sh': Shard)
    requires sh' == Shard(EMPTY, sh.flights + [sh.live])
    ensures Whole(sh') == Whole(sh)
  {
    assert sh'.flights[..|sh.flights|] == sh.flights;
    MergeLaws(MergeAll(sh.flights), sh.live, EMPTY);
    MergeLaws(Whole(sh), EMPTY, EMPTY);
  }

  lemma WholeAfterLanding(sh: Shard, j: nat)
    requires j < |sh.flights|
    ensures Whole(sh) == Merged(Whole(sh.(flights := Without(sh.flights, j))), sh.flights[j])
    ensures Whole(sh) == Whole(Shard(Merged(sh.live, sh.flights[j]), Without(sh.flights, j)))
  {
    PickOne(sh.flights, j);
    var f, b := MergeAll(Without(sh.flights, j)), sh.flights[j];
    hide Merged;
    MergeLaws(sh.live, f, b);
    MergeLaws(f, b, EMPTY);
    MergeLaws(sh.live, b, f);
  }

  /** Nothing is lost and nothing counted twice: written plus pending is the whole stream. */
  ghost predicate Balanced(s: Sys) {
    Merged(s.written, Pending(s)) == Of(s.handled)
  }

  lemma HandleKeepsBalance(s: Sys, m: Msg)
    requires Balanced(s)
    ensures Balanced(Step(s, Handle(m)))
  {
    var k := ShardIndex(m.article, |s.shards|);
    var s' := Step(s, Handle(m));
    if s' != s {
      var sh := s.shards[k].(live := Applied(s.shards[k].live, m));
      PendingAfter(s, k, sh);
      WholeAfterApply(s.shards[k], m);
      assert (s.handled + [m])[..|s.handled|] == s.handled;
      assert s'.shards == s.shards[k := sh];
      hide Merged, Applied, Whole, Wholes, MergeAll;
      var rest :| Pending(s) == Merged(rest, Whole(s.shards[k])) && Pending(s.(shards := s.shards[k := sh])) == Merged(rest, Whole(sh));
      MergeApplied(rest, Whole(s.shards[k]), m);
      MergeApplied(s.written, Pending(s), m);
    }
  }

  lemma MoveKeepsBalance(s: Sys, a: Action)
    requires Balanced(s) && !a.Handle?
    ensures Balanced(Step(s, a))
  {
    var s' := Step(s, a);
    if s' != s {
      var sh, sh' := s.shards[a.shard], s'.shards[a.shard];
      PendingAfter(s, a.shard, sh');
      if a.Swap? { WholeAfterSwap(sh, sh'); } else { WholeAfterLanding(sh, a.flight); }
      assert s'.shards == s.shards[a.shard := sh'];
      hide Merged, Whole, Wholes, MergeAll;
      var rest :| Pending(s) == Merged(rest, Whole(sh)) && Pending(s.(shards := s.shards[a.shard := sh'])) == Merged(rest, Whole(sh'));
      if a.FlushCommits? {
        var b := sh.flights[a.flight];
        MergeLaws(rest, Whole(sh'), b);
        MergeLaws(Merged(rest, Whole(sh')), b, EMPTY);
        MergeLaws(s.written, b, Merged(rest, Whole(sh')));
      }
    }
  }

  function RowsGone(article: nat): set<Pair> -> int { (ps: set<Pair>) => |OnArticle(ps, article)| }

  predicate LikesOk(db0: Db, db: Db, written: Counts, removals: seq<set<Pair>>, a: nat)
    requires a in db0.likes && a in db.likes
  {
    db.likes[a] == db0.likes[a] + Get(written, a)
                   + |OnArticle(db.rows, a)| - |OnArticle(db0.rows, a)| + Total(removals, RowsGone(a))
  }

  /** The tables hold exactly what was written, each inserted like row counted once. */
  ghost predicate TablesOk(db0: Db, s: Sys) {
    && s.db.views == Updated(db0.views, s.written.views)
    && s.db.likes.Keys == db0.likes.Keys
    && forall a :: a in db0.likes ==> LikesOk(db0, s.db, s.written.likes, s.removals, a)
  }

  lemma UpdatedTwice(table: Counts, d: Counts, e: Counts)
    ensures Updated(Updated(table, d), e) == Updated(table, Sum(d, e))
  {
  }

  lemma FlushKeepsLikes(db0: Db, db: Db, b: Buf, written: Counts, removals: seq<set<Pair>>, a: nat)
    requires a in db0.likes && a in db.likes && LikesOk(db0, db, written, removals, a)
    ensures LikesOk(db0, Flushed(db, b), Sum(written, b.likes), removals + [GoneRows(db, b)], a)
  {
    TotalAppend(removals, GoneRows(db, b), RowsGone(a));
    FlushedRowCount(db, b, a);
    assert Get(Sum(written, b.likes), a) == Get(written, a) + Get(b.likes, a);
    hide NewRows, GoneRows, OnArticle;
  }

  lemma FlushKeepsTables(db0: Db, s: Sys, b: Buf)
    requires TablesOk(db0, s)
    ensures TablesOk(db0, s.(db := Flushed(s.db, b), written := Merged(s.written, b), removals := s.removals + [GoneRows(s.db, b)]))
  {
    UpdatedTwice(db0.views, s.written.views, b.views);
    hide LikesOk, NewRows, GoneRows, OnArticle;
    forall a | a in db0.likes
      ensures LikesOk(db0, Flushed(s.db, b), Sum(s.written.likes, b.likes), s.removals + [GoneRows(s.db, b)], a)
    {
      FlushKeepsLikes(db0, s.db, b, s.written.likes, s.removals, a);
    }
  }

  /** Every key a shard holds hashes to that shard. */
  ghost predicate Owns(b: Buf, shardCount: nat, i: nat) {
    && (forall a :: a in b.views || a in b.likes ==> ShardIndex(a, shardCount) == i)
    && (forall p :: p in b.ins || p in b.del ==> ShardIndex(p.article, shardCount) == i)
  }

  ghost predicate KeysOk(s: Sys) {
    forall i :: 0 <= i < |s.shards| ==>
      && Owns(s.shards[i].live, |s.shards|, i)
      && forall j :: 0 <= j < |s.shards[i].flights| ==> Owns(s.shards[i].flights[j], |s.shards|, i)
  }

  lemma StepKeepsKeys(s: Sys, a: Action)
    requires KeysOk(s)
    ensures KeysOk(Step(s, a))
  {
    var s' := Step(s, a);
    var n := |s.shards|;
    forall i | 0 <= i < n
      ensures Owns(s'.shards[i].live, n, i)
      ensures forall j :: 0 <= j < |s'.shards[i].flights| ==> Owns(s'.shards[i].flights[j], n, i)
    {
      assert Owns(s.shards[i].live, n, i);
      forall j | 0 <= j < |s'.shards[i].flights| ensures Owns(s'.shards[i].flights[j], n, i) {
        if s'.shards[i] != s.shards[i] && !a.Handle? && !a.Swap? {
          assert s'.shards[i].flights[j] == s.shards[i].flights[if j < a.flight then j else j + 1];
        }
      }
    }
  }

  lemma StartBalanced(db0: Db, shardCount: nat)
    ensures Balanced(Start(db0, shardCount)) && TablesOk(db0, Start(db0, shardCount)) && KeysOk(Start(db0, shardCount))
    ensures |Start(db0, shardCount).shards| == shardCount
  {
    var s := Start(db0, shardCount);
    assert s.db.views == Updated(db0.views, EMPTY.views);
    AllEmpty(Wholes(s.shards));
  }

  lemma {:induction false} AllEmpty(bs: seq<Buf>)
    requires forall i :: 0 <= i < |bs| ==> bs[i] == EMPTY
    ensures MergeAll(bs) == EMPTY
  {
    if bs != [] {
      AllEmpty(bs[..|bs| - 1]);
    }
  }

  lemma StepKeepsTables(db0: Db, s: Sys, a: Action)
    requires TablesOk(db0, s)
    ensures TablesOk(db0, Step(s, a))
  {
    if a.FlushCommits? && Step(s, a) != s {
      FlushKeepsTables(db0, s, s.shards[a.shard].flights[a.flight]);
    }
  }

  lemma {:induction false} RunKeeps(db0: Db, shardCount: nat, actions: seq<Action>, states: seq<Sys>, n: nat)
    requires IsRun(db0, shardCount, actions, states) && n < |states|
    ensures Balanced(states[n]) && TablesOk(db0, states[n]) && KeysOk(states[n]) && |states[n].shards| == shardCount
  {
    hide Step, Balanced, TablesOk, KeysOk, Start;
    if n == 0 {
      StartBalanced(db0, shardCount);
    } else {
      RunKeeps(db0, shardCount, actions, states, n - 1);
      var a := actions[n - 1];
      if a.Handle? { HandleKeepsBalance(states[n - 1], a.m); } else { MoveKeepsBalance(states[n - 1], a); }
      StepKeepsTables(db0, states[n - 1], a);
      StepKeepsKeys(states[n - 1], a);
    }
  }

  /**
    However the stream was split over shards, swaps, failed flushes and merge-backs, and in
    whatever order it came: written and pending together are one buffer fed the whole stream.
   */
  lemma SplitsDoNotMatter(db0: Db, shardCount: nat, actions: seq<Action>, states: seq<Sys>, n: nat, stream: seq<Msg>)
    requires IsRun(db0, shardCount, actions, states) && n < |states|
    requires multiset(stream) == multiset(states[n].handled)
    ensures Merged(states[n].written, Pending(states[n])) == Of(stream)
  {
    RunKeeps(db0, shardCount, actions, states, n);
    OfAnyOrder(stream, states[n].handled);
  }

  /** Conservation: table + pending = initial + handled, for views and for likes, in every reachable state. */
  lemma CountsConserved(db0: Db, shardCount: nat, actions: seq<Action>, states: seq<Sys>, n: nat, a: nat)
    requires IsRun(db0, shardCount, actions, states) && n < |states|
    ensures a in db0.views ==>
      && a in states[n].db.views
      && states[n].db.views[a] + Get(Pending(states[n]).views, a) == db0.views[a] + Total(states[n].handled, ViewsOf(a))
    ensures a in db0.likes ==>
      var s := states[n];
      && a in s.db.likes
      && s.db.likes[a] + Get(Pending(s).likes, a)
         == db0.likes[a] + Total(s.handled, LikesOf(a))
            + |OnArticle(s.db.rows, a)| - |OnArticle(db0.rows, a)| + Total(s.removals, RowsGone(a))
  {
    RunKeeps(db0, shardCount, actions, states, n);
    var s := states[n];
    OfCounts(s.handled, a);
    assert a in db0.likes ==> LikesOk(db0, s.db, s.written.likes, s.removals, a);
    assert Get(Merged(s.written, Pending(s)).views, a) == Get(s.written.views, a) + Get(Pending(s).views, a);
    assert Get(Merged(s.written, Pending(s)).likes, a) == Get(s.written.likes, a) + Get(Pending(s).likes, a);
  }

  // ---------- counted by what was asked ----------

  /** The changes that unlikes carry with them, for one article. */
  function GivenDeltas(actions: seq<Action>, n: nat, a: nat): int
    requires n <= |actions|
  {
    if n == 0 then 0
    else
      var act := actions[n - 1];
      GivenDeltas(actions, n - 1, a)
      + if act.Handle? && act.m.kind == Unlike && act.m.article == a && act.m.likeDelta.Some? then act.m.likeDelta.value else 0
  }

  ghost function AskedViews(actions: seq<Action>, n: nat, a: nat): set<int>
    requires n <= |actions|
  {
    set i | 0 <= i < n && actions[i].Handle? && actions[i].m.kind == View && actions[i].m.article == a
  }

  ghost function AskedLikes(actions: seq<Action>, n: nat, a: nat): set<int>
    requires n <= |actions|
  {
    set i | 0 <= i < n && actions[i].Handle? && actions[i].m.kind == Like && actions[i].m.user == 0 && actions[i].m.article == a
  }

  ghost function AskedUnlikes(actions: seq<Action>, n: nat, a: nat): set<int>
    requires n <= |actions|
  {
    set i | 0 <= i < n && actions[i].Handle? && actions[i].m.kind == Unlike && actions[i].m.likeDelta.None? && actions[i].m.article == a
  }

  lemma ViewsMore(actions: seq<Action>, n: nat, a: nat)
    requires n < |actions|
    ensures var act := actions[n];
            |AskedViews(actions, n + 1, a)| == |AskedViews(actions, n, a)|
              + if act.Handle? && act.m.article == a && act.m.kind == View then 1 else 0
  {
    var act := actions[n];
    assert AskedViews(actions, n + 1, a)
        == AskedViews(actions, n, a) + if act.Handle? && act.m.article == a && act.m.kind == View then {n as int} else {};
  }

  lemma LikesMore(actions: seq<Action>, n: nat, a: nat)
    requires n < |actions|
    ensures var act := actions[n];
            |AskedLikes(actions, n + 1, a)| == |AskedLikes(actions, n, a)|
              + if act.Handle? && act.m.article == a && act.m.kind == Like && act.m.user == 0 then 1 else 0
  {
    var act := actions[n];
    assert AskedLikes(actions, n + 1, a)
        == AskedLikes(actions, n, a) + if act.Handle? && act.m.article == a && act.m.kind == Like && act.m.user == 0 then {n as int} else {};
  }

  lemma UnlikesMore(actions: seq<Action>, n: nat, a: nat)
    requires n < |actions|
    ensures var act := actions[n];
            |AskedUnlikes(actions, n + 1, a)| == |AskedUnlikes(actions, n, a)|
              + if act.Handle? && act.m.article == a && act.m.kind == Unlike && act.m.likeDelta.None? then 1 else 0
  {
    var act := actions[n];
    assert AskedUnlikes(actions, n + 1, a)
        == AskedUnlikes(actions, n, a) + if act.Handle? && act.m.article == a && act.m.kind == Unlike && act.m.likeDelta.None? then {n as int} else {};
  }

  lemma HandledStep(s: Sys, act: Action, a: nat)
    requires s.shards != [] && a != 0
    ensures var mine := act.Handle? && act.m.article == a;
            && Total(Step(s, act).handled, ViewsOf(a)) == Total(s.handled, ViewsOf(a)) + (if mine && act.m.kind == View then 1 else 0)
            && Total(Step(s, act).handled, LikesOf(a)) == Total(s.handled, LikesOf(a))
                 + (if mine && act.m.kind == Like && act.m.user == 0 then 1 else 0)
                 - (if mine && act.m.kind == Unlike && act.m.likeDelta.None? then 1 else 0)
                 + (if mine && act.m.kind == Unlike && act.m.likeDelta.Some? then act.m.likeDelta.value else 0)
  {
    hide Total, Applied, Flushed, Merged;
    if act.Handle? {
      TotalAppend(s.handled, act.m, ViewsOf(a));
      TotalAppend(s.handled, act.m, LikesOf(a));
    }
  }

  lemma NothingAsked(actions: seq<Action>, a: nat)
    ensures AskedViews(actions, 0, a) == {} && AskedLikes(actions, 0, a) == {} && AskedUnlikes(actions, 0, a) == {}
    ensures Total([], ViewsOf(a)) == Total([], LikesOf(a)) == 0
  {
  }

  lemma {:induction false} HandledIsAsked(db0: Db, shardCount: nat, actions: seq<Action>, states: seq<Sys>, n: nat, a: nat)
    requires IsRun(db0, shardCount, actions, states) && n < |states| && shardCount > 0 && a != 0
    ensures Total(states[n].handled, ViewsOf(a)) == |AskedViews(actions, n, a)|
    ensures Total(states[n].handled, LikesOf(a))
         == |AskedLikes(actions, n, a)| - |AskedUnlikes(actions, n, a)| + GivenDeltas(actions, n, a)
    ensures |states[n].shards| == shardCount
  {
    hide Step, Total, AskedViews, AskedLikes, AskedUnlikes, ViewsOf, LikesOf;
    if n == 0 {
      NothingAsked(actions, a);
    } else {
      HandledIsAsked(db0, shardCount, actions, states, n - 1, a);
      ViewsMore(actions, n - 1, a);
      LikesMore(actions, n - 1, a);
      UnlikesMore(actions, n - 1, a);
      HandledStep(states[n - 1], actions[n - 1], a);
    }
  }

  /**
    Views and likes by what was delivered: table and pending together are the initial count, plus
    one for every view; and for likes, plus one for every anonymous like and every row that is
    new, minus one or plus what it says for every unlike.
   */
  lemma EveryMessageCounts(db0: Db, shardCount: nat, actions: seq<Action>, states: seq<Sys>, n: nat, a: nat)
    requires IsRun(db0, shardCount, actions, states) && n < |states| && shardCount > 0 && a != 0 && a in db0.views && a in db0.likes
    ensures var s := states[n];
            && a in s.db.views && a in s.db.likes
            && s.db.views[a] + Get(Pending(s).views, a) == db0.views[a]
               + |set i | 0 <= i < n && actions[i].Handle? && actions[i].m.kind == View && actions[i].m.article == a|
            && s.db.likes[a] + Get(Pending(s).likes, a) == db0.likes[a]
               + |set i | 0 <= i < n && actions[i].Handle? && actions[i].m.kind == Like && actions[i].m.user == 0 && actions[i].m.article == a|
               - |set i | 0 <= i < n && actions[i].Handle? && actions[i].m.kind == Unlike && actions[i].m.likeDelta.None? && actions[i].m.article == a|
               + GivenDeltas(actions, n, a)
               + |set p | p in s.db.rows && p.article == a| - |set p | p in db0.rows && p.article == a|
               + Total(s.removals, RowsGone(a))
  {
    hide Total, RowsGone, Pending, Step;
    RunLength(db0, shardCount, actions, states);
    CountsConserved(db0, shardCount, actions, states, n, a);
    HandledIsAsked(db0, shardCount, actions, states, n, a);
    hide IsRun;
    var s := states[n];
    assert AskedViews(actions, n, a)
        == set i | 0 <= i < n && actions[i].Handle? && actions[i].m.kind == View && actions[i].m.article == a;
    assert AskedLikes(actions, n, a)
        == set i | 0 <= i < n && actions[i].Handle? && actions[i].m.kind == Like && actions[i].m.user == 0 && actions[i].m.article == a;
    assert AskedUnlikes(actions, n, a)
        == set i | 0 <= i < n && actions[i].Handle? && actions[i].m.kind == Unlike && actions[i].m.likeDelta.None? && actions[i].m.article == a;
    assert OnArticle(s.db.rows, a) == set p | p in s.db.rows && p.article == a;
    assert OnArticle(db0.rows, a) == set p | p in db0.rows && p.article == a;
  }

  lemma RunLength(db0: Db, shardCount: nat, actions: seq<Action>, states: seq<Sys>)
    requires IsRun(db0, shardCount, actions, states)
    ensures |states| == |actions| + 1
  {
  }

  /** A buffer mentions the article, as a count or in a like or unlike pair. */
  predicate Mentions(b: Buf, a: nat) {
    a in b.views || a in b.likes || (exists p :: p in b.ins && p.article == a) || (exists p :: p in b.del && p.article == a)
  }

  /** A shard holds something of the article, in its buffer or in a drained one. */
  predicate Holds(sh: Shard, a: nat) {
    Mentions(sh.live, a) || exists j :: 0 <= j < |sh.flights| && Mentions(sh.flights[j], a)
  }

  /** Two shards never hold anything of the same article. */
  lemma ShardsShareNothing(db0: Db, shardCount: nat, actions: seq<Action>, states: seq<Sys>, n: nat, i: nat, j: nat, a: nat)
    requires IsRun(db0, shardCount, actions, states) && n < |states|
    requires i < shardCount && j < shardCount && |states[n].shards| == shardCount
    requires Holds(states[n].shards[i], a) && Holds(states[n].shards[j], a)
    ensures i == j
  {
    RunKeeps(db0, shardCount, actions, states, n);
    HeldIsOwned(states[n], i, a);
    HeldIsOwned(states[n], j, a);
  }

  lemma HeldIsOwned(s: Sys, i: nat, a: nat)
    requires KeysOk(s) && i < |s.shards| && Holds(s.shards[i], a)
    ensures ShardIndex(a, |s.shards|) == i
  {
  }

  lemma {:induction false} TotalZero<T>(xs: seq<T>, w: T -> int)
    requires forall i :: 0 <= i < |xs| ==> w(xs[i]) == 0
    ensures Total(xs, w) == 0
  {
    if xs != [] {
      TotalZero(xs[..|xs| - 1], w);
    }
  }

  lemma {:induction false} TotalOnly<T>(xs: seq<T>, k: nat, w: T -> int)
    requires k < |xs| && forall i :: 0 <= i < |xs| && i != k ==> w(xs[i]) == 0
    ensures Total(xs, w) == w(xs[k])
  {
    var n := |xs| - 1;
    if k == n { TotalZero(xs[..n], w); } else { TotalOnly(xs[..n], k, w); }
  }

  lemma StrangersHoldNothing(s: Sys, i: nat, a: nat)
    requires KeysOk(s) && i < |s.shards| && ShardIndex(a, |s.shards|) != i
    ensures Get(Whole(s.shards[i]).views, a) == 0 && Get(Whole(s.shards[i]).likes, a) == 0
  {
    var sh := s.shards[i];
    assert Owns(sh.live, |s.shards|, i);
    forall j | 0 <= j < |sh.flights| ensures a !in sh.flights[j].views && a !in sh.flights[j].likes {
      assert Owns(sh.flights[j], |s.shards|, i);
    }
    hide KeysOk, Owns;
    MergeAllCounts(sh.flights, a);
    TotalZero(sh.flights, (b: Buf) => Get(b.views, a));
    TotalZero(sh.flights, (b: Buf) => Get(b.likes, a));
  }

  /** So what is still to be written of an article is what its own shard holds. */
  lemma PendingIsInItsShard(db0: Db, shardCount: nat, actions: seq<Action>, states: seq<Sys>, n: nat, a: nat)
    requires IsRun(db0, shardCount, actions, states) && n < |states| && shardCount > 0 && |states[n].shards| == shardCount
    ensures var whole := Whole(states[n].shards[ShardIndex(a, shardCount)]);
            && Get(Pending(states[n]).views, a) == Get(whole.views, a)
            && Get(Pending(states[n]).likes, a) == Get(whole.likes, a)
  {
    RunKeeps(db0, shardCount, actions, states, n);
    hide IsRun, KeysOk, Whole, MergeAll, ShardIndex, Balanced, TablesOk;
    var s, k := states[n], ShardIndex(a, shardCount);
    var bs := Wholes(s.shards);
    forall i | 0 <= i < |bs| && i != k ensures Get(bs[i].views, a) == 0 && Get(bs[i].likes, a) == 0 {
      StrangersHoldNothing(s, i, a);
    }
    MergeAllCounts(bs, a);
    TotalOnly(bs, k, (b: Buf) => Get(b.views, a));
    TotalOnly(bs, k, (b: Buf) => Get(b.likes, a));
  }
}
