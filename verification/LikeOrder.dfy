/**
  The like rows against the order of the messages, over whole runs: buffers are swapped, flushed,
  and merged back after a failure at any time, with one flush at a time in every shard.
 */
module LikeOrder {
  import opened Common
  import opened Counts
  import opened StatsSpec
  import opened StatsWorker
  import opened WriteBehind

  /** Every shard has one goroutine that flushes it. */
  predicate OneFlushEach(s: Sys) {
    forall k :: 0 <= k < |s.shards| ==> |s.shards[k].flights| <= 1
  }

  /** Whether the pair has a row after one flush of b. */
  predicate RowAfter(b: Buf, before: bool, p: Pair) {
    p !in b.del && (before || p in b.ins)
  }

  lemma FlushedRow(db: Db, b: Buf, p: Pair)
    requires ValidPair(p)
    ensures p in Flushed(db, b).rows <==> RowAfter(b, p in db.rows, p)
  {
  }

  /** Whether the pair will have a row once its shard has written all it holds. */
  predicate Coming(sh: Shard, rows: set<Pair>, p: Pair) {
    RowAfter(sh.live, if sh.flights == [] then p in rows else RowAfter(sh.flights[0], p in rows, p), p)
  }

  predicate NoDelete(sh: Shard, p: Pair) {
    p !in sh.live.del && forall j :: 0 <= j < |sh.flights| ==> p !in sh.flights[j].del
  }

  /** A row that is coming was asked for; and without any unlike, nothing else is coming. */
  predicate OnCourse(sh: Shard, rows: set<Pair>, handled: seq<Msg>, before: bool, p: Pair) {
    && (Coming(sh, rows, p) ==> LikedAfter(handled, before, p))
    && (!Unlikes(handled, p) ==> NoDelete(sh, p) && (Coming(sh, rows, p) <==> LikedAfter(handled, before, p)))
  }

  predicate About(m: Msg, p: Pair) {
    m.user == p.user && m.article == p.article && (m.kind == Like || m.kind == Unlike)
  }

  lemma OneMoreMessage(msgs: seq<Msg>, m: Msg, before: bool, p: Pair)
    ensures LikedAfter(msgs + [m], before, p) <==> if About(m, p) then m.kind == Like else LikedAfter(msgs, before, p)
    ensures Unlikes(msgs + [m], p) <==> Unlikes(msgs, p) || (About(m, p) && m.kind == Unlike)
  {
    var all := msgs + [m];
    assert all[..|msgs|] == msgs;
    if Unlikes(msgs, p) {
      var i :| 0 <= i < |msgs| && msgs[i].kind == Unlike && msgs[i].user == p.user && msgs[i].article == p.article;
      assert all[i] == msgs[i];
    }
    assert all[|msgs|] == m;
  }

  lemma AppliedPairs(b: Buf, m: Msg, p: Pair)
    requires ValidPair(p)
    ensures p in Applied(b, m).ins <==> p in b.ins || (About(m, p) && m.kind == Like)
    ensures p in Applied(b, m).del <==> p in b.del || (About(m, p) && m.kind == Unlike)
  {
  }

  lemma HandleOnCourse(sh: Shard, rows: set<Pair>, handled: seq<Msg>, before: bool, p: Pair, m: Msg)
    requires ValidPair(p) && OnCourse(sh, rows, handled, before, p)
    ensures OnCourse(sh.(live := Applied(sh.live, m)), rows, handled + [m], before, p)
    ensures !About(m, p) ==> OnCourse(sh, rows, handled + [m], before, p)
  {
    hide Applied, LikedAfter, Unlikes;
    OneMoreMessage(handled, m, before, p);
    AppliedPairs(sh.live, m, p);
  }

  ghost predicate PairOnCourse(db0: Db, s: Sys, p: Pair) {
    var k := ShardIndex(p.article, |s.shards|);
    k < |s.shards| && OnCourse(s.shards[k], s.db.rows, s.handled, p in db0.rows, p)
  }

  /** Another shard's flush has nothing to do with the pair. */
  lemma StrangerFlush(s: Sys, i: nat, j: nat, p: Pair)
    requires KeysOk(s) && ValidPair(p) && i < |s.shards| && j < |s.shards[i].flights| && i != ShardIndex(p.article, |s.shards|)
    ensures p in Flushed(s.db, s.shards[i].flights[j]).rows <==> p in s.db.rows
  {
    assert Owns(s.shards[i].flights[j], |s.shards|, i);
    FlushedRow(s.db, s.shards[i].flights[j], p);
  }

  lemma SameRowOnCourse(sh: Shard, rows: set<Pair>, rows': set<Pair>, handled: seq<Msg>, before: bool, p: Pair)
    requires OnCourse(sh, rows, handled, before, p) && (p in rows <==> p in rows')
    ensures OnCourse(sh, rows', handled, before, p)
  {
  }

  /** Swapping, writing or taking back the one drained buffer. */
  lemma OwnFlushOnCourse(sh: Shard, db: Db, handled: seq<Msg>, before: bool, p: Pair)
    requires ValidPair(p) && OnCourse(sh, db.rows, handled, before, p)
    ensures sh.flights == [] ==> OnCourse(Shard(EMPTY, [sh.live]), db.rows, handled, before, p)
    ensures |sh.flights| == 1 ==> OnCourse(sh.(flights := []), Flushed(db, sh.flights[0]).rows, handled, before, p)
    ensures |sh.flights| == 1 ==> OnCourse(Shard(Merged(sh.live, sh.flights[0]), []), db.rows, handled, before, p)
  {
    hide LikedAfter, Unlikes;
    if |sh.flights| == 1 { FlushedRow(db, sh.flights[0], p); }
    hide Flushed;
  }

  lemma StepOnCourse(db0: Db, s: Sys, a: Action, p: Pair)
    requires ValidPair(p) && KeysOk(s) && OneFlushEach(s) && OneFlushEach(Step(s, a)) && PairOnCourse(db0, s, p)
    ensures PairOnCourse(db0, Step(s, a), p)
  {
    var n := |s.shards|;
    var k := ShardIndex(p.article, n);
    var sh, s' := s.shards[k], Step(s, a);
    var before := p in db0.rows;
    match a {
      case Handle(m) =>
        HandleOnCourse(sh, s.db.rows, s.handled, before, p, m);
      case Swap(i) =>
        OwnFlushOnCourse(sh, s.db, s.handled, before, p);
        if i == k && s' != s {
          assert s'.shards[k].flights == sh.flights + [sh.live] && |sh.flights| == 0;
          assert s'.shards[k] == Shard(EMPTY, [sh.live]);
        }
      case FlushCommits(i, j) =>
        if s' != s {
          OwnFlushOnCourse(sh, s.db, s.handled, before, p);
          if i == k {
            assert Without(sh.flights, j) == [] && sh.flights[j] == sh.flights[0];
          } else {
            StrangerFlush(s, i, j, p);
            SameRowOnCourse(sh, s.db.rows, s'.db.rows, s.handled, before, p);
          }
        }
      case FlushFails(i, j) =>
        OwnFlushOnCourse(sh, s.db, s.handled, before, p);
        if i == k && s' != s {
          assert Without(sh.flights, j) == [] && sh.flights[j] == sh.flights[0];
        }
    }
  }

  predicate OneFlushThroughout(states: seq<Sys>) {
    forall i :: 0 <= i < |states| ==> OneFlushEach(states[i])
  }

  lemma {:induction false} RunOnCourse(db0: Db, shardCount: nat, actions: seq<Action>, states: seq<Sys>, n: nat, p: Pair)
    requires ValidPair(p) && shardCount > 0 && IsRun(db0, shardCount, actions, states) && n < |states|
    requires OneFlushThroughout(states)
    ensures PairOnCourse(db0, states[n], p)
  {
    hide Step, KeysOk, OneFlushEach, OnCourse;
    if n == 0 {
      StartOnCourse(db0, shardCount, p);
    } else {
      RunOnCourse(db0, shardCount, actions, states, n - 1, p);
      RunKeeps(db0, shardCount, actions, states, n - 1);
      var a := actions[n - 1];
      StepOnCourse(db0, states[n - 1], a, p);
    }
  }

  lemma StartOnCourse(db0: Db, shardCount: nat, p: Pair)
    requires shardCount > 0
    ensures PairOnCourse(db0, Start(db0, shardCount), p)
  {
  }

  /** A run that has handled exactly these messages and left nothing to write in the pair's shard. */
  ghost predicate Settled(db0: Db, shardCount: nat, actions: seq<Action>, states: seq<Sys>, msgs: seq<Msg>, p: Pair) {
    && IsRun(db0, shardCount, actions, states)
    && OneFlushThroughout(states)
    && var s := states[|actions|];
       var k := ShardIndex(p.article, shardCount);
       && s.handled == msgs && k < |s.shards| && s.shards[k] == Shard(EMPTY, [])
  }

  /** Whether the pair's row is there once a run has settled. */
  predicate RowAtEnd(states: seq<Sys>, p: Pair) {
    states != [] && p in states[|states| - 1].db.rows
  }

  // ---------- the run that loses a like ----------

  lemma Extend(db0: Db, shardCount: nat, actions: seq<Action>, states: seq<Sys>, a: Action)
    requires IsRun(db0, shardCount, actions, states)
    ensures IsRun(db0, shardCount, actions + [a], states + [Step(states[|actions|], a)])
  {
    hide Step;
    var actions', states' := actions + [a], states + [Step(states[|actions|], a)];
    forall i {:trigger actions'[i]} | 0 <= i < |actions'| ensures states'[i + 1] == Step(states'[i], actions'[i]) {
      if i < |actions| {
        assert actions'[i] == actions[i];
      }
    }
  }

  lemma Throughout(states: seq<Sys>, s: Sys)
    requires OneFlushThroughout(states) && OneFlushEach(s)
    ensures OneFlushThroughout(states + [s])
  {
  }

  predicate AllAccepted(msgs: seq<Msg>) {
    forall i :: 0 <= i < |msgs| ==> msgs[i].Accepted()
  }

  predicate NoFlights(s: Sys) {
    forall k :: 0 <= k < |s.shards| ==> s.shards[k].flights == []
  }

  lemma {:induction false} HandleAll(db0: Db, shardCount: nat, msgs: seq<Msg>, p: Pair) returns (actions: seq<Action>, states: seq<Sys>)
    requires shardCount > 0 && AllAccepted(msgs) && ValidPair(p)
    ensures IsRun(db0, shardCount, actions, states) && OneFlushThroughout(states)
    ensures var s := states[|actions|];
            var k := ShardIndex(p.article, shardCount);
            && |s.shards| == shardCount && NoFlights(s) && s.handled == msgs && s.db == db0
            && (p in s.shards[k].live.del <==> Unlikes(msgs, p))
  {
    if msgs == [] {
      actions, states := [], [Start(db0, shardCount)];
    } else {
      var n := |msgs| - 1;
      var m := msgs[n];
      actions, states := HandleAll(db0, shardCount, msgs[..n], p);
      var s := states[|actions|];
      HandleOne(s, m, p, msgs[..n]);
      Extend(db0, shardCount, actions, states, Handle(m));
      hide Step, Unlikes, OneFlushEach, NoFlights;
      assert msgs == msgs[..n] + [m];
      Throughout(states, Step(s, Handle(m)));
      actions, states := actions + [Handle(m)], states + [Step(s, Handle(m))];
    }
  }

  lemma HandleOne(s: Sys, m: Msg, p: Pair, msgs: seq<Msg>)
    requires m.Accepted() && ValidPair(p) && s.shards != [] && NoFlights(s) && s.handled == msgs
    requires p in s.shards[ShardIndex(p.article, |s.shards|)].live.del <==> Unlikes(msgs, p)
    ensures var s' := Step(s, Handle(m));
            && |s'.shards| == |s.shards| && NoFlights(s') && OneFlushEach(s') && s'.handled == msgs + [m] && s'.db == s.db
            && (p in s'.shards[ShardIndex(p.article, |s.shards|)].live.del <==> Unlikes(msgs + [m], p))
  {
    var k := ShardIndex(p.article, |s.shards|);
    OneMoreMessage(msgs, m, false, p);
    AppliedPairs(s.shards[k].live, m, p);
    hide Applied, Unlikes;
  }

  /** Everything in one window: a pair that was unliked at any point ends up without a row. */
  lemma OneWindow(db0: Db, shardCount: nat, msgs: seq<Msg>, p: Pair) returns (actions: seq<Action>, states: seq<Sys>)
    requires shardCount > 0 && AllAccepted(msgs) && ValidPair(p) && Unlikes(msgs, p)
    ensures Settled(db0, shardCount, actions, states, msgs, p) && !RowAtEnd(states, p)
  {
    actions, states := HandleAll(db0, shardCount, msgs, p);
    var k := ShardIndex(p.article, shardCount);
    var s0 := states[|actions|];
    var s1 := Step(s0, Swap(k));
    var s2 := Step(s1, FlushCommits(k, 0));
    WindowCloses(s0, k, p);
    hide Step, Unlikes, OneFlushEach, NoFlights, Flushed;
    Extend(db0, shardCount, actions, states, Swap(k));
    Throughout(states, s1);
    actions, states := actions + [Swap(k)], states + [s1];
    Extend(db0, shardCount, actions, states, FlushCommits(k, 0));
    Throughout(states, s2);
    actions, states := actions + [FlushCommits(k, 0)], states + [s2];
  }

  lemma WindowCloses(s: Sys, k: nat, p: Pair)
    requires ValidPair(p) && NoFlights(s) && k < |s.shards| && p in s.shards[k].live.del
    ensures var s1 := Step(s, Swap(k));
            var s2 := Step(s1, FlushCommits(k, 0));
            && OneFlushEach(s1) && OneFlushEach(s2)
            && s2.handled == s.handled && k < |s2.shards| && s2.shards[k] == Shard(EMPTY, []) && p !in s2.db.rows
  {
    var s1 := Step(s, Swap(k));
    assert s1.shards[k] == Shard(EMPTY, [s.shards[k].live]);
    assert Without([s.shards[k].live], 0) == [];
    FlushedRow(s.db, s.shards[k].live, p);
    hide Flushed, Applied;
  }

  /**
    Once everything is written, a like row is what the messages asked for, in every run that
    handled them, exactly when the pair was never unliked or ends up unliked.  It takes no more
    than one late flush to lose a like that came after an unlike.
   */
  lemma RowsFollowOrderIff(db0: Db, shardCount: nat, msgs: seq<Msg>, p: Pair)
    requires shardCount > 0 && AllAccepted(msgs) && ValidPair(p)
    ensures (forall actions, states :: Settled(db0, shardCount, actions, states, msgs, p)
                                   ==> (RowAtEnd(states, p) <==> LikedAfter(msgs, p in db0.rows, p)))
       <==> !(Unlikes(msgs, p) && LikedAfter(msgs, p in db0.rows, p))
  {
    hide Settled, Unlikes, LikedAfter, RowAtEnd;
    if Unlikes(msgs, p) && LikedAfter(msgs, p in db0.rows, p) {
      var actions, states := OneWindow(db0, shardCount, msgs, p);
    } else {
      forall actions, states | Settled(db0, shardCount, actions, states, msgs, p)
        ensures RowAtEnd(states, p) <==> LikedAfter(msgs, p in db0.rows, p)
      {
        SettledRow(db0, shardCount, actions, states, msgs, p);
      }
    }
  }

  lemma SettledRow(db0: Db, shardCount: nat, actions: seq<Action>, states: seq<Sys>, msgs: seq<Msg>, p: Pair)
    requires shardCount > 0 && ValidPair(p) && Settled(db0, shardCount, actions, states, msgs, p)
    requires !(Unlikes(msgs, p) && LikedAfter(msgs, p in db0.rows, p))
    ensures RowAtEnd(states, p) <==> LikedAfter(msgs, p in db0.rows, p)
  {
    hide Unlikes, LikedAfter, KeysOk, Balanced, TablesOk;
    RunOnCourse(db0, shardCount, actions, states, |actions|, p);
    RunKeeps(db0, shardCount, actions, states, |actions|);
  }
}
