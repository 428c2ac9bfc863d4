/**
  The article statistics worker: one buffer per shard, flushed to the article tables.
  Each operation is proved against StatsSpec; here nothing else runs in between.
 */
module StatsWorker {
  import opened Common
  import opened Counts
  import opened StatsSpec

  function ShardIndex(article: nat, shardCount: nat): (i: nat)
    ensures shardCount > 0 ==> i < shardCount
  {
    if shardCount <= 1 then 0 else article % shardCount
  }

  function Members(s: seq<Pair>): set<Pair> {
    set p | p in s
  }

  lemma MembersAppend(s: seq<Pair>, p: Pair)
    ensures Members(s + [p]) == Members(s) + {p}
    ensures ValidOnes(Members(s + [p])) == ValidOnes(Members(s)) + if ValidPair(p) then {p} else {}
  {
  }

  /** How many of these pairs are new rows of the article. */
  function NewOn(rows: set<Pair>, pairs: set<Pair>, a: nat): nat {
    |OnArticle(pairs - rows, a)|
  }

  /** One more pair adds one row to its article, unless it was there already. */
  lemma OneMoreRow(rows: set<Pair>, done: set<Pair>, p: Pair)
    ensures forall a :: NewOn(rows, done + {p}, a) == NewOn(rows, done, a) + if a == p.article && p !in rows + done then 1 else 0
  {
    forall a ensures NewOn(rows, done + {p}, a) == NewOn(rows, done, a) + if a == p.article && p !in rows + done then 1 else 0 {
      assert OnArticle(done + {p} - rows, a) == OnArticle(done - rows, a) + if a == p.article && p !in rows + done then {p} else {};
    }
  }

  class StatsBuffer {
    var viewBuffer: Counts
    var likeBuffer: Counts
    var likeInsert: set<Pair>
    var unlikeDelete: set<Pair>

    constructor ()
      ensures Contents() == EMPTY
    {
      viewBuffer, likeBuffer, likeInsert, unlikeDelete := map[], map[], {}, {};
    }

    function Contents(): Buf
      reads this
    {
      Buf(viewBuffer, likeBuffer, likeInsert, unlikeDelete)
    }

    method Apply(msg: Msg)
      modifies this
      ensures Contents() == Applied(old(Contents()), msg)
    {
      match msg.kind {
        case View =>
          viewBuffer := Bump(viewBuffer, msg.article, 1);
        case Like =>
          if msg.user != 0 {
            likeInsert := likeInsert + {Pair(msg.user, msg.article)};
          } else {
            likeBuffer := Bump(likeBuffer, msg.article, 1);
          }
        case Unlike =>
          var delta := -1;
          if msg.likeDelta.Some? {
            delta := msg.likeDelta.value;
          }
          if delta != 0 {
            likeBuffer := Bump(likeBuffer, msg.article, delta);
          }
          if msg.user != 0 {
            unlikeDelete := unlikeDelete + {Pair(msg.user, msg.article)};
          }
        case Unknown =>
      }
    }

    method MergeFrom(other: StatsBuffer)
      requires other != this
      modifies this
      ensures Contents() == Merged(old(Contents()), other.Contents())
    {
      viewBuffer := AddInto(viewBuffer, other.viewBuffer);
      likeBuffer := AddInto(likeBuffer, other.likeBuffer);
      likeInsert := likeInsert + other.likeInsert;
      unlikeDelete := unlikeDelete + other.unlikeDelete;
    }

    method ToFlushPayload() returns (views: Counts, likes: Counts, likeRows: seq<Pair>, unlikeRows: seq<Pair>)
      ensures Contents() == Buf(views, likes, Members(likeRows), Members(unlikeRows))
    {
      views, likes := viewBuffer, likeBuffer;
      likeRows := Listed(likeInsert);
      unlikeRows := Listed(unlikeDelete);
    }
  }

  method Listed(ps: set<Pair>) returns (rows: seq<Pair>)
    ensures Members(rows) == ps
    ensures |rows| == |ps|
  {
    rows := [];
    var todo := ps;
    while todo != {}
      invariant todo <= ps
      invariant Members(rows) == ps - todo
      invariant |rows| + |todo| == |ps|
    {
      var p :| p in todo;
      MembersAppend(rows, p);
      rows := rows + [p];
      todo := todo - {p};
    }
  }

  class ArticleTables {
    var viewCount: Counts
    var likeCount: Counts
    var articleLikes: set<Pair>

    constructor (db: Db)
      ensures Contents() == db
    {
      viewCount, likeCount, articleLikes := db.views, db.likes, db.rows;
    }

    function Contents(): Db
      reads this
    {
      Db(viewCount, likeCount, articleLikes)
    }

    /** INSERT ... ON CONFLICT DO NOTHING; a row that was inserted adds one like to its article. */
    method InsertLike(mergedLike: Counts, p: Pair) returns (merged: Counts)
      modifies this`articleLikes
      ensures articleLikes == if ValidPair(p) then old(articleLikes) + {p} else old(articleLikes)
      ensures forall a :: Get(merged, a) == Get(mergedLike, a) + if ValidPair(p) && p !in old(articleLikes) && a == p.article then 1 else 0
    {
      merged := mergedLike;
      if !ValidPair(p) {
        return;
      }
      if p !in articleLikes {
        articleLikes := articleLikes + {p};
        merged := Bump(merged, p.article, 1);
      }
    }

    /** Insert the like rows, counting only those that were not there. */
    method InsertLikes(likeDeltas: Counts, newRows: seq<Pair>) returns (mergedLike: Counts)
      modifies this`articleLikes
      ensures articleLikes == old(articleLikes) + ValidOnes(Members(newRows))
      ensures forall a :: Get(mergedLike, a) == Get(likeDeltas, a) + NewOn(old(articleLikes), ValidOnes(Members(newRows)), a)
    {
      mergedLike := AddInto(map[], likeDeltas);
      ghost var rows0 := articleLikes;
      ghost var done: set<Pair> := {};
      assert forall a :: NewOn(rows0, done, a) == 0;
      assert done == ValidOnes(Members(newRows[..0]));
      assert forall a :: Get(mergedLike, a) == Get(likeDeltas, a);
      hide NewOn, Sum, OnArticle, Members, ValidOnes;
      for i := 0 to |newRows|
        invariant done == ValidOnes(Members(newRows[..i]))
        invariant forall q :: q in articleLikes <==> q in rows0 || q in done
        invariant forall a :: Get(mergedLike, a) == Get(likeDeltas, a) + NewOn(rows0, done, a)
      {
        var p := newRows[i];
        assert newRows[..i + 1] == newRows[..i] + [p];
        MembersAppend(newRows[..i], p);
        OneMoreRow(rows0, done, p);
        mergedLike := InsertLike(mergedLike, p);
        if ValidPair(p) {
          done := done + {p};
        }
      }
      assert newRows[..|newRows|] == newRows;
    }

    method DeleteLikes(unlikeRows: seq<Pair>)
      modifies this`articleLikes
      ensures articleLikes == old(articleLikes) - ValidOnes(Members(unlikeRows))
    {
      for i := 0 to |unlikeRows|
        invariant articleLikes == old(articleLikes) - ValidOnes(Members(unlikeRows[..i]))
      {
        var p := unlikeRows[i];
        assert unlikeRows[..i + 1] == unlikeRows[..i] + [p];
        MembersAppend(unlikeRows[..i], p);
        if !ValidPair(p) {
          continue;
        }
        articleLikes := articleLikes - {p};
      }
      assert unlikeRows[..|unlikeRows|] == unlikeRows;
    }

    /** One transaction: all of the flush, or nothing of it. */
    method BatchFlushArticleActions(viewDeltas: Counts, likeDeltas: Counts, newRows: seq<Pair>, unlikeRows: seq<Pair>, commits: bool)
      modifies this
      ensures Contents() == if commits then Flushed(old(Contents()), Buf(viewDeltas, likeDeltas, Members(newRows), Members(unlikeRows)))
                            else old(Contents())
      ensures commits ==> forall p :: p in articleLikes <==>
                var valid := p.user != 0 && p.article != 0;
                (p in old(articleLikes) || (valid && p in newRows)) && !(valid && p in unlikeRows)
    {
      if viewDeltas == map[] && likeDeltas == map[] && newRows == [] && unlikeRows == [] {
        ghost var b := Buf(viewDeltas, likeDeltas, Members(newRows), Members(unlikeRows));
        assert NewRows(Contents(), b) == {} && GoneRows(Contents(), b) == {};
        return;
      }
      var before := Contents();
      ghost var b := Buf(viewDeltas, likeDeltas, Members(newRows), Members(unlikeRows));
      var mergedLike := InsertLikes(likeDeltas, newRows);
      DeleteLikes(unlikeRows);
      viewCount := UpdateRows(viewCount, viewDeltas);
      likeCount := UpdateRows(likeCount, mergedLike);
      assert articleLikes == Flushed(before, b).rows;
      forall p ensures p in Flushed(before, b).rows <==>
        var valid := p.user != 0 && p.article != 0;
        (p in before.rows || (valid && p in newRows)) && !(valid && p in unlikeRows)
      {
        FlushedWrittenOut(before, b, 0, p);
      }
      if !commits {
        viewCount, likeCount, articleLikes := before.views, before.likes, before.rows;
      }
    }
  }

  class StatsShard {
    var buf: StatsBuffer

    constructor ()
      ensures fresh(buf) && buf.Contents() == EMPTY
    {
      buf := new StatsBuffer();
    }

    method SwapBuffers() returns (drained: StatsBuffer)
      modifies this
      ensures drained == old(buf) && fresh(buf) && buf.Contents() == EMPTY
    {
      drained := buf;
      buf := new StatsBuffer();
    }

    method MergeBack(b: StatsBuffer)
      requires b != buf
      modifies buf
      ensures buf.Contents() == Merged(old(buf.Contents()), b.Contents())
    {
      if b.Contents() == EMPTY {
        MergeLaws(buf.Contents(), EMPTY, EMPTY);
        return;
      }
      buf.MergeFrom(b);
    }
  }

  class StatsWorker {
    const shards: seq<StatsShard>
    const tables: ArticleTables

    constructor (tables: ArticleTables, shardCount: int)
      ensures Valid() && this.tables == tables
      ensures |shards| == (if shardCount <= 0 then 16 else shardCount)
      ensures forall i :: 0 <= i < |shards| ==> ContentsOf(i) == EMPTY
    {
      var n := if shardCount <= 0 then 16 else shardCount;
      var made: seq<StatsShard> := [];
      for i := 0 to n
        invariant |made| == i
        invariant forall j :: 0 <= j < i ==> fresh(made[j]) && fresh(made[j].buf) && made[j].buf.Contents() == EMPTY
        invariant forall j, k :: 0 <= j < k < i ==> made[j] != made[k] && made[j].buf != made[k].buf
      {
        var shard := new StatsShard();
        made := made + [shard];
      }
      this.shards, this.tables := made, tables;
    }

    ghost predicate Valid()
      reads shards
    {
      && shards != []
      && forall i, j :: 0 <= i < j < |shards| ==> shards[i] != shards[j] && shards[i].buf != shards[j].buf
    }

    ghost function Buffers(): set<StatsBuffer>
      reads shards
    {
      set i | 0 <= i < |shards| :: shards[i].buf
    }

    function ContentsOf(i: nat): Buf
      requires i < |shards|
      reads shards[i], shards[i].buf
    {
      shards[i].buf.Contents()
    }

    method HandleMessage(msg: Msg)
      requires Valid()
      modifies Buffers()
      ensures Valid()
      ensures forall i :: 0 <= i < |shards| ==>
                ContentsOf(i) == if msg.article != 0 && msg.kind != Unknown
                                    && i == (if |shards| == 1 then 0 else msg.article % |shards|)
                                 then Applied(old(ContentsOf(i)), msg) else old(ContentsOf(i))
    {
      if !msg.Accepted() {
        return;
      }
      var k := ShardIndex(msg.article, |shards|);
      var b := shards[k].buf;
      assert b in Buffers();
      b.Apply(msg);
    }

    /** A flush that fails puts back exactly what it took. */
    method FlushShard(k: nat, commits: bool)
      requires Valid() && k < |shards|
      modifies shards[k], shards[k].buf, tables
      ensures Valid()
      ensures ContentsOf(k) == if commits then EMPTY else old(ContentsOf(k))
      ensures forall i :: 0 <= i < |shards| && i != k ==> ContentsOf(i) == old(ContentsOf(i))
      ensures tables.Contents() == if commits && old(ContentsOf(k)) != EMPTY
                                   then Flushed(old(tables.Contents()), old(ContentsOf(k))) else old(tables.Contents())
    {
      var drained := shards[k].SwapBuffers();
      if drained.Contents() == EMPTY {
        return;
      }
      var views, likes, likeRows, unlikeRows := drained.ToFlushPayload();
      tables.BatchFlushArticleActions(views, likes, likeRows, unlikeRows, commits);
      if !commits {
        MergeLaws(EMPTY, drained.Contents(), EMPTY);
        shards[k].MergeBack(drained);
      }
    }
  }
}
