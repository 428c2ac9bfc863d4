/**
  Comment like counts: the worker writes a snapshot of its buffer and subtracts the snapshot
  afterwards, while messages keep arriving in between.
 */
module CommentStats {
  import opened Common
  import opened Counts

  datatype Kind = Like | Unlike | Unknown

  datatype Msg = Msg(kind: Kind, comment: nat)
  {
    predicate Accepted() { comment != 0 && kind != Unknown }

    function Delta(): int { if kind == Like then 1 else if kind == Unlike then -1 else 0 }
  }

  /** The buffer after a written snapshot is taken off: entries that reach zero are deleted. */
  function Subtracted(live: Counts, snap: Counts): Counts {
    map k | k in live.Keys + snap.Keys && (k in snap ==> Get(live, k) != snap[k]) :: Get(live, k) - Get(snap, k)
  }

  class CommentStatsWorker {
    var likeBuffer: Counts

    constructor ()
      ensures likeBuffer == map[]
    {
      likeBuffer := map[];
    }

    method HandleMessage(msg: Msg)
      modifies this
      ensures likeBuffer == if msg.Accepted() then Bump(old(likeBuffer), msg.comment, msg.Delta()) else old(likeBuffer)
      ensures msg.comment != 0 && msg.kind == Like ==> Get(likeBuffer, msg.comment) == Get(old(likeBuffer), msg.comment) + 1
      ensures msg.comment != 0 && msg.kind == Unlike ==> Get(likeBuffer, msg.comment) == Get(old(likeBuffer), msg.comment) - 1
      ensures msg.comment == 0 || msg.kind == Unknown ==> likeBuffer == old(likeBuffer)
      ensures forall k :: k != msg.comment ==> Get(likeBuffer, k) == Get(old(likeBuffer), k)
    {
      if msg.comment == 0 {
        return;
      }
      match msg.kind {
        case Like => likeBuffer := Bump(likeBuffer, msg.comment, 1);
        case Unlike => likeBuffer := Bump(likeBuffer, msg.comment, -1);
        case Unknown => return;
      }
    }

    /** The first critical section of a flush. */
    method Snapshot() returns (buf: Counts)
      ensures buf == likeBuffer
    {
      buf := AddInto(map[], likeBuffer);
      assert Sum(map[], likeBuffer) == likeBuffer;
    }

    /** The last critical section of a flush whose write committed. */
    method Subtract(buf: Counts)
      modifies this
      ensures likeBuffer == Subtracted(old(likeBuffer), buf)
      ensures forall k :: Get(likeBuffer, k) == Get(old(likeBuffer), k) - Get(buf, k)
      ensures forall k :: k in buf && k in likeBuffer ==> likeBuffer[k] != 0
      ensures forall k :: k !in buf ==> (k in likeBuffer <==> k in old(likeBuffer))
    {
      ghost var live := likeBuffer;
      var todo := buf.Keys;
      while todo != {}
        invariant todo <= buf.Keys
        invariant forall k :: k in likeBuffer <==>
          if k in todo || k !in buf then k in live else Get(live, k) != buf[k]
        invariant forall k :: k in likeBuffer ==>
          likeBuffer[k] == Get(live, k) - if k in todo then 0 else Get(buf, k)
      {
        var id :| id in todo;
        todo := todo - {id};
        likeBuffer := Bump(likeBuffer, id, -buf[id]);
        if likeBuffer[id] == 0 {
          likeBuffer := likeBuffer - {id};
        }
      }
      forall k ensures k in likeBuffer <==> k in Subtracted(live, buf) {
      }
    }

    /** A whole flush with nothing in between. */
    method Flush(table: Counts, commits: bool) returns (written: Counts)
      modifies this
      ensures written == if commits then Updated(table, old(likeBuffer)) else table
      ensures likeBuffer == if commits then map[] else old(likeBuffer)
      ensures written.Keys == table.Keys
      ensures forall id :: id in table ==> written[id] == table[id] + if commits then Get(old(likeBuffer), id) else 0
    {
      var buf := Snapshot();
      if buf == map[] {
        assert Updated(table, map[]) == table;
        return table;
      }
      written := UpdateRows(table, buf);
      if !commits {
        return table;
      }
      Subtract(buf);
    }
  }

  // ---------- the worker under concurrency ----------

  /** A snapshot taken by a flush: not yet written, or written and not yet subtracted. */
  datatype Flight = Flight(snap: Counts, written: bool)

  datatype Sys = Sys(db: Counts, live: Counts, flights: seq<Flight>, handled: seq<Msg>)

  datatype Action = Handle(m: Msg) | TakeSnapshot | WriteCommits(flight: nat) | WriteFails(flight: nat) | SubtractWritten(flight: nat)

  function Step(s: Sys, a: Action): Sys {
    match a
    case Handle(m) =>
      if m.Accepted() then s.(live := Bump(s.live, m.comment, m.Delta()), handled := s.handled + [m]) else s
    case TakeSnapshot =>
      if s.live == map[] then s else s.(flights := s.flights + [Flight(s.live, false)])
    case WriteCommits(i) =>
      if i >= |s.flights| || s.flights[i].written then s
      else s.(db := Updated(s.db, s.flights[i].snap), flights := s.flights[i := Flight(s.flights[i].snap, true)])
    case WriteFails(i) =>
      if i >= |s.flights| || s.flights[i].written then s
      else s.(flights := Without(s.flights, i))
    case SubtractWritten(i) =>
      if i >= |s.flights| || !s.flights[i].written then s
      else s.(live := Subtracted(s.live, s.flights[i].snap), flights := Without(s.flights, i))
  }

  ghost predicate IsRun(db0: Counts, actions: seq<Action>, states: seq<Sys>) {
    && |states| == |actions| + 1
    && states[0] == Sys(db0, map[], [], [])
    && forall i {:trigger actions[i]} :: 0 <= i < |actions| ==> states[i + 1] == Step(states[i], actions[i])
  }

  function DeltaOf(id: nat): Msg -> int { (m: Msg) => if m.comment == id then m.Delta() else 0 }

  /** Counted twice for the moment: in the table and still in the buffer. */
  function Overlap(id: nat): Flight -> int { (f: Flight) => if f.written then Get(f.snap, id) else 0 }

  predicate Conserved(db0: Counts, s: Sys, id: nat)
    requires id in db0 && id in s.db
  {
    s.db[id] + Get(s.live, id) - Total(s.flights, Overlap(id)) == db0[id] + Total(s.handled, DeltaOf(id))
  }

  lemma TotalSplit(fs: seq<Flight>, i: nat, f: Flight, w: Flight -> int)
    requires i < |fs|
    ensures Total(fs[i := f], w) == Total(Without(fs, i), w) + w(f)
  {
    assert fs[i := f] == fs[..i] + [f] + fs[i + 1..];
    TotalConcat(fs[..i] + [f], fs[i + 1..], w);
    TotalAppend(fs[..i], f, w);
    TotalConcat(fs[..i], fs[i + 1..], w);
  }

  lemma StepConserves(db0: Counts, s: Sys, a: Action, id: nat)
    requires id in db0 && id in s.db && Conserved(db0, s, id)
    ensures id in Step(s, a).db && Conserved(db0, Step(s, a), id)
  {
    match a {
      case Handle(m) => TotalAppend(s.handled, m, DeltaOf(id));
      case TakeSnapshot => TotalAppend(s.flights, Flight(s.live, false), Overlap(id));
      case WriteCommits(i) => LandingConserves(db0, s, a, i, id);
      case WriteFails(i) => LandingConserves(db0, s, a, i, id);
      case SubtractWritten(i) => LandingConserves(db0, s, a, i, id);
    }
  }

  lemma LandingConserves(db0: Counts, s: Sys, a: Action, i: nat, id: nat)
    requires id in db0 && id in s.db && Conserved(db0, s, id)
    requires a == WriteCommits(i) || a == WriteFails(i) || a == SubtractWritten(i)
    ensures id in Step(s, a).db && Conserved(db0, Step(s, a), id)
  {
    if i < |s.flights| {
      var f := s.flights[i];
      assert s.flights[i := f] == s.flights;
      TotalSplit(s.flights, i, f, Overlap(id));
      TotalSplit(s.flights, i, Flight(f.snap, true), Overlap(id));
      assert Get(Subtracted(s.live, f.snap), id) == Get(s.live, id) - Get(f.snap, id);
      hide Total, Without, Subtracted;
    }
  }

  /**
    In every reachable state, with any number of overlapping flushes: table + buffer, minus
    what is written but not yet subtracted, is the initial count plus every handled message.
   */
  lemma {:induction false} LikesConserved(db0: Counts, actions: seq<Action>, states: seq<Sys>, n: nat, id: nat)
    requires IsRun(db0, actions, states) && n < |states| && id in db0
    ensures id in states[n].db
    ensures states[n].db[id] + Get(states[n].live, id) - Total(states[n].flights, Overlap(id))
         == db0[id] + Total(states[n].handled, DeltaOf(id))
  {
    if n > 0 {
      LikesConserved(db0, actions, states, n - 1, id);
      var a := actions[n - 1];
      StepConserves(db0, states[n - 1], a, id);
    }
  }

  // ---------- counted by what was asked ----------

  /** How often one of the first n actions is a message of this kind on the comment. */
  ghost function Asked(actions: seq<Action>, n: nat, kind: Kind, id: nat): set<int>
    requires n <= |actions|
  {
    set i | 0 <= i < n && actions[i].Handle? && actions[i].m.kind == kind && actions[i].m.comment == id
  }

  lemma AskedMore(actions: seq<Action>, n: nat, kind: Kind, id: nat)
    requires n < |actions|
    ensures var a := actions[n];
            |Asked(actions, n + 1, kind, id)|
            == |Asked(actions, n, kind, id)| + if a.Handle? && a.m.kind == kind && a.m.comment == id then 1 else 0
  {
    var a := actions[n];
    assert Asked(actions, n + 1, kind, id)
        == Asked(actions, n, kind, id) + if a.Handle? && a.m.kind == kind && a.m.comment == id then {n as int} else {};
  }

  lemma {:induction false} HandledIsAsked(db0: Counts, actions: seq<Action>, states: seq<Sys>, n: nat, id: nat)
    requires IsRun(db0, actions, states) && n < |states| && id != 0
    ensures Total(states[n].handled, DeltaOf(id)) == |Asked(actions, n, Like, id)| - |Asked(actions, n, Unlike, id)|
  {
    hide Asked, Step, Total, DeltaOf;
    if n == 0 {
      NothingAsked(actions, id);
    } else {
      HandledIsAsked(db0, actions, states, n - 1, id);
      var a := actions[n - 1];
      AskedMore(actions, n - 1, Like, id);
      AskedMore(actions, n - 1, Unlike, id);
      HandledStep(states[n - 1], a, id);
    }
  }

  lemma HandledStep(s: Sys, a: Action, id: nat)
    requires id != 0
    ensures Total(Step(s, a).handled, DeltaOf(id)) == Total(s.handled, DeltaOf(id))
          + (if a.Handle? && a.m.kind == Like && a.m.comment == id then 1 else 0)
          - (if a.Handle? && a.m.kind == Unlike && a.m.comment == id then 1 else 0)
  {
    hide Total;
    if a.Handle? {
      TotalAppend(s.handled, a.m, DeltaOf(id));
    }
  }

  lemma NothingAsked(actions: seq<Action>, id: nat)
    ensures Asked(actions, 0, Like, id) == {} && Asked(actions, 0, Unlike, id) == {}
    ensures Total([], DeltaOf(id)) == 0
  {
  }

  /**
    Likes less unlikes: in every reachable state the table and the buffer together, less what is
    counted in both, are the initial count, plus one for each like of the comment that was
    delivered, minus one for each unlike.
   */
  lemma EveryLikeCountsOne(db0: Counts, actions: seq<Action>, states: seq<Sys>, n: nat, id: nat)
    requires IsRun(db0, actions, states) && n < |states| && id in db0 && id != 0
    ensures id in states[n].db
    ensures states[n].db[id] + Get(states[n].live, id) - Total(states[n].flights, Overlap(id))
         == db0[id] + |set i | 0 <= i < n && actions[i].Handle? && actions[i].m.kind == Like && actions[i].m.comment == id|
                    - |set i | 0 <= i < n && actions[i].Handle? && actions[i].m.kind == Unlike && actions[i].m.comment == id|
  {
    hide IsRun, Total;
    RunLength(db0, actions, states);
    LikesConserved(db0, actions, states, n, id);
    HandledIsAsked(db0, actions, states, n, id);
    assert Asked(actions, n, Like, id)
        == set i | 0 <= i < n && actions[i].Handle? && actions[i].m.kind == Like && actions[i].m.comment == id;
    assert Asked(actions, n, Unlike, id)
        == set i | 0 <= i < n && actions[i].Handle? && actions[i].m.kind == Unlike && actions[i].m.comment == id;
  }

  lemma RunLength(db0: Counts, actions: seq<Action>, states: seq<Sys>)
    requires IsRun(db0, actions, states)
    ensures |states| == |actions| + 1
  {
  }
}
