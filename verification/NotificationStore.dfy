/**
  The buffered notification store: messages are appended to a shared buffer, flushers copy it
  out, and a failed batch is put back in front.
 */
module NotificationStore {
  import opened Common

  datatype Notification = Notification(eventId: nat, userId: nat, content: string)

  predicate HasEvent(rows: seq<Notification>, e: nat) {
    exists i :: 0 <= i < |rows| && rows[i].eventId == e
  }

  /** INSERT ... ON CONFLICT (event_id) DO NOTHING, row by row. */
  function Inserted(table: seq<Notification>, batch: seq<Notification>): seq<Notification> {
    if batch == [] then table
    else
      var t := Inserted(table, batch[..|batch| - 1]);
      var n := batch[|batch| - 1];
      if HasEvent(t, n.eventId) then t else t + [n]
  }

  predicate DistinctEvents(table: seq<Notification>) {
    forall i, j :: 0 <= i < j < |table| ==> table[i].eventId != table[j].eventId
  }

  // ---------- the buffer as memory ----------

  class NotificationBuffer {
    const batchSize: nat := 500
    var buffer: array<Notification>
    var len: nat
    ghost var inFlight: set<array<Notification>>

    /** No batch in flight shares the buffer's backing array. */
    ghost predicate Valid()
      reads this
    {
      len <= buffer.Length && buffer !in inFlight
    }

    function Contents(): seq<Notification>
      requires len <= buffer.Length
      reads this, buffer
    {
      buffer[..len]
    }

    constructor ()
      ensures Valid() && Contents() == [] && inFlight == {}
    {
      buffer := new Notification[512];
      len, inFlight := 0, {};
    }

    /** h.buffer = append(h.buffer, n): in place while there is room. */
    method Append(n: Notification) returns (shouldFlush: bool)
      requires Valid()
      modifies this, buffer
      ensures Valid() && inFlight == old(inFlight)
      ensures Contents() == old(Contents()) + [n]
      ensures shouldFlush <==> |Contents()| >= 500
    {
      if len == buffer.Length {
        var grown := new Notification[2 * len + 1];
        for i := 0 to len
          invariant grown[..i] == buffer[..i]
          modifies grown
        {
          grown[i] := buffer[i];
        }
        buffer := grown;
      }
      assert buffer[..len] == old(Contents());
      buffer[len] := n;
      len := len + 1;
      shouldFlush := len >= batchSize;
    }

    /** Copy the buffer out and empty it; the backing array stays in use. */
    method TakeBatch() returns (batch: array<Notification>)
      requires Valid()
      modifies this
      ensures Valid() && fresh(batch) && inFlight == old(inFlight) + {batch}
      ensures batch[..] == old(Contents()) && Contents() == []
      ensures buffer == old(buffer)
    {
      batch := new Notification[len];
      for i := 0 to len
        invariant batch[..i] == buffer[..i]
        modifies batch
      {
        batch[i] := buffer[i];
      }
      len := 0;
      inFlight := inFlight + {batch};
    }

    /** h.buffer = append(batch, h.buffer...): the batch is full, so only an empty buffer lets it be reused. */
    method PutBack(batch: array<Notification>)
      requires Valid() && batch in inFlight
      modifies this
      ensures Valid() && inFlight == old(inFlight) - {batch}
      ensures Contents() == old(batch[..]) + old(Contents())
    {
      if len == 0 {
        buffer, len := batch, batch.Length;
      } else {
        var joined := new Notification[batch.Length + len];
        for i := 0 to batch.Length
          invariant joined[..i] == batch[..i]
          modifies joined
        {
          joined[i] := batch[i];
        }
        for i := 0 to len
          invariant joined[..batch.Length] == batch[..] && joined[batch.Length..batch.Length + i] == buffer[..i]
          modifies joined
        {
          joined[batch.Length + i] := buffer[i];
        }
        assert joined[..batch.Length + len] == batch[..] + buffer[..len];
        len := batch.Length + len;
        buffer := joined;
      }
      inFlight := inFlight - {batch};
    }

    /** The insert transaction. */
    static method BatchCreate(table: seq<Notification>, batch: array<Notification>) returns (t: seq<Notification>)
      ensures t == Inserted(table, batch[..])
    {
      t := table;
      for i := 0 to batch.Length
        invariant t == Inserted(table, batch[..i])
      {
        assert batch[..i + 1][..i] == batch[..i];
        if !HasEvent(t, batch[i].eventId) {
          t := t + [batch[i]];
        }
      }
      assert batch[..batch.Length] == batch[..];
    }

    /** A whole flush with nothing in between: a failed one restores the buffer. */
    method Flush(table: seq<Notification>, commits: bool) returns (t: seq<Notification>)
      requires Valid()
      modifies this
      ensures Valid() && (!commits ==> inFlight == old(inFlight))
      ensures t == if commits then Inserted(table, old(Contents())) else table
      ensures Contents() == if commits then [] else old(Contents())
    {
      var batch := TakeBatch();
      if batch.Length == 0 {
        inFlight := inFlight - {batch};
        return table;
      }
      t := BatchCreate(table, batch);
      if !commits {
        PutBack(batch);
        return table;
      }
    }
  }

  // ---------- any number of flushers ----------

  datatype Sys = Sys(
    table: seq<Notification>,
    buffer: seq<Notification>,
    flights: seq<seq<Notification>>,
    accepted: seq<Notification>,     // every message taken from Kafka, redeliveries included
    written: seq<Notification>)      // batches whose insert committed, in commit order

  datatype Action = Accept(n: Notification) | Take | Commits(flight: nat) | Fails(flight: nat)

  function Step(s: Sys, a: Action): Sys {
    match a
    case Accept(n) => s.(buffer := s.buffer + [n], accepted := s.accepted + [n])
    case Take => if s.buffer == [] then s else s.(buffer := [], flights := s.flights + [s.buffer])
    case Commits(i) =>
      if i >= |s.flights| then s
      else s.(table := Inserted(s.table, s.flights[i]), flights := Without(s.flights, i), written := s.written + s.flights[i])
    case Fails(i) =>
      if i >= |s.flights| then s
      else s.(buffer := s.flights[i] + s.buffer, flights := Without(s.flights, i))
  }

  ghost predicate IsRun(table0: seq<Notification>, actions: seq<Action>, states: seq<Sys>) {
    && |states| == |actions| + 1
    && states[0] == Sys(table0, [], [], [], [])
    && forall i {:trigger actions[i]} :: 0 <= i < |actions| ==> states[i + 1] == Step(states[i], actions[i])
  }

  function InBatches(flights: seq<seq<Notification>>): multiset<Notification> {
    if flights == [] then multiset{} else InBatches(flights[..|flights| - 1]) + multiset(flights[|flights| - 1])
  }

  /** Every accepted message is in exactly one place, and the table is what the written ones left. */
  ghost predicate Inv(table0: seq<Notification>, s: Sys) {
    && multiset(s.accepted) == multiset(s.buffer) + InBatches(s.flights) + multiset(s.written)
    && s.table == Inserted(table0, s.written)
  }

  lemma {:induction false} InBatchesWithout(flights: seq<seq<Notification>>, i: nat)
    requires i < |flights|
    ensures InBatches(flights) == InBatches(Without(flights, i)) + multiset(flights[i])
  {
    var n := |flights| - 1;
    if i == n {
      assert Without(flights, i) == flights[..n];
    } else {
      InBatchesWithout(flights[..n], i);
      var rest := Without(flights, i);
      assert rest[..n - 1] == Without(flights[..n], i) && rest[n - 1] == flights[n];
      LastTwo(InBatches(rest[..n - 1]), multiset(flights[i]), multiset(flights[n]));
    }
  }

  lemma LastTwo(a: multiset<Notification>, b: multiset<Notification>, c: multiset<Notification>)
    ensures a + b + c == a + c + b
  {
  }

  lemma {:induction false} InsertedConcat(table: seq<Notification>, a: seq<Notification>, b: seq<Notification>)
    ensures Inserted(table, a + b) == Inserted(Inserted(table, a), b)
  {
    if b == [] {
      assert a + b == a;
    } else {
      var n := |b| - 1;
      InsertedConcat(table, a, b[..n]);
      assert (a + b)[..|a| + n] == a + b[..n];
    }
  }

  lemma StepKeepsInv(table0: seq<Notification>, s: Sys, a: Action)
    requires Inv(table0, s)
    ensures Inv(table0, Step(s, a))
  {
    match a {
      case Accept(n) =>
      case Take => TakeKeepsInv(table0, s);
      case Commits(i) => if i < |s.flights| { LandKeepsInv(table0, s, i); }
      case Fails(i) => if i < |s.flights| { LandKeepsInv(table0, s, i); }
    }
  }

  lemma TakeKeepsInv(table0: seq<Notification>, s: Sys)
    requires Inv(table0, s)
    ensures Inv(table0, Step(s, Take))
  {
    hide Inserted;
    assert (s.flights + [s.buffer])[..|s.flights|] == s.flights;
  }

  lemma LandKeepsInv(table0: seq<Notification>, s: Sys, i: nat)
    requires Inv(table0, s) && i < |s.flights|
    ensures Inv(table0, Step(s, Commits(i))) && Inv(table0, Step(s, Fails(i)))
  {
    hide Inserted, Without, InBatches;
    InBatchesWithout(s.flights, i);
    InsertedConcat(table0, s.written, s.flights[i]);
  }

  lemma {:induction false} RunKeepsInv(table0: seq<Notification>, actions: seq<Action>, states: seq<Sys>, n: nat)
    requires IsRun(table0, actions, states) && n < |states|
    ensures Inv(table0, states[n])
  {
    if n > 0 {
      RunKeepsInv(table0, actions, states, n - 1);
      var a := actions[n - 1];
      StepKeepsInv(table0, states[n - 1], a);
    }
  }

  lemma {:induction false} InsertedOnce(table: seq<Notification>, batch: seq<Notification>)
    requires DistinctEvents(table)
    ensures DistinctEvents(Inserted(table, batch))
    ensures table <= Inserted(table, batch)
    ensures forall n :: n in batch ==> HasEvent(Inserted(table, batch), n.eventId)
    ensures forall r :: r in Inserted(table, batch) ==> r in table || r in batch
  {
    if batch != [] {
      var m := |batch| - 1;
      InsertedOnce(table, batch[..m]);
      var t, t' := Inserted(table, batch[..m]), Inserted(table, batch);
      forall n | n in batch ensures HasEvent(t', n.eventId) {
        if n in batch[..m] {
          var i :| 0 <= i < |t| && t[i].eventId == n.eventId;
          assert t'[i].eventId == n.eventId;
        } else {
          assert n == batch[m];
          assert t' != t ==> t'[|t|] == n;
        }
      }
    }
  }

  /** No accepted event is ever lost: it is in the table, the buffer, or a batch in flight. */
  lemma NothingLost(table0: seq<Notification>, actions: seq<Action>, states: seq<Sys>, n: nat, m: Notification)
    requires IsRun(table0, actions, states) && n < |states| && DistinctEvents(table0)
    requires m in states[n].accepted
    ensures HasEvent(states[n].table, m.eventId) || m in states[n].buffer || m in InBatches(states[n].flights)
  {
    RunKeepsInv(table0, actions, states, n);
    var s := states[n];
    assert m in multiset(s.accepted);
    InsertedOnce(table0, s.written);
  }

  /** Redelivery and failed flushes notwithstanding: each event is stored at most once, as it was accepted. */
  lemma StoredOnce(table0: seq<Notification>, actions: seq<Action>, states: seq<Sys>, n: nat)
    requires IsRun(table0, actions, states) && n < |states| && DistinctEvents(table0)
    ensures DistinctEvents(states[n].table)
    ensures forall r :: r in states[n].table ==> r in table0 || r in states[n].accepted
  {
    RunKeepsInv(table0, actions, states, n);
    var s := states[n];
    InsertedOnce(table0, s.written);
    forall r | r in s.table ensures r in table0 || r in s.accepted {
      if r in s.written {
        assert r in multiset(s.written);
        assert r in multiset(s.accepted);
      }
    }
  }

  /** A stored row never changes and never moves. */
  lemma {:induction false} StoredForGood(table0: seq<Notification>, actions: seq<Action>, states: seq<Sys>, i: nat, j: nat)
    requires IsRun(table0, actions, states) && i <= j < |states| && DistinctEvents(table0)
    ensures states[i].table <= states[j].table
  {
    if i < j {
      StoredForGood(table0, actions, states, i, j - 1);
      StoredOnce(table0, actions, states, j - 1);
      var a, s := actions[j - 1], states[j - 1];
      if a.Commits? && a.flight < |s.flights| {
        InsertedOnce(s.table, s.flights[a.flight]);
      }
    }
  }

  /** Once nothing is buffered or in flight, the table holds exactly the accepted events. */
  lemma DrainedIsComplete(table0: seq<Notification>, actions: seq<Action>, states: seq<Sys>, n: nat, e: nat)
    requires IsRun(table0, actions, states) && n < |states| && DistinctEvents(table0)
    requires states[n].buffer == [] && states[n].flights == []
    ensures HasEvent(states[n].table, e) <==> HasEvent(table0, e) || HasEvent(states[n].accepted, e)
  {
    RunKeepsInv(table0, actions, states, n);
    var s := states[n];
    InsertedOnce(table0, s.written);
    StoredOnce(table0, actions, states, n);
    if HasEvent(table0, e) {
      var i :| 0 <= i < |table0| && table0[i].eventId == e;
      assert s.table[i].eventId == e;
    }
    if HasEvent(s.accepted, e) {
      var i :| 0 <= i < |s.accepted| && s.accepted[i].eventId == e;
      assert s.accepted[i] in multiset(s.accepted);
      assert s.accepted[i] in multiset(s.written);
      assert s.accepted[i] in s.written;
    }
    if HasEvent(s.table, e) {
      var i :| 0 <= i < |s.table| && s.table[i].eventId == e;
      assert s.table[i] in s.table;
    }
  }
}
