/**
  Short-term to mid-term memory: each turn appends two messages; when the window is full, the
  oldest part of the window is summarised and popped from the front of the list.
 */
module MemoryRolling {
  import opened Common
  import opened Text

  datatype Message = Message(role: string, content: string)

  /** A summarised chunk, as positions in the whole message stream. */
  datatype Range = Range(from: nat, to: nat)

  /** The whole stream, how many messages were popped, and the chunks that were summarised. */
  datatype Memory = Memory(stream: seq<Message>, popped: nat, summarised: seq<Range>)
  {
    predicate Valid() { popped <= |stream| }

    /** What the short-term list holds. */
    function List(): seq<Message>
      requires Valid()
    {
      stream[popped..]
    }
  }

  function Min(a: nat, b: nat): nat {
    if a < b then a else b
  }

  function RecentLimit(shortLimit: int): nat {
    if shortLimit / 2 < 1 then 1 else shortLimit / 2
  }

  function Appended(m: Memory, user: string, text: string): Memory {
    m.(stream := m.stream + [Message("user", user), Message("assistant", text)])
  }

  /** Whether the last shortLimit messages fill the window. */
  predicate Full(m: Memory, shortLimit: int)
    requires m.Valid()
  {
    (if shortLimit <= 0 then 0 else Min(|m.List()|, shortLimit)) >= shortLimit
  }

  /** The chunk a roll summarises: the first recent messages of the window. */
  function Chunk(m: Memory, shortLimit: int): Range
    requires m.Valid()
  {
    if shortLimit <= 0 then Range(|m.stream|, |m.stream|) else
    var window := Min(|m.List()|, shortLimit);
    var from := |m.stream| - window;
    Range(from, from + Min(RecentLimit(shortLimit), window))
  }

  /** What a roll takes off the front of the list. */
  function PoppedRange(m: Memory, shortLimit: int): Range
    requires m.Valid()
  {
    Range(m.popped, m.popped + Min(RecentLimit(shortLimit), |m.List()|))
  }

  function Rolled(m: Memory, shortLimit: int): Memory
    requires m.Valid()
  {
    Memory(m.stream, PoppedRange(m, shortLimit).to, m.summarised + [Chunk(m, shortLimit)])
  }

  lemma ChunkIsPrefixOfWindow(m: Memory, shortLimit: int, window: seq<Message>)
    requires m.Valid()
    requires var l := m.List(); window == if shortLimit <= 0 then [] else l[|l| - Min(|l|, shortLimit)..]
    ensures var c := Chunk(m, shortLimit);
            && c.from <= c.to <= |m.stream|
            && m.stream[c.from..c.to] == window[..Min(RecentLimit(shortLimit), |window|)]
  {
  }

  /** One chat turn; ok says whether a summary came back. */
  function Turn(m: Memory, shortLimit: int, user: string, assistant: string, ok: bool): (m': Memory)
    requires m.Valid()
    ensures m'.Valid()
  {
    var text := Strip(assistant);
    if text == "" then m else
    var a := Appended(m, user, text);
    if Full(a, shortLimit) && ok then Rolled(a, shortLimit) else a
  }

  /** How far consecutive ranges, starting at 0, reach; None if they leave a gap or overlap. */
  function Reach(ranges: seq<Range>): Option<nat> {
    if ranges == [] then Some(0)
    else
      var r := ranges[|ranges| - 1];
      if Reach(ranges[..|ranges| - 1]) == Some(r.from) && r.from <= r.to then Some(r.to) else None
  }

  /** The summarised chunks are the popped part of the stream, cut into consecutive pieces. */
  predicate Exact(m: Memory) {
    Reach(m.summarised) == Some(m.popped)
  }

  class ShortMemory {
    var list: seq<Message>
    ghost var memory: Memory

    ghost predicate Valid()
      reads this
    {
      memory.Valid() && list == memory.List()
    }

    constructor ()
      ensures Valid() && memory == Memory([], 0, [])
    {
      list, memory := [], Memory([], 0, []);
    }

    /** LRANGE key -limit -1. */
    method GetShortMessages(limit: int) returns (messages: seq<Message>)
      ensures messages == if limit <= 0 then [] else list[|list| - Min(|list|, limit)..]
    {
      if limit <= 0 {
        return [];
      }
      messages := if |list| <= limit then list else list[|list| - limit..];
    }

    /** count times LPOP. */
    method PopShortMessages(count: nat) returns (taken: nat)
      modifies this`list
      ensures taken == Min(count, |old(list)|)
      ensures list == old(list)[taken..]
    {
      taken := 0;
      for i := 0 to count
        invariant taken == Min(i, |old(list)|)
        invariant list == old(list)[taken..]
      {
        if list != [] {
          list := list[1..];
          taken := taken + 1;
        }
      }
    }

    /** Summarise the front of the window, and pop as much off the list if a summary came back. */
    method Roll(shortLimit: int, current: seq<Message>, ok: bool) returns (chunk: seq<Message>)
      requires Valid() && |current| >= shortLimit
      requires current == if shortLimit <= 0 then [] else list[|list| - Min(|list|, shortLimit)..]
      modifies this
      ensures Valid()
      ensures memory == if ok then Rolled(old(memory), shortLimit) else old(memory)
      ensures var c := Chunk(old(memory), shortLimit); c.from <= c.to <= |old(memory).stream| && chunk == old(memory).stream[c.from..c.to]
      ensures var recent := if shortLimit < 2 then 1 else shortLimit / 2;
              && chunk == (if recent < |current| then current[..recent] else current)
              && list == (if !ok then old(list) else if recent < |old(list)| then old(list)[recent..] else [])
    {
      var recent := RecentLimit(shortLimit);
      chunk := current[..Min(recent, |current|)];
      ChunkIsPrefixOfWindow(memory, shortLimit, current);
      hide Chunk;
      if ok {
        var taken := PopShortMessages(recent);
        memory := Rolled(memory, shortLimit);
      }
    }

    /** The second half of a turn: is the window full? */
    method RollIfFull(shortLimit: int, ok: bool) returns (rolled: bool, chunk: seq<Message>)
      requires Valid()
      modifies this
      ensures Valid()
      ensures rolled <==> ok && Full(old(memory), shortLimit)
      ensures memory == if rolled then Rolled(old(memory), shortLimit) else old(memory)
      ensures rolled ==> var c := Chunk(old(memory), shortLimit);
                         c.from <= c.to <= |old(memory).stream| && chunk == old(memory).stream[c.from..c.to]
      ensures var all := old(list);
              var window := if shortLimit <= 0 then [] else if |all| <= shortLimit then all else all[|all| - shortLimit..];
              var recent := if shortLimit < 2 then 1 else shortLimit / 2;
              && (rolled <==> ok && |window| >= shortLimit)
              && (rolled ==> && chunk == (if recent < |window| then window[..recent] else window)
                             && list == (if recent < |all| then all[recent..] else []))
              && (!rolled ==> list == all)
    {
      hide Chunk, Rolled, RecentLimit;
      rolled, chunk := false, [];
      var current := GetShortMessages(shortLimit);
      if |current| >= shortLimit {
        chunk := Roll(shortLimit, current, ok);
        rolled := ok;
      }
    }

    method PersistTurn(shortLimit: int, user: string, assistant: string, ok: bool) returns (rolled: bool, chunk: seq<Message>)
      requires Valid()
      modifies this
      ensures Valid()
      ensures memory == Turn(old(memory), shortLimit, user, assistant, ok)
      ensures rolled <==> |memory.summarised| > |old(memory).summarised|
      ensures rolled ==> var r := memory.summarised[|memory.summarised| - 1];
                         r.from <= r.to <= |memory.stream| && chunk == memory.stream[r.from..r.to]
      ensures Strip(assistant) == "" ==> list == old(list) && !rolled
      ensures Strip(assistant) != "" ==>
                var all := old(list) + [Message("user", user), Message("assistant", Strip(assistant))];
                var window := if shortLimit <= 0 then [] else if |all| <= shortLimit then all else all[|all| - shortLimit..];
                var recent := if shortLimit < 2 then 1 else shortLimit / 2;
                && (rolled <==> ok && |window| >= shortLimit)
                && (rolled ==> && chunk == (if recent < |window| then window[..recent] else window)
                               && list == (if recent < |all| then all[recent..] else []))
                && (!rolled ==> list == all)
    {
      hide Strip, Chunk, Rolled, Full;
      rolled, chunk := false, [];
      var text := Strip(assistant);
      if text == "" {
        return;
      }
      list := list + [Message("user", user), Message("assistant", text)];
      memory := Appended(memory, user, text);
      RolledFacts(memory, shortLimit);
      rolled, chunk := RollIfFull(shortLimit, ok);
    }

    /** Session end: whatever is left is summarised, and the list is deleted either way. */
    method FlushOnSessionEnd(ok: bool) returns (rolled: bool, chunk: seq<Message>)
      requires Valid()
      modifies this
      ensures Valid() && list == []
      ensures memory == SessionEnd(old(memory), ok)
      ensures rolled <==> ok && old(list) != []
      ensures rolled ==> chunk == old(list)
    {
      chunk := list;
      rolled := ok && chunk != [];
      memory := SessionEnd(memory, ok);
      list := [];
    }
  }

  lemma RolledFacts(m: Memory, shortLimit: int)
    requires m.Valid()
    ensures var r := Rolled(m, shortLimit); r.stream == m.stream && r.summarised == m.summarised + [Chunk(m, shortLimit)]
  {
  }

  function SessionEnd(m: Memory, ok: bool): (m': Memory)
    requires m.Valid()
    ensures m'.Valid()
  {
    if m.List() == [] then m
    else Memory(m.stream, |m.stream|, if ok then m.summarised + [Range(m.popped, |m.stream|)] else m.summarised)
  }

  /** A roll is exact precisely when the list holds exactly shortLimit messages. */
  lemma RollExactIff(m: Memory, shortLimit: int)
    requires m.Valid() && Exact(m) && m.List() != [] && Full(m, shortLimit)
    ensures Exact(Rolled(m, shortLimit)) <==> shortLimit >= 1 && |m.List()| == shortLimit
  {
    var c := Chunk(m, shortLimit);
    assert (m.summarised + [c])[..|m.summarised|] == m.summarised;
  }

  /** The summarised chunks, one after the other. */
  function Chunks(stream: seq<Message>, ranges: seq<Range>): seq<Message> {
    if ranges == [] then [] else
    var r := ranges[|ranges| - 1];
    Chunks(stream, ranges[..|ranges| - 1]) + if r.from <= r.to <= |stream| then stream[r.from..r.to] else []
  }

  lemma {:induction false} ChunksAreStreamPrefix(stream: seq<Message>, ranges: seq<Range>)
    requires Reach(ranges).Some? && Reach(ranges).value <= |stream|
    ensures Chunks(stream, ranges) == stream[..Reach(ranges).value]
  {
    if ranges != [] {
      ChunksAreStreamPrefix(stream, ranges[..|ranges| - 1]);
    }
  }

  /** Exactly: summarised chunks followed by the list are the message stream, in order. */
  lemma ExactMeansNothingLost(m: Memory)
    requires m.Valid() && Exact(m)
    ensures Chunks(m.stream, m.summarised) + m.List() == m.stream
  {
    ChunksAreStreamPrefix(m.stream, m.summarised);
  }

  datatype Said = Said(user: string, assistant: string)

  /** A conversation in which every summary comes back. */
  function Conversation(shortLimit: int, turns: seq<Said>): (m: Memory)
    ensures m.Valid()
  {
    if turns == [] then Memory([], 0, [])
    else
      var t := turns[|turns| - 1];
      Turn(Conversation(shortLimit, turns[..|turns| - 1]), shortLimit, t.user, t.assistant, true)
  }

  lemma TurnGrows(m: Memory, shortLimit: int, t: Said, ok: bool)
    requires m.Valid() && Strip(t.assistant) != ""
    requires |m.List()| + 2 < shortLimit || !ok
    ensures var m' := Turn(m, shortLimit, t.user, t.assistant, ok);
            (Exact(m) ==> Exact(m')) && m'.popped == m.popped && m'.summarised == m.summarised && |m'.List()| == |m.List()| + 2
  {
  }

  lemma TurnRolls(m: Memory, shortLimit: int, t: Said)
    requires m.Valid() && Exact(m) && Strip(t.assistant) != ""
    requires 1 <= shortLimit <= |m.List()| + 2
    ensures var m' := Turn(m, shortLimit, t.user, t.assistant, true);
            && (Exact(m') <==> |m.List()| + 2 == shortLimit)
            && m'.popped == m.popped + RecentLimit(shortLimit)
            && |m'.List()| == |m.List()| + 2 - RecentLimit(shortLimit)
  {
    RollExactIff(Appended(m, t.user, Strip(t.assistant)), shortLimit);
  }

  /** With a window that is a positive multiple of four, every conversation rolls exactly. */
  lemma {:induction false} MultipleOfFourIsExact(shortLimit: int, turns: seq<Said>)
    requires shortLimit > 0 && shortLimit % 4 == 0
    ensures var m := Conversation(shortLimit, turns);
            Exact(m) && |m.List()| < shortLimit && |m.List()| % 2 == 0
  {
    hide Turn, Conversation, Strip, Exact, RecentLimit;
    NoTurns(shortLimit);
    if turns != [] {
      var n := |turns| - 1;
      MultipleOfFourIsExact(shortLimit, turns[..n]);
      ConversationStep(shortLimit, turns);
      HalfOfFour(shortLimit);
      var m, t := Conversation(shortLimit, turns[..n]), turns[n];
      if Strip(t.assistant) == "" {
        SilentTurn(m, shortLimit, t);
      } else if |m.List()| + 2 < shortLimit {
        TurnGrows(m, shortLimit, t, true);
      } else {
        TurnRolls(m, shortLimit, t);
      }
    }
  }

  lemma NoTurns(shortLimit: int)
    ensures var m := Conversation(shortLimit, []); Exact(m) && m.List() == []
  {
  }

  lemma ConversationStep(shortLimit: int, turns: seq<Said>)
    requires turns != []
    ensures var n := |turns| - 1;
            Conversation(shortLimit, turns)
            == Turn(Conversation(shortLimit, turns[..n]), shortLimit, turns[n].user, turns[n].assistant, true)
  {
  }

  lemma SilentTurn(m: Memory, shortLimit: int, t: Said)
    requires m.Valid() && Strip(t.assistant) == ""
    ensures Turn(m, shortLimit, t.user, t.assistant, true) == m
  {
  }

  lemma HalfOfFour(shortLimit: int)
    requires shortLimit > 0 && shortLimit % 4 == 0
    ensures RecentLimit(shortLimit) == shortLimit / 2 && RecentLimit(shortLimit) % 2 == 0 && RecentLimit(shortLimit) >= 2
  {
  }

  /** ... and at the end of the session each message has been summarised exactly once, in order. */
  lemma EveryMessageSummarisedOnce(shortLimit: int, turns: seq<Said>)
    requires shortLimit > 0 && shortLimit % 4 == 0
    ensures var m := SessionEnd(Conversation(shortLimit, turns), true);
            Chunks(m.stream, m.summarised) == m.stream
  {
    MultipleOfFourIsExact(shortLimit, turns);
    hide Conversation;
    var c := Conversation(shortLimit, turns);
    var m := SessionEnd(c, true);
    assert (c.summarised + [Range(c.popped, |c.stream|)])[..|c.summarised|] == c.summarised;
    ExactMeansNothingLost(m);
    assert m.List() == [];
  }

  predicate Speaks(turns: seq<Said>) {
    forall i :: 0 <= i < |turns| ==> Strip(turns[i].assistant) != ""
  }

  /** Until the window is full, turns only lengthen the list. */
  lemma {:induction false} FillUp(shortLimit: int, turns: seq<Said>, k: nat)
    requires Speaks(turns) && k <= |turns|
    requires |Conversation(shortLimit, turns[..k]).List()| + 2 * (|turns| - k) < shortLimit
    ensures var m, m' := Conversation(shortLimit, turns[..k]), Conversation(shortLimit, turns);
            m'.popped == m.popped && m'.summarised == m.summarised && |m'.List()| == |m.List()| + 2 * (|turns| - k)
    decreases |turns| - k
  {
    hide Turn, Conversation, Strip, Exact;
    var n := |turns|;
    if k == n {
      assert turns[..k] == turns;
    } else {
      assert turns[..n - 1][..k] == turns[..k];
      FillUp(shortLimit, turns[..n - 1], k);
      ConversationStep(shortLimit, turns);
      TurnGrows(Conversation(shortLimit, turns[..n - 1]), shortLimit, turns[n - 1], true);
    }
  }

  /** After the first k turns, n - 1 more fill the window up; the n-th rolls. */
  lemma NextRoll(shortLimit: int, turns: seq<Said>, k: nat)
    requires Speaks(turns) && k < |turns| && shortLimit >= 1
    requires Exact(Conversation(shortLimit, turns[..k]))
    requires var l := |Conversation(shortLimit, turns[..k]).List()| + 2 * (|turns| - k); shortLimit <= l < shortLimit + 2
    ensures var m, m' := Conversation(shortLimit, turns[..k]), Conversation(shortLimit, turns);
            var l := |m.List()| + 2 * (|turns| - k);
            && (Exact(m') <==> l == shortLimit)
            && |m'.List()| == l - RecentLimit(shortLimit)
  {
    hide Turn, Conversation, Strip, Reach;
    var n := |turns| - 1;
    assert turns[..n][..k] == turns[..k];
    FillUp(shortLimit, turns[..n], k);
    ConversationStep(shortLimit, turns);
    TurnRolls(Conversation(shortLimit, turns[..n]), shortLimit, turns[n]);
  }

  lemma StartIsExact(shortLimit: int, turns: seq<Said>)
    ensures Exact(Conversation(shortLimit, turns[..0])) && |Conversation(shortLimit, turns[..0]).List()| == 0
  {
  }

  /** Any other window breaks, at the first roll when it is odd ... */
  lemma OddLimitBreaks(q: nat, turns: seq<Said>)
    requires Speaks(turns) && |turns| == q + 1
    ensures !Exact(Conversation(2 * q + 1, turns))
  {
    StartIsExact(2 * q + 1, turns);
    hide Conversation, Exact;
    NextRoll(2 * q + 1, turns, 0);
  }

  /** ... and at the second when it is twice an odd number. */
  lemma TwiceOddLimitBreaks(q: nat, turns: seq<Said>)
    requires Speaks(turns) && |turns| == 3 * q + 2
    ensures !Exact(Conversation(4 * q + 2, turns))
  {
    var limit, h := 4 * q + 2, 2 * q + 1;
    StartIsExact(limit, turns[..h]);
    hide Conversation, Exact;
    NextRoll(limit, turns[..h], 0);
    assert RecentLimit(limit) == h;
    NextRoll(limit, turns, h);
  }

  /** Rolling is exact on every all-successful conversation exactly when the window is a multiple of four. */
  lemma ExactIffMultipleOfFour(shortLimit: int)
    requires shortLimit >= 1
    ensures (forall turns :: Exact(Conversation(shortLimit, turns))) <==> shortLimit % 4 == 0
  {
    hide Conversation, Exact;
    if shortLimit % 4 == 0 {
      forall turns ensures Exact(Conversation(shortLimit, turns)) {
        MultipleOfFourIsExact(shortLimit, turns);
      }
    } else {
      var turns := OtherLimitBreaks(shortLimit);
    }
  }

  lemma OtherLimitBreaks(shortLimit: int) returns (turns: seq<Said>)
    requires shortLimit >= 1 && shortLimit % 4 != 0
    ensures !Exact(Conversation(shortLimit, turns))
  {
    hide *;
    var q := QuarterOf(shortLimit);
    if shortLimit == 4 * q + 2 {
      turns := Chatter(3 * q + 2);
      TwiceOddLimitBreaks(q, turns);
    } else if shortLimit == 4 * q + 1 {
      turns := Chatter(2 * q + 1);
      OddLimitBreaks(2 * q, turns);
    } else {
      turns := Chatter(2 * q + 2);
      OddLimitBreaks(2 * q + 1, turns);
    }
  }

  lemma QuarterOf(shortLimit: int) returns (q: nat)
    requires shortLimit >= 1 && shortLimit % 4 != 0
    ensures shortLimit == 4 * q + 1 || shortLimit == 4 * q + 2 || shortLimit == 4 * q + 3
  {
    q := shortLimit / 4;
  }

  function Chatter(n: nat): (turns: seq<Said>)
    ensures |turns| == n && Speaks(turns)
  {
    assert Strip("a") == "a";
    seq(n, i => Said("q", "a"))
  }

  /** One summary that does not come back breaks the next one that does. */
  lemma FailedSummaryBreaksTheNext(m: Memory, shortLimit: int, t: Said, t': Said)
    requires m.Valid() && Exact(m) && shortLimit >= 1 && |m.List()| + 2 == shortLimit
    requires Strip(t.assistant) != "" && Strip(t'.assistant) != ""
    ensures var missed := Turn(m, shortLimit, t.user, t.assistant, false);
            Exact(missed) && !Exact(Turn(missed, shortLimit, t'.user, t'.assistant, true))
  {
    TurnGrows(m, shortLimit, t, false);
    TurnRolls(Turn(m, shortLimit, t.user, t.assistant, false), shortLimit, t');
    hide Turn;
  }

  // ---------- any sequence of summary outcomes ----------

  /** A conversation whose i-th turn would get its summary back if oks[i]. */
  function Talk(shortLimit: int, turns: seq<Said>, oks: seq<bool>): (m: Memory)
    requires |turns| == |oks|
    ensures m.Valid()
  {
    if turns == [] then Memory([], 0, [])
    else
      var n := |turns| - 1;
      Turn(Talk(shortLimit, turns[..n], oks[..n]), shortLimit, turns[n].user, turns[n].assistant, oks[n])
  }

  /** The i-th turn says something and fills the window, so a summary is asked for. */
  predicate Asks(shortLimit: int, turns: seq<Said>, oks: seq<bool>, i: nat)
    requires i < |turns| == |oks|
  {
    var m := Talk(shortLimit, turns[..i], oks[..i]);
    Strip(turns[i].assistant) != "" && Full(Appended(m, turns[i].user, Strip(turns[i].assistant)), shortLimit)
  }

  predicate Misses(shortLimit: int, turns: seq<Said>, oks: seq<bool>, i: nat)
    requires i < |turns| == |oks|
  {
    Asks(shortLimit, turns, oks, i) && !oks[i]
  }

  predicate MissedBefore(shortLimit: int, turns: seq<Said>, oks: seq<bool>, n: nat)
    requires n <= |turns| == |oks|
  {
    exists i :: 0 <= i < n && Misses(shortLimit, turns, oks, i)
  }

  /** A summary that comes back after one that did not. */
  predicate RecoversAt(shortLimit: int, turns: seq<Said>, oks: seq<bool>, j: nat)
    requires j < |turns| == |oks|
  {
    Asks(shortLimit, turns, oks, j) && oks[j] && MissedBefore(shortLimit, turns, oks, j)
  }

  predicate Recovers(shortLimit: int, turns: seq<Said>, oks: seq<bool>, n: nat)
    requires n <= |turns| == |oks|
  {
    exists j :: 0 <= j < n && RecoversAt(shortLimit, turns, oks, j)
  }

  /** What a conversation can look like so far. */
  predicate Standing(m: Memory, shortLimit: int, missed: bool, recovered: bool)
    requires m.Valid()
  {
    if recovered then Reach(m.summarised).None?
    else if missed then Exact(m) && |m.List()| >= shortLimit
    else Exact(m) && |m.List()| < shortLimit && |m.List()| % 2 == 0
  }

  lemma LateRollBreaks(m: Memory, shortLimit: int)
    requires m.Valid() && Exact(m) && shortLimit >= 1 && |m.List()| > shortLimit
    ensures Reach(Rolled(m, shortLimit).summarised).None?
  {
    var c := Chunk(m, shortLimit);
    assert (m.summarised + [c])[..|m.summarised|] == m.summarised;
  }

  lemma BrokenStaysBroken(m: Memory, shortLimit: int, t: Said, ok: bool)
    requires m.Valid() && Reach(m.summarised).None?
    ensures Reach(Turn(m, shortLimit, t.user, t.assistant, ok).summarised).None?
  {
    hide Strip, Full, PoppedRange;
    var a := Appended(m, t.user, Strip(t.assistant));
    assert (m.summarised + [Chunk(a, shortLimit)])[..|m.summarised|] == m.summarised;
  }

  lemma FullIffLong(m: Memory, shortLimit: int, user: string, text: string)
    requires m.Valid() && shortLimit > 0
    ensures Appended(m, user, text).Valid() && (Full(Appended(m, user, text), shortLimit) <==> |m.List()| + 2 >= shortLimit)
  {
  }

  lemma NoRollStanding(m: Memory, shortLimit: int, t: Said, ok: bool, missed: bool)
    requires m.Valid() && shortLimit > 0 && shortLimit % 4 == 0 && Standing(m, shortLimit, missed, false)
    requires Strip(t.assistant) != "" && (|m.List()| + 2 < shortLimit || !ok)
    ensures Standing(Turn(m, shortLimit, t.user, t.assistant, ok), shortLimit, missed || |m.List()| + 2 >= shortLimit, false)
  {
    hide Turn, Strip, Exact, Reach, RecentLimit, Full;
    TurnGrows(m, shortLimit, t, ok);
  }

  lemma LateRollStanding(m: Memory, shortLimit: int, t: Said)
    requires m.Valid() && shortLimit > 0 && Standing(m, shortLimit, true, false) && Strip(t.assistant) != ""
    ensures Standing(Turn(m, shortLimit, t.user, t.assistant, true), shortLimit, true, true)
  {
    hide Turn, Strip, Exact, Reach, RecentLimit, Full, Rolled;
    RollsAppended(m, shortLimit, t);
    AppendedExact(m, t.user, Strip(t.assistant));
    LateRollBreaks(Appended(m, t.user, Strip(t.assistant)), shortLimit);
  }

  lemma RollStanding(m: Memory, shortLimit: int, t: Said)
    requires m.Valid() && shortLimit > 0 && shortLimit % 4 == 0 && Standing(m, shortLimit, false, false)
    requires Strip(t.assistant) != "" && |m.List()| + 2 >= shortLimit
    ensures Standing(Turn(m, shortLimit, t.user, t.assistant, true), shortLimit, false, false)
  {
    hide Turn, Strip, Exact, Reach, RecentLimit, Full, Rolled;
    HalfOfFour(shortLimit);
    HalfIsLeft(|m.List()|, shortLimit, RecentLimit(shortLimit));
    TurnRolls(m, shortLimit, t);
  }

  lemma HalfIsLeft(length: nat, limit: int, recent: nat)
    requires length % 2 == 0 && length < limit <= length + 2 && limit % 4 == 0 && recent == limit / 2
    ensures length + 2 == limit && length + 2 - recent < limit && (length + 2 - recent) % 2 == 0
  {
    Quarters(length, limit, recent, length / 2, limit / 4);
  }

  lemma Quarters(length: nat, limit: int, recent: nat, h: int, q: int)
    requires length == 2 * h && limit == 4 * q && recent == 2 * q && length < limit <= length + 2
    ensures length + 2 == limit && length + 2 - recent == 2 * q && 2 * q < limit
  {
  }

  /** One turn, by whether it asks for a summary and whether that comes back. */
  lemma TurnStanding(m: Memory, shortLimit: int, t: Said, ok: bool, missed: bool, recovered: bool)
    requires m.Valid() && shortLimit > 0 && shortLimit % 4 == 0 && Standing(m, shortLimit, missed, recovered)
    ensures var asks := Strip(t.assistant) != "" && Full(Appended(m, t.user, Strip(t.assistant)), shortLimit);
            Standing(Turn(m, shortLimit, t.user, t.assistant, ok), shortLimit,
                     missed || (asks && !ok), recovered || (asks && ok && missed))
  {
    hide Turn, Strip, Standing, Full, Appended;
    var text := Strip(t.assistant);
    FullIffLong(m, shortLimit, t.user, text);
    if recovered {
      BrokenStanding(m, shortLimit, t, ok, missed);
    } else {
      if text == "" {
        SilentAnyTurn(m, shortLimit, t, ok);
      } else if |m.List()| + 2 < shortLimit || !ok {
        NoRollStanding(m, shortLimit, t, ok, missed);
      } else if missed {
        LateRollStanding(m, shortLimit, t);
      } else {
        RollStanding(m, shortLimit, t);
      }
    }
  }

  lemma BrokenStanding(m: Memory, shortLimit: int, t: Said, ok: bool, missed: bool)
    requires m.Valid() && Standing(m, shortLimit, missed, true)
    ensures forall missed': bool :: Standing(Turn(m, shortLimit, t.user, t.assistant, ok), shortLimit, missed', true)
  {
    BrokenStaysBroken(m, shortLimit, t, ok);
    hide Turn, Strip, Reach;
  }

  lemma SilentAnyTurn(m: Memory, shortLimit: int, t: Said, ok: bool)
    requires m.Valid() && Strip(t.assistant) == ""
    ensures Turn(m, shortLimit, t.user, t.assistant, ok) == m
  {
  }

  lemma RollsAppended(m: Memory, shortLimit: int, t: Said)
    requires m.Valid() && Strip(t.assistant) != "" && 0 < shortLimit <= |m.List()| + 2
    ensures Turn(m, shortLimit, t.user, t.assistant, true) == Rolled(Appended(m, t.user, Strip(t.assistant)), shortLimit)
  {
    hide Strip, Rolled;
  }

  lemma AppendedExact(m: Memory, user: string, text: string)
    requires m.Valid() && Exact(m)
    ensures Exact(Appended(m, user, text)) && |Appended(m, user, text).List()| == |m.List()| + 2
  {
  }

  lemma SamePrefix(shortLimit: int, turns: seq<Said>, oks: seq<bool>, n: nat, i: nat)
    requires i < n <= |turns| == |oks|
    ensures Asks(shortLimit, turns[..n], oks[..n], i) == Asks(shortLimit, turns, oks, i)
  {
    assert turns[..n][..i] == turns[..i] && oks[..n][..i] == oks[..i];
  }

  lemma PrefixMisses(shortLimit: int, turns: seq<Said>, oks: seq<bool>, n: nat, i: nat)
    requires i <= n <= |turns| == |oks|
    ensures MissedBefore(shortLimit, turns[..n], oks[..n], i) == MissedBefore(shortLimit, turns, oks, i)
  {
    hide Asks;
    forall k | 0 <= k < i ensures Misses(shortLimit, turns[..n], oks[..n], k) == Misses(shortLimit, turns, oks, k) {
      SamePrefix(shortLimit, turns, oks, n, k);
    }
  }

  lemma PrefixRecovers(shortLimit: int, turns: seq<Said>, oks: seq<bool>, n: nat)
    requires n <= |turns| == |oks|
    ensures Recovers(shortLimit, turns[..n], oks[..n], n) == Recovers(shortLimit, turns, oks, n)
  {
    hide Asks, MissedBefore;
    forall k | 0 <= k < n ensures RecoversAt(shortLimit, turns[..n], oks[..n], k) == RecoversAt(shortLimit, turns, oks, k) {
      SamePrefix(shortLimit, turns, oks, n, k);
      PrefixMisses(shortLimit, turns, oks, n, k);
    }
  }

  lemma {:induction false} TalkStanding(shortLimit: int, turns: seq<Said>, oks: seq<bool>)
    requires |turns| == |oks| && shortLimit > 0 && shortLimit % 4 == 0
    ensures Standing(Talk(shortLimit, turns, oks), shortLimit,
                     MissedBefore(shortLimit, turns, oks, |turns|), Recovers(shortLimit, turns, oks, |turns|))
  {
    hide Turn, Strip, Standing, Full;
    if turns == [] {
      NoTalk(shortLimit);
    } else {
      var n := |turns| - 1;
      TalkStanding(shortLimit, turns[..n], oks[..n]);
      PrefixMisses(shortLimit, turns, oks, n, n);
      PrefixRecovers(shortLimit, turns, oks, n);
      TurnStanding(Talk(shortLimit, turns[..n], oks[..n]), shortLimit, turns[n], oks[n],
                   MissedBefore(shortLimit, turns, oks, n), Recovers(shortLimit, turns, oks, n));
      hide Asks;
      OneMoreTurn(shortLimit, turns, oks);
    }
  }

  lemma NoTalk(shortLimit: int)
    requires shortLimit > 0
    ensures Standing(Talk(shortLimit, [], []), shortLimit, false, false)
  {
  }

  lemma OneMoreTurn(shortLimit: int, turns: seq<Said>, oks: seq<bool>)
    requires |turns| == |oks| && turns != []
    ensures var n := |turns| - 1;
            && (MissedBefore(shortLimit, turns, oks, n + 1) <==> MissedBefore(shortLimit, turns, oks, n) || Misses(shortLimit, turns, oks, n))
            && (Recovers(shortLimit, turns, oks, n + 1) <==> Recovers(shortLimit, turns, oks, n) || RecoversAt(shortLimit, turns, oks, n))
  {
    hide Asks, Misses, RecoversAt;
  }

  /**
    With a window that is a multiple of four, rolling stays exact as long as, and only as long
    as, no summary comes back after one that did not.
   */
  lemma ExactIffNeverRecovers(shortLimit: int, turns: seq<Said>, oks: seq<bool>)
    requires |turns| == |oks| && shortLimit > 0 && shortLimit % 4 == 0
    ensures Exact(Talk(shortLimit, turns, oks)) <==> !Recovers(shortLimit, turns, oks, |turns|)
  {
    TalkStanding(shortLimit, turns, oks);
    hide Talk, Recovers, MissedBefore;
  }
}
