/**
  The end of a session: what is left in every short-term list of the user is folded into the chain
  of mid-term summaries, list by list, and the lists are deleted.
 */
module MemoryFlush {
  import opened Common
  import opened Text
  import opened MemoryRolling

  type Summary = string

  /** What a model makes of the previous summary and a chunk of messages; it may fail. */
  type Summariser = (Option<Summary>, seq<Message>) -> Option<Summary>

  /** The last non-blank message of a role, stripped. */
  function LastOf(messages: seq<Message>, role: string): string {
    if messages == [] then ""
    else
      var m := messages[|messages| - 1];
      if m.role == role && Strip(m.content) != "" then Strip(m.content) else LastOf(messages[..|messages| - 1], role)
  }

  method LastUserAssistant(messages: seq<Message>) returns (lastUser: string, lastAssistant: string)
    ensures lastUser == LastOf(messages, "user") && lastAssistant == LastOf(messages, "assistant")
  {
    hide Strip;
    lastUser, lastAssistant := "", "";
    var i := |messages|;
    assert messages[..i] == messages;
    while i > 0 && (lastUser == "" || lastAssistant == "")
      invariant 0 <= i <= |messages|
      invariant LastOf(messages, "user") == if lastUser != "" then lastUser else LastOf(messages[..i], "user")
      invariant LastOf(messages, "assistant") == if lastAssistant != "" then lastAssistant else LastOf(messages[..i], "assistant")
      decreases i
    {
      i := i - 1;
      assert messages[..i + 1][..i] == messages[..i];
      var content := Strip(messages[i].content);
      if content != "" {
        if messages[i].role == "assistant" && lastAssistant == "" {
          lastAssistant := content;
        } else if messages[i].role == "user" && lastUser == "" {
          lastUser := content;
        }
      }
    }
  }

  /** rpush, then keep the last maxItems if that is positive. */
  function Pushed(mid: seq<Summary>, s: Summary, maxItems: int): seq<Summary> {
    var all := mid + [s];
    if 0 < maxItems < |all| then all[|all| - maxItems..] else all
  }

  function Newest(mid: seq<Summary>, limit: int): Option<Summary> {
    if limit <= 0 || mid == [] then None else Some(mid[|mid| - 1])
  }

  /** Where a flush stands; folded are the chunks that went into a summary. */
  datatype Flush = Flush(prev: Option<Summary>, mid: seq<Summary>, rolled: bool, lastUser: string, lastAssistant: string,
                         folded: seq<seq<Message>>)

  function ListOf(lists: map<string, seq<Message>>, sid: string): seq<Message> {
    if sid in lists then lists[sid] else []
  }

  function OrElse(s: string, other: string): string {
    if s != "" then s else other
  }

  function Folded(f: Flush, chunk: seq<Message>, summarise: Summariser, maxItems: int): Flush {
    if chunk == [] then f else
    var said := f.(lastUser := OrElse(LastOf(chunk, "user"), f.lastUser),
                   lastAssistant := OrElse(LastOf(chunk, "assistant"), f.lastAssistant));
    match summarise(f.prev, chunk)
    case None => said
    case Some(s) => said.(prev := Some(s), mid := Pushed(f.mid, s, maxItems), rolled := true, folded := f.folded + [chunk])
  }

  /** The flush after the given chunks. */
  function FoldAll(f: Flush, chunks: seq<seq<Message>>, summarise: Summariser, maxItems: int): Flush {
    if chunks == [] then f
    else Folded(FoldAll(f, chunks[..|chunks| - 1], summarise, maxItems), chunks[|chunks| - 1], summarise, maxItems)
  }

  /** The lists of these sessions, in this order; one that comes twice is gone the second time. */
  function ChunksOf(lists: map<string, seq<Message>>, ids: seq<string>): seq<seq<Message>> {
    if ids == [] then []
    else
      var n := |ids| - 1;
      ChunksOf(lists, ids[..n]) + [if ids[n] in ids[..n] then [] else ListOf(lists, ids[n])]
  }

  function Deleted(lists: map<string, seq<Message>>, ids: seq<string>): map<string, seq<Message>> {
    map sid | sid in lists && sid !in ids :: lists[sid]
  }

  function SessionIds(chatSessionId: string, listed: seq<string>): (ids: seq<string>)
    ensures Strip(chatSessionId) != "" ==> ids == [Strip(chatSessionId)]
    ensures Strip(chatSessionId) == "" && listed != [] ==> ids == listed
    ensures Strip(chatSessionId) == "" && listed == [] ==> ids == ["default"]
  {
    if Strip(chatSessionId) != "" then [Strip(chatSessionId)]
    else if listed != [] then listed
    else ["default"]
  }

  function Begin(mid: seq<Summary>, maxItems: int): Flush {
    Flush(Newest(mid, maxItems), mid, false, "", "", [])
  }

  class AgentMemory {
    var lists: map<string, seq<Message>>
    var mid: seq<Summary>
    ghost var folded: seq<seq<Message>>

    constructor ()
      ensures lists == map[] && mid == [] && folded == []
    {
      lists, mid, folded := map[], [], [];
    }

    method UpdateMidSummary(prev: Option<Summary>, chunk: seq<Message>, summarise: Summariser, maxItems: int)
      returns (s: Option<Summary>)
      requires chunk != []
      modifies this`mid
      ensures s == summarise(prev, chunk)
      ensures mid == if s.Some? then Pushed(old(mid), s.value, maxItems) else old(mid)
      ensures s.Some? ==> var all := old(mid) + [s.value];
                          mid == if 0 < maxItems < |all| then all[|all| - maxItems..] else all
    {
      s := summarise(prev, chunk);
      if s.Some? {
        mid := mid + [s.value];
        if maxItems > 0 && |mid| > maxItems {
          mid := mid[|mid| - maxItems..];
        }
      }
    }

    /** One turn of the loop over the sessions. */
    method FoldChunk(chunk: seq<Message>, summarise: Summariser, maxItems: int,
                     prev: Option<Summary>, rolled: bool, lastUser: string, lastAssistant: string, ghost done: seq<seq<Message>>)
      returns (prev': Option<Summary>, rolled': bool, lastUser': string, lastAssistant': string, ghost done': seq<seq<Message>>)
      modifies this`mid, this`folded
      ensures Flush(prev', mid, rolled', lastUser', lastAssistant', done')
           == Folded(Flush(prev, old(mid), rolled, lastUser, lastAssistant, done), chunk, summarise, maxItems)
      ensures done <= done' && folded == old(folded) + done'[|done|..]
    {
      hide Strip, LastOf, Pushed;
      prev', rolled', lastUser', lastAssistant', done' := prev, rolled, lastUser, lastAssistant, done;
      if chunk == [] {
        return;
      }
      var u, a := LastUserAssistant(chunk);
      if u != "" { lastUser' := u; }
      if a != "" { lastAssistant' := a; }
      var s := UpdateMidSummary(prev, chunk, summarise, maxItems);
      if s.Some? {
        prev', rolled' := s, true;
        done', folded := done + [chunk], folded + [chunk];
      }
    }

    /** All of the user's lists, or the one that is named. */
    method FlushMidSummaryOnSessionEnd(chatSessionId: string, listed: seq<string>, summarise: Summariser, maxItems: int)
      returns (rolled: bool, lastUser: string, lastAssistant: string)
      modifies this
      ensures var ids := if Strip(chatSessionId) != "" then [Strip(chatSessionId)] else if listed != [] then listed else ["default"];
              var newest := if maxItems <= 0 || old(mid) == [] then None else Some(old(mid)[|old(mid)| - 1]);
              var end := FoldAll(Flush(newest, old(mid), false, "", "", []), ChunksOf(old(lists), ids), summarise, maxItems);
              && lists == Deleted(old(lists), ids)
              && mid == end.mid && folded == old(folded) + end.folded
              && rolled == end.rolled && lastUser == end.lastUser && lastAssistant == end.lastAssistant
    {
      hide Strip, LastOf, Pushed, Folded;
      var prev := Newest(mid, maxItems);
      var ids := SessionIds(chatSessionId, listed);
      rolled, lastUser, lastAssistant := false, "", "";
      ghost var start, lists0, folded0 := Begin(mid, maxItems), lists, folded;
      ghost var new': seq<seq<Message>> := [];
      for i := 0 to |ids|
        invariant lists == Deleted(lists0, ids[..i])
        invariant Flush(prev, mid, rolled, lastUser, lastAssistant, new')
               == FoldAll(start, ChunksOf(lists0, ids[..i]), summarise, maxItems)
        invariant folded == folded0 + new'
      {
        var sid := ids[i];
        var chunk := ListOf(lists, sid);
        OneMoreId(lists0, ids, i);
        FoldLast(start, ChunksOf(lists0, ids[..i]), chunk, summarise, maxItems);
        prev, rolled, lastUser, lastAssistant, new' :=
          FoldChunk(chunk, summarise, maxItems, prev, rolled, lastUser, lastAssistant, new');
        lists := lists - {sid};
      }
      assert ids[..|ids|] == ids;
    }
  }

  lemma OneMoreId(lists: map<string, seq<Message>>, ids: seq<string>, i: nat)
    requires i < |ids|
    ensures Deleted(lists, ids[..i + 1]) == Deleted(lists, ids[..i]) - {ids[i]}
    ensures ChunksOf(lists, ids[..i + 1]) == ChunksOf(lists, ids[..i]) + [ListOf(Deleted(lists, ids[..i]), ids[i])]
  {
    assert ids[..i + 1][..i] == ids[..i];
    assert ids[..i + 1] == ids[..i] + [ids[i]];
  }

  lemma FoldLast(f: Flush, chunks: seq<seq<Message>>, chunk: seq<Message>, summarise: Summariser, maxItems: int)
    ensures FoldAll(f, chunks + [chunk], summarise, maxItems) == Folded(FoldAll(f, chunks, summarise, maxItems), chunk, summarise, maxItems)
  {
    assert (chunks + [chunk])[..|chunks|] == chunks;
  }

  /** A named session's list, and no other, is folded if the summariser answers, and deleted. */
  lemma NamedSessionOnly(f: Flush, lists: map<string, seq<Message>>, sid: string, summarise: Summariser, maxItems: int)
    requires !f.rolled
    ensures forall k :: k in Deleted(lists, [sid]) <==> k in lists && k != sid
    ensures forall k :: k in lists && k != sid ==> Deleted(lists, [sid])[k] == lists[k]
    ensures var chunk := ListOf(lists, sid);
            var end := FoldAll(f, ChunksOf(lists, [sid]), summarise, maxItems);
            && end.folded == f.folded + (if end.rolled then [chunk] else [])
            && (end.rolled <==> chunk != [] && summarise(f.prev, chunk).Some?)
  {
    OneChunk(f, lists, sid, summarise, maxItems);
  }

  lemma OneChunk(f: Flush, lists: map<string, seq<Message>>, sid: string, summarise: Summariser, maxItems: int)
    requires !f.rolled
    ensures ChunksOf(lists, [sid]) == [ListOf(lists, sid)]
    ensures var end := FoldAll(f, [ListOf(lists, sid)], summarise, maxItems);
            && end.folded == f.folded + (if end.rolled then [ListOf(lists, sid)] else [])
            && (end.rolled <==> ListOf(lists, sid) != [] && summarise(f.prev, ListOf(lists, sid)).Some?)
  {
    hide LastOf, Pushed;
    assert [sid][..0] == [];
    assert [] + [ListOf(lists, sid)] == [ListOf(lists, sid)];
    FoldLast(f, [], ListOf(lists, sid), summarise, maxItems);
    assert f.folded + [] == f.folded;
  }

  /** The last words of a role: those of its last message that is not blank. */
  lemma {:induction false} LastOfMeans(messages: seq<Message>, role: string)
    ensures LastOf(messages, role) == "" <==>
              forall i :: 0 <= i < |messages| && messages[i].role == role ==> Strip(messages[i].content) == ""
    ensures LastOf(messages, role) != "" ==> exists i :: IsLastOf(messages, role, i) && LastOf(messages, role) == Strip(messages[i].content)
  {
    hide Strip;
    if messages != [] {
      var n := |messages| - 1;
      LastOfMeans(messages[..n], role);
      if messages[n].role == role && Strip(messages[n].content) != "" {
        assert IsLastOf(messages, role, n);
      } else if LastOf(messages, role) != "" {
        var i :| IsLastOf(messages[..n], role, i) && LastOf(messages, role) == Strip(messages[..n][i].content);
        assert IsLastOf(messages, role, i);
      }
    }
  }

  predicate IsLastOf(messages: seq<Message>, role: string, i: int) {
    && 0 <= i < |messages| && messages[i].role == role && Strip(messages[i].content) != ""
    && forall j :: i < j < |messages| && messages[j].role == role ==> Strip(messages[j].content) == ""
  }

  // ---------- what a flush keeps ----------

  function NonEmpty(chunks: seq<seq<Message>>): seq<seq<Message>> {
    if chunks == [] then []
    else NonEmpty(chunks[..|chunks| - 1]) + if chunks[|chunks| - 1] == [] then [] else [chunks[|chunks| - 1]]
  }

  /** The summaries made of chunks one after the other, each from the one before it. */
  function Chain(prev: Option<Summary>, chunks: seq<seq<Message>>, summarise: Summariser): Option<Summary> {
    if chunks == [] then prev
    else
      var n := |chunks| - 1;
      var before := Chain(prev, chunks[..n], summarise);
      var s := summarise(before, chunks[n]);
      if s.Some? then s else before
  }

  /** The summariser answered for the n-th chunk. */
  predicate Answered(f: Flush, chunks: seq<seq<Message>>, summarise: Summariser, n: nat)
    requires n < |chunks|
  {
    summarise(Chain(f.prev, NonEmpty(chunks[..n]), summarise), chunks[n]).Some?
  }

  predicate AllAnswered(f: Flush, chunks: seq<seq<Message>>, summarise: Summariser) {
    forall n :: 0 <= n < |chunks| && chunks[n] != [] ==> Answered(f, chunks, summarise, n)
  }

  lemma {:induction false} FoldChain(f: Flush, chunks: seq<seq<Message>>, summarise: Summariser, maxItems: int)
    ensures var end := FoldAll(f, chunks, summarise, maxItems);
            && end.prev == Chain(f.prev, NonEmpty(chunks), summarise)
            && |f.folded| <= |end.folded| <= |f.folded| + |NonEmpty(chunks)|
            && (end.rolled <==> f.rolled || |end.folded| > |f.folded|)
  {
    hide LastOf, Pushed;
    if chunks != [] {
      var n := |chunks| - 1;
      FoldChain(f, chunks[..n], summarise, maxItems);
      ChainLast(f.prev, NonEmpty(chunks[..n]), chunks[n], summarise);
    }
  }

  lemma ChainLast(prev: Option<Summary>, chunks: seq<seq<Message>>, chunk: seq<Message>, summarise: Summariser)
    ensures var before := Chain(prev, chunks, summarise);
            Chain(prev, chunks + [chunk], summarise) == if summarise(before, chunk).Some? then summarise(before, chunk) else before
    ensures chunks + [] == chunks
  {
    assert (chunks + [chunk])[..|chunks|] == chunks;
  }

  lemma AnsweredPrefix(f: Flush, chunks: seq<seq<Message>>, summarise: Summariser)
    requires chunks != []
    ensures var n := |chunks| - 1;
            AllAnswered(f, chunks, summarise) <==>
              AllAnswered(f, chunks[..n], summarise) && (chunks[n] != [] ==> Answered(f, chunks, summarise, n))
  {
    var n := |chunks| - 1;
    forall i | 0 <= i < n ensures Answered(f, chunks[..n], summarise, i) == Answered(f, chunks, summarise, i) {
      assert chunks[..n][..i] == chunks[..i];
    }
    hide Answered;
    if AllAnswered(f, chunks, summarise) {
      forall i | 0 <= i < n && chunks[..n][i] != [] ensures Answered(f, chunks[..n], summarise, i) {
        assert chunks[..n][i] == chunks[i];
      }
    }
    if AllAnswered(f, chunks[..n], summarise) && (chunks[n] != [] ==> Answered(f, chunks, summarise, n)) {
      forall i | 0 <= i < |chunks| && chunks[i] != [] ensures Answered(f, chunks, summarise, i) {
        assert i < n ==> chunks[..n][i] == chunks[i];
      }
    }
  }

  /**
    Every message of every list goes into the chain of summaries, once and in order, exactly when
    the summariser answers for every list that holds any: the lists are deleted either way.
   */
  lemma {:induction false} AllFoldedIff(f: Flush, chunks: seq<seq<Message>>, summarise: Summariser, maxItems: int)
    ensures FoldAll(f, chunks, summarise, maxItems).folded == f.folded + NonEmpty(chunks) <==> AllAnswered(f, chunks, summarise)
  {
    if chunks == [] {
      assert f.folded + [] == f.folded;
    } else {
      var n := |chunks| - 1;
      AllFoldedIff(f, chunks[..n], summarise, maxItems);
      FoldChain(f, chunks[..n], summarise, maxItems);
      AnsweredPrefix(f, chunks, summarise);
      hide LastOf, Pushed, AllAnswered, Chain;
      FoldedGrows(f.folded, FoldAll(f, chunks[..n], summarise, maxItems).folded, NonEmpty(chunks[..n]), chunks[n]);
    }
  }

  lemma FoldedGrows(a: seq<seq<Message>>, b: seq<seq<Message>>, c: seq<seq<Message>>, x: seq<Message>)
    requires |b| <= |a| + |c|
    ensures b + [x] == a + (c + [x]) <==> b == a + c
    ensures b != a + (c + [x])
    ensures a + (c + []) == a + c
  {
    assert a + (c + [x]) == (a + c) + [x];
    assert (b + [x])[..|b|] == b && ((a + c) + [x])[..|a + c|] == a + c;
  }

  lemma {:induction false} LastWordsOf(f: Flush, chunks: seq<seq<Message>>, summarise: Summariser, maxItems: int)
    ensures var end := FoldAll(f, chunks, summarise, maxItems);
            && end.lastUser == OrElse(LastOf(Concat(chunks), "user"), f.lastUser)
            && end.lastAssistant == OrElse(LastOf(Concat(chunks), "assistant"), f.lastAssistant)
  {
    hide Pushed, LastOf, Folded;
    if chunks == [] {
      NoWords("user");
      NoWords("assistant");
    } else {
      var n := |chunks| - 1;
      LastWordsOf(f, chunks[..n], summarise, maxItems);
      LastOfConcat(Concat(chunks[..n]), chunks[n], "user");
      LastOfConcat(Concat(chunks[..n]), chunks[n], "assistant");
      FoldedWords(FoldAll(f, chunks[..n], summarise, maxItems), chunks[n], summarise, maxItems);
    }
  }

  lemma NoWords(role: string)
    ensures LastOf([], role) == ""
  {
  }

  lemma FoldedWords(f: Flush, chunk: seq<Message>, summarise: Summariser, maxItems: int)
    ensures var r := Folded(f, chunk, summarise, maxItems);
            && r.lastUser == OrElse(LastOf(chunk, "user"), f.lastUser)
            && r.lastAssistant == OrElse(LastOf(chunk, "assistant"), f.lastAssistant)
  {
    hide Pushed;
    if chunk == [] {
      NoWords("user");
      NoWords("assistant");
    }
    hide LastOf;
  }

  function Concat(chunks: seq<seq<Message>>): seq<Message> {
    if chunks == [] then [] else Concat(chunks[..|chunks| - 1]) + chunks[|chunks| - 1]
  }

  lemma {:induction false} LastOfConcat(a: seq<Message>, b: seq<Message>, role: string)
    ensures LastOf(a + b, role) == OrElse(LastOf(b, role), LastOf(a, role))
  {
    hide Strip;
    if b == [] {
      assert a + b == a;
    } else {
      var n := |b| - 1;
      LastOfConcat(a, b[..n], role);
      assert (a + b)[..|a| + n] == a + b[..n];
    }
  }
}
