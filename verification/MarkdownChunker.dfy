/**
  The chunker as the source writes it.  The splitter is a loop over the separators, a loop over
  the pieces with a recursive call inside it, and a loop of hard cuts.

  The ghost arguments are what makes the recursion end: k separators are dealt with, and fuel
  nested calls are still allowed.
 */
module MarkdownChunker {
  import opened Common
  import opened Text
  import opened MarkdownSplitter
  import opened MarkdownTermination
  import opened MarkdownSections

  function NonBlank(cuts: seq<string>): seq<string> {
    if cuts == [] then []
    else NonBlank(cuts[..|cuts| - 1]) + (if cuts[|cuts| - 1] == [] then [] else [cuts[|cuts| - 1]])
  }

  lemma CutStep(text: string, l: Limits, i: nat, out: seq<string>, cut: string)
    requires l.Valid() && i < |text|
    requires cut == Strip(text[i..if i + l.size < |text| then i + l.size else |text|])
    ensures NonBlank(out + [cut]) + HardCut(text, l, i + l.Stride()) == NonBlank(out) + HardCut(text, l, i)
  {
    hide Strip, IsSpace;
    assert (out + [cut])[..|out|] == out;
    assert HardCut(text, l, i) == (if cut == [] then [] else [cut]) + HardCut(text, l, i + l.Stride());
  }

  lemma CutsDone(text: string, l: Limits, i: nat)
    requires i >= |text|
    ensures HardCut(text, l, i) == [] && NonBlank([]) == []
  {
  }

  method CutHard(text: string, l: Limits) returns (parts: seq<string>)
    requires l.Valid()
    ensures parts == HardCut(text, l, 0)
  {
    hide Strip, IsSpace, NonBlank, HardCut;
    var out: seq<string> := [];
    var step := if l.size > l.overlap then l.size - l.overlap else 1;
    var i := 0;
    CutsDone(text, l, |text|);
    while i < |text|
      invariant i >= 0
      invariant NonBlank(out) + HardCut(text, l, i) == HardCut(text, l, 0)
      decreases |text| - i
    {
      var end := if i + l.size < |text| then i + l.size else |text|;
      ghost var was := out;
      out := out + [Strip(text[i..end])];
      CutStep(text, l, i, was, Strip(text[i..end]));
      i := i + step;
    }
    CutsDone(text, l, i);
    parts := NonBlank(out);
  }

  /** The pieces of one separator, packed into parts. */
  method PackPieces(pieces: seq<string>, sep: string, l: Limits, ghost k: nat, ghost fuel: nat)
    returns (parts: seq<string>)
    requires l.Valid() && k <= SEPARATORS && fuel >= SEPARATORS - k
    requires forall i :: 0 <= i < |pieces| ==> Ready(PieceAt(pieces, sep, i), l, k)
    ensures var p := Pack(pieces, sep, l, fuel, |pieces|); p.Some? && parts == Closed(p.value)
    decreases SEPARATORS - k, 3
  {
    hide Ready, Strip, IsSpace, Split, Pack, PackPiece, PieceAt;
    var merged: seq<string>, buf: string := [], [];
    PackNone(pieces, sep, l, fuel);
    for i := 0 to |pieces|
      invariant Pack(pieces, sep, l, fuel, i) == Some(Packing(merged, buf))
    {
      PackNext(pieces, sep, l, fuel, i, merged, buf);
      var piece := if i < |pieces| - 1 then pieces[i] + sep else pieces[i];
      if Strip(piece) != [] {
        var candidate := if buf != [] then buf + piece else piece;
        assert candidate == buf + piece;
        if |candidate| <= l.size {
          buf := candidate;
        } else {
          if Strip(buf) != [] {
            merged := merged + [Strip(buf)];
          }
          if |piece| > l.size {
            var inner := SplitOversized(piece, l, k, fuel);
            merged, buf := merged + inner, [];
          } else {
            buf := piece;
          }
        }
      }
    }
    if Strip(buf) != [] {
      merged := merged + [Strip(buf)];
    }
    parts := merged;
  }

  lemma PackNone(pieces: seq<string>, sep: string, l: Limits, fuel: nat)
    ensures Pack(pieces, sep, l, fuel, 0) == Some(Packing([], []))
  {
  }

  /** One more piece, spelled out. */
  lemma PackNext(pieces: seq<string>, sep: string, l: Limits, fuel: nat, i: nat, merged: seq<string>, buf: string)
    requires i < |pieces| && Pack(pieces, sep, l, fuel, i) == Some(Packing(merged, buf))
    ensures var piece := if i < |pieces| - 1 then pieces[i] + sep else pieces[i];
            var closed := Closed(Packing(merged, buf));
            && piece == PieceAt(pieces, sep, i)
            && Pack(pieces, sep, l, fuel, i + 1) ==
               (if Strip(piece) == [] then Some(Packing(merged, buf))
               else if |buf + piece| <= l.size then Some(Packing(merged, buf + piece))
               else if |piece| <= l.size then Some(Packing(closed, piece))
               else if Split(piece, l, fuel).None? then None
               else Some(Packing(closed + Split(piece, l, fuel).value, [])))
  {
    hide Strip, IsSpace, Split;
  }

  method SplitOversized(text: string, l: Limits, ghost k: nat, ghost fuel: nat) returns (parts: seq<string>)
    requires l.Valid() && k <= SEPARATORS && Ready(text, l, k) && fuel >= SEPARATORS - k
    ensures Split(text, l, fuel) == Some(parts)
    decreases SEPARATORS - k, 2
  {
    var t := Strip(text);
    if t == [] {
      return [];
    }
    if |t| <= l.size {
      return [t];
    }
    LongTextIsClean(text, l, k, fuel);
    parts := TryAll(t, l, k, fuel);
  }

  lemma LongTextIsClean(text: string, l: Limits, k: nat, fuel: nat)
    requires k <= SEPARATORS && Ready(text, l, k) && |Strip(text)| > l.size
    ensures var t := Strip(text);
            && Strip(t) == t && Clean(t, k) && Ink(t) != [] && (k < 6 ==> Breakable(t, l, k))
            && Split(text, l, fuel) == TrySeparators(t, l, fuel, 0)
  {
    hide IsSpace, LStrip, RStrip, SplitOn, SepAt, Lacks, Strip, IsMark, Clean, Ink, TrySeparators;
    StripFacts(text);
    StripTwice(text);
  }

  /** The loop over the separators. */
  method TryAll(t: string, l: Limits, ghost k: nat, ghost fuel: nat) returns (parts: seq<string>)
    requires l.Valid() && k <= SEPARATORS && fuel >= SEPARATORS - k
    requires Strip(t) == t && |t| > l.size && Ink(t) != [] && Clean(t, k) && (k < 6 ==> Breakable(t, l, k))
    ensures TrySeparators(t, l, fuel, 0) == Some(parts)
    decreases SEPARATORS - k, 1, 1
  {
    hide Strip, Ink, Lacks, Breakable, SepAt, SplitOn, Ready, HardCut, Pack, Accepts, Closed, PackingOk;
    ghost var r := k;
    for j := 0 to SEPARATORS
      invariant r == if j < k then k else j
      invariant Clean(t, r) && (r < 6 ==> Breakable(t, l, r))
      invariant TrySeparators(t, l, fuel, 0) == TrySeparators(t, l, fuel, j)
    {
      if Lacks(t, SepAt(j)) {
        TryStep(t, l, fuel, j);
        if j >= k {
          NextSeparator(t, l, j);
          r := j + 1;
        }
      } else {
        var pieces := SplitOn(t, SepAt(j));
        PiecesAreReady(t, l, j);
        FirstSeparatorDecides(t, l, fuel, j);
        parts := PackPieces(pieces, SepAt(j), l, j + 1, fuel - 1);
        PackingAccepted(t, l, j, fuel);
        if |parts| > 1 || (parts != [] && |parts[0]| <= l.size) {
          return;
        }
        assert false;
      }
    }
    parts := CutHard(t, l);
  }

  lemma PackingAccepted(t: string, l: Limits, k: nat, fuel: nat)
    requires l.Valid() && k < SEPARATORS && !Lacks(t, SepAt(k)) && fuel > 0 && Ink(t) != []
    requires Pack(SplitOn(t, SepAt(k)), SepAt(k), l, fuel - 1, |SplitOn(t, SepAt(k))|).Some?
    ensures var merged := Closed(Pack(SplitOn(t, SepAt(k)), SepAt(k), l, fuel - 1, |SplitOn(t, SepAt(k))|).value);
            |merged| > 1 || (merged != [] && |merged[0]| <= l.size)
  {
    hide Strip, Ink, Lacks, SepAt, SplitOn, Pack, Closed, PackingOk, HardCut;
    FirstSeparatorDecides(t, l, fuel, k);
    Accepted(Pack(SplitOn(t, SepAt(k)), SepAt(k), l, fuel - 1, |SplitOn(t, SepAt(k))|).value, t, l);
  }

  lemma PiecesAreReady(t: string, l: Limits, k: nat)
    requires k < SEPARATORS && Strip(t) == t && Clean(t, k) && |t| > l.size && !Lacks(t, SepAt(k))
    requires k < 6 ==> Breakable(t, l, k)
    ensures var pieces := SplitOn(t, SepAt(k));
            forall i :: 0 <= i < |pieces| ==> Ready(PieceAt(pieces, SepAt(k), i), l, k + 1)
  {
    hide *;
    forall i | 0 <= i < |SplitOn(t, SepAt(k))| ensures Ready(PieceAt(SplitOn(t, SepAt(k)), SepAt(k), i), l, k + 1) {
      PieceIsReady(t, l, k, i);
    }
  }

  // ---------- the whole document ----------

  /** A part of a section body, and the text it is stored as. */
  datatype Chunk = Chunk(content: string, body: string, path: seq<string>, level: nat, title: string, part: nat)

  /** separator.join(parts) */
  function JoinWith(parts: seq<string>, separator: string): string {
    if parts == [] then []
    else if |parts| == 1 then parts[0]
    else parts[0] + separator + JoinWith(parts[1..], separator)
  }

  /** The document's name, or else the first heading of the path. */
  function Label(doc: string, path: seq<string>): string {
    if Strip(doc) != [] then Strip(doc) else if path != [] then Strip(path[0]) else []
  }

  /** The lines in front of a part. */
  function Head(doc: string, title: string, path: seq<string>): string {
    var line := "【" + JoinWith(path, " / ") + "】";
    var game := Label(doc, path);
    if game != [] then "检索: " + game + " | " + Strip(title) + "\n\n" + line else line
  }

  function Content(doc: string, heading: bool, title: string, path: seq<string>, body: string): string {
    if heading && title != [] then Head(doc, title, path) + "\n\n" + body else body
  }

  lemma {:induction false} JoinWithPush(parts: seq<string>, last: string, separator: string)
    ensures JoinWith(parts + [last], separator) == if parts == [] then last else JoinWith(parts, separator) + separator + last
  {
    if |parts| > 0 {
      assert (parts + [last])[1..] == parts[1..] + [last];
      JoinWithPush(parts[1..], last, separator);
      if |parts| == 1 {
        assert parts[1..] == [];
      }
    }
  }

  /** The stored text in full. */
  lemma ContentWrittenOut(doc: string, title: string, path: seq<string>, body: string)
    requires title != "" && path != []
    ensures var line := "【" + JoinWith(path, " / ") + "】\n\n" + body;
            var name := if Strip(doc) != "" then Strip(doc) else Strip(path[0]);
            Content(doc, true, title, path, body)
            == if name != "" then "检索: " + name + " | " + Strip(title) + "\n\n" + line else line
  {
    hide Strip, JoinWith;
    var line := "【" + JoinWith(path, " / ") + "】";
    assert line + "\n\n" + body == "【" + JoinWith(path, " / ") + "】\n\n" + body;
  }

  /** Whatever is put in front, the part itself ends the content; nothing is in front without a title. */
  lemma ContentEndsWithBody(doc: string, heading: bool, title: string, path: seq<string>, body: string)
    ensures var c := Content(doc, heading, title, path, body);
            && |body| <= |c| && c[|c| - |body|..] == body
            && (c == body <==> !heading || title == [])
  {
    hide Head;
  }

  /** At least 200 characters a chunk, and an overlap of at most a quarter. */
  function LimitsFor(chunkSize: int, overlap: int): (l: Limits)
    ensures l.Valid() && l.size >= 200 && 4 * l.overlap <= l.size
    ensures chunkSize >= 200 ==> l.size == chunkSize
    ensures chunkSize < 200 ==> l.size == 200
    ensures l.overlap == if overlap <= 0 then 0 else if 4 * overlap <= l.size then overlap else l.size / 4
  {
    var size := if chunkSize > 200 then chunkSize else 200;
    var most := if overlap < size / 4 then overlap else size / 4;
    Limits(size, if most > 0 then most else 0)
  }

  /** The splitter ends on every section. */
  predicate AllBreakable(sections: seq<Section>, l: Limits) {
    forall i :: 0 <= i < |sections| ==> Breakable(sections[i].body, l, 0)
  }

  function PartsOf(body: string, l: Limits): seq<string> {
    var r := Split(body, l, SEPARATORS);
    if r.Some? then r.value else []
  }

  function TitleOf(s: Section, path: seq<string>): string {
    if s.level > 0 || s.title != [] then s.title else if path != [] then path[|path| - 1] else []
  }

  function ChunksOf(s: Section, doc: string, heading: bool, path: seq<string>, parts: seq<string>): seq<Chunk> {
    seq(|parts|, k requires 0 <= k < |parts| =>
      Chunk(Content(doc, heading, TitleOf(s, path), path, parts[k]), parts[k], path, s.level, TitleOf(s, path), k))
  }

  function ChunksTo(sections: seq<Section>, doc: string, heading: bool, l: Limits, n: nat): seq<Chunk>
    requires n <= |sections|
  {
    if n == 0 then []
    else ChunksTo(sections, doc, heading, l, n - 1)
         + ChunksOf(sections[n - 1], doc, heading, PathTo(sections, doc, n), PartsOf(sections[n - 1].body, l))
  }

  /** The heading stack, popped until there is room at the section's level. */
  method PushHeading(stack: seq<string>, level: nat, title: string) returns (pushed: seq<string>)
    requires level >= 1
    ensures pushed == (if |stack| < level then stack else stack[..level - 1]) + [title]
  {
    if level == 1 {
      return [title];
    }
    pushed := stack;
    while |pushed| >= level
      invariant pushed <= stack
      invariant if |stack| < level then pushed == stack else |pushed| >= level - 1
    {
      pushed := pushed[..|pushed| - 1];
    }
    pushed := pushed + [title];
  }

  method SplitSection(body: string, l: Limits) returns (parts: seq<string>)
    requires l.Valid() && Breakable(body, l, 0)
    ensures parts == PartsOf(body, l)
  {
    hide Breakable, Split;
    FreshIsReady(body, l);
    parts := SplitOversized(body, l, 0, SEPARATORS);
  }

  lemma FreshIsReady(body: string, l: Limits)
    requires Breakable(body, l, 0)
    ensures Ready(body, l, 0)
  {
  }

  method ChunkMarkdown(md: string, chunkSize: int, overlap: int, docTitle: string, heading: bool) returns (chunks: seq<Chunk>)
    requires AllBreakable(SectionsOf(Lines(md)), LimitsFor(chunkSize, overlap))
    ensures var sections := SectionsOf(Lines(md));
            chunks == ChunksTo(sections, docTitle, heading, LimitsFor(chunkSize, overlap), |sections|)
  {
    hide SectionsOf, Lines, PartsOf, Strip, Breakable, Split, Content;
    var l := LimitsFor(chunkSize, overlap);
    var sections := ParseHeadingSections(md);
    var stack: seq<string> := if docTitle != "" then [docTitle] else [];
    chunks := [];
    for n := 0 to |sections|
      invariant stack == PathTo(sections, docTitle, n)
      invariant chunks == ChunksTo(sections, docTitle, heading, l, n)
    {
      var s := sections[n];
      var title := s.title;
      if s.level == 0 {
        if title == "" && stack != [] {
          title := stack[|stack| - 1];
        }
      } else {
        stack := PushHeading(stack, s.level, s.title);
      }
      assert title == TitleOf(s, stack);
      BlankHasNoParts(s.body, l);
      if Strip(s.body) != [] {
        var parts := SplitSection(s.body, l);
        chunks := AppendParts(chunks, s, docTitle, heading, stack, title, parts);
      }
    }
  }

  method AppendParts(chunks: seq<Chunk>, s: Section, docTitle: string, heading: bool, path: seq<string>, title: string, parts: seq<string>)
    returns (out: seq<Chunk>)
    requires title == TitleOf(s, path)
    ensures out == chunks + ChunksOf(s, docTitle, heading, path, parts)
  {
    hide Content, TitleOf;
    out := chunks;
    ghost var all := ChunksOf(s, docTitle, heading, path, parts);
    for k := 0 to |parts|
      invariant out == chunks + all[..k]
    {
      assert all[..k + 1] == all[..k] + [all[k]];
      out := out + [Chunk(Content(docTitle, heading, title, path, parts[k]), parts[k], path, s.level, title, k)];
    }
    assert all[..|parts|] == all;
  }

  lemma BlankHasNoParts(body: string, l: Limits)
    ensures Strip(body) == [] ==> PartsOf(body, l) == []
  {
    hide Strip;
  }

  function ChunkBodies(chunks: seq<Chunk>): seq<string> {
    seq(|chunks|, i requires 0 <= i < |chunks| => chunks[i].body)
  }

  /** A chunk cut from the n-th section: within the size, and standing under that section's path. */
  predicate CutFrom(c: Chunk, sections: seq<Section>, doc: string, heading: bool, l: Limits, n: nat)
    requires n <= |sections|
  {
    && n > 0
    && GoodPart(c.body, l)
    && c.path == PathTo(sections, doc, n)
    && c.level == sections[n - 1].level
    && c.title == (if sections[n - 1].level > 0 || sections[n - 1].title != "" then sections[n - 1].title
                   else if c.path != [] then c.path[|c.path| - 1] else "")
    && c.content == Content(doc, heading, c.title, c.path, c.body)
    && c.part < |PartsOf(sections[n - 1].body, l)| && c.body == PartsOf(sections[n - 1].body, l)[c.part]
  }

  /** No chunk is blank or too long, and every one knows its section. */
  lemma {:induction false} ChunkIsCut(sections: seq<Section>, doc: string, heading: bool, l: Limits, n: nat, i: nat) returns (m: nat)
    requires l.Valid() && n <= |sections| && AllBreakable(sections, l) && i < |ChunksTo(sections, doc, heading, l, n)|
    ensures m <= n && CutFrom(ChunksTo(sections, doc, heading, l, n)[i], sections, doc, heading, l, m)
  {
    hide Breakable, Split, Strip, IsSpace;
    var before := ChunksTo(sections, doc, heading, l, n - 1);
    if i < |before| {
      m := ChunkIsCut(sections, doc, heading, l, n - 1, i);
    } else {
      m := n;
      PartsCarryTheBody(sections[n - 1].body, l);
    }
  }

  /** Together the chunks carry all the text of the sections. */
  lemma {:induction false} ChunksCarryTheSections(sections: seq<Section>, doc: string, heading: bool, l: Limits, n: nat)
    requires l.Valid() && n <= |sections| && AllBreakable(sections, l)
    ensures var chunks := ChunksTo(sections, doc, heading, l, n);
            Covered(Ink(Joined(Bodies(sections[..n]))), Ink(Joined(ChunkBodies(chunks))), l)
  {
    hide Breakable, Split, Strip, IsSpace, Subsequence, Ink, Joined;
    if n == 0 {
      CoveredSelf([], l);
      assert Bodies(sections[..0]) == [] && ChunkBodies([]) == [];
      CoveredSelf(Ink(Joined([])), l);
    } else {
      ChunksCarryTheSections(sections, doc, heading, l, n - 1);
      var s := sections[n - 1];
      var before, path, parts := ChunksTo(sections, doc, heading, l, n - 1), PathTo(sections, doc, n), PartsOf(s.body, l);
      var added := ChunksOf(s, doc, heading, path, parts);
      PartsCarryTheBody(s.body, l);
      assert ChunkBodies(before + added) == ChunkBodies(before) + ChunkBodies(added);
      assert ChunkBodies(added) == parts;
      BodiesGrow(sections, n);
      InkOfJoin(Bodies(sections[..n - 1]), [s.body]);
      InkOfJoin(ChunkBodies(before), parts);
      CoveredConcat(Ink(Joined(Bodies(sections[..n - 1]))), Ink(Joined(ChunkBodies(before))),
                    Ink(Joined([s.body])), Ink(Joined(parts)), l);
    }
  }

  lemma PartsCarryTheBody(body: string, l: Limits)
    requires l.Valid() && Breakable(body, l, 0)
    ensures GoodParts(PartsOf(body, l), l) && Covered(Ink(Joined([body])), Ink(Joined(PartsOf(body, l))), l)
  {
    assert Joined([body]) == body;
    hide Breakable, Split, Strip, IsSpace, Subsequence, Ink, Joined, Covered, GoodParts;
    SplitEndsIff(body, l);
    SplitGood(body, l, SEPARATORS);
  }

  lemma BodiesGrow(sections: seq<Section>, n: nat)
    requires 0 < n <= |sections|
    ensures Bodies(sections[..n]) == Bodies(sections[..n - 1]) + [sections[n - 1].body]
  {
    var last := [sections[n - 1]];
    assert sections[..n] == sections[..n - 1] + last;
    BodiesConcat(sections[..n - 1], last);
    assert Bodies(last) == [last[0].body] + Bodies(last[1..]);
  }

  lemma InkOfJoin(a: seq<string>, b: seq<string>)
    ensures Ink(Joined(a + b)) == Ink(Joined(a)) + Ink(Joined(b))
  {
    JoinedConcat(a, b);
    InkConcat(Joined(a), Joined(b));
  }

  /** From the document to its chunks no visible character outside headings is lost, or changes place. */
  lemma ChunksCarryTheDocument(md: string, doc: string, heading: bool, l: Limits)
    requires l.Valid() && AllBreakable(SectionsOf(Lines(md)), l)
    ensures var sections := SectionsOf(Lines(md));
            var chunks := ChunksTo(sections, doc, heading, l, |sections|);
            Covered(Ink(Joined(BodyLinesIn(Lines(md)))), Ink(Joined(ChunkBodies(chunks))), l)
  {
    var sections := SectionsOf(Lines(md));
    hide *;
    BodiesKeepTheText(Lines(md));
    ChunksCarryTheSections(sections, doc, heading, l, |sections|);
    assert sections[..|sections|] == sections;
  }

  /** Every chunk stands under the nearest headings at levels 1 to its own, if no level is skipped. */
  lemma ChunksStandUnderTheirHeadings(sections: seq<Section>, doc: string, heading: bool, l: Limits, i: nat)
    requires l.Valid() && AllBreakable(sections, l) && NeverSkips(sections, doc, |sections|)
    requires i < |ChunksTo(sections, doc, heading, l, |sections|)|
    ensures var c := ChunksTo(sections, doc, heading, l, |sections|)[i];
            exists n :: 0 <= n <= |sections| && CutFrom(c, sections, doc, heading, l, n) && ExactPath(sections, doc, n)
  {
    var c := ChunksTo(sections, doc, heading, l, |sections|)[i];
    hide Covered, ChunksTo, AllBreakable, PathTo, NeverSkips;
    var n := ChunkIsCut(sections, doc, heading, l, |sections|, i);
    PathsExactIff(sections, doc);
  }
}
