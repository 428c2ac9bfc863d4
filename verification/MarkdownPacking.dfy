/**
  What the splitter's parts are: the coarsest break that occurs decides, and the pieces it leaves
  are put together greedily.
 */
module MarkdownPacking {
  import opened Common
  import opened Text
  import opened MarkdownSplitter
  import opened MarkdownTermination
  import opened MarkdownChunker

  // ---------- which break ----------

  /** Paragraphs before lines, lines before sentences, and the sentence marks in their order. */
  predicate ComesFirst(t: string, sep: string) {
    || (sep == "\n\n" && !Lacks(t, "\n\n"))
    || (Lacks(t, "\n\n")
        && (|| (sep == "\n" && !Lacks(t, "\n"))
            || (Lacks(t, "\n")
                && (|| (sep == "。" && !Lacks(t, "。"))
                    || (Lacks(t, "。")
                        && (|| (sep == "！" && !Lacks(t, "！"))
                            || (Lacks(t, "！")
                                && (|| (sep == "？" && !Lacks(t, "？"))
                                    || (Lacks(t, "？")
                                        && (|| (sep == "；" && !Lacks(t, "；"))
                                            || (Lacks(t, "；") && LatinComesFirst(t, sep))))))))))))
  }

  predicate LatinComesFirst(t: string, sep: string) {
    || (sep == ". " && !Lacks(t, ". "))
    || (sep == "! " && Lacks(t, ". ") && !Lacks(t, "! "))
    || (sep == "? " && Lacks(t, ". ") && Lacks(t, "! ") && !Lacks(t, "? "))
  }

  /** No break of any kind. */
  predicate Unbroken(t: string) {
    && Lacks(t, "\n\n") && Lacks(t, "\n") && Lacks(t, "。") && Lacks(t, "！") && Lacks(t, "？") && Lacks(t, "；")
    && Lacks(t, ". ") && Lacks(t, "! ") && Lacks(t, "? ")
  }

  lemma SeparatorsInOrder()
    ensures SepAt(0) == "\n\n" && SepAt(1) == "\n" && SepAt(2) == "。" && SepAt(3) == "！" && SepAt(4) == "？"
         && SepAt(5) == "；" && SepAt(6) == ". " && SepAt(7) == "! " && SepAt(8) == "? " && SEPARATORS == 9
  {
  }

  lemma FirstHasIndex(t: string, sep: string) returns (k: nat)
    requires ComesFirst(t, sep)
    ensures k < SEPARATORS && SepAt(k) == sep && Clean(t, k) && !Lacks(t, sep)
  {
    SeparatorsInOrder();
    hide SepAt, Lacks;
    k := if sep == "\n\n" then 0 else if sep == "\n" then 1 else if sep == "。" then 2 else if sep == "！" then 3
         else if sep == "？" then 4 else if sep == "；" then 5 else if sep == ". " then 6 else if sep == "! " then 7 else 8;
  }

  // ---------- greedy groups ----------

  /** The pieces that are not blank. */
  function Solid(parts: seq<string>, sep: string, n: nat): seq<string>
    requires n <= |parts|
  {
    if n == 0 then []
    else Solid(parts, sep, n - 1) + if Strip(PieceAt(parts, sep, n - 1)) == [] then [] else [PieceAt(parts, sep, n - 1)]
  }

  function Flatten(groups: seq<seq<string>>): seq<string> {
    if groups == [] then [] else Flatten(groups[..|groups| - 1]) + groups[|groups| - 1]
  }

  /** Groups of consecutive pieces: each fits, or is one piece that does not, and a group that fits has no room for the next piece. */
  predicate Greedy(groups: seq<seq<string>>, size: nat) {
    && (forall j :: 0 <= j < |groups| ==> groups[j] != [] && (|Joined(groups[j])| <= size || |groups[j]| == 1))
    && (forall j :: 0 <= j < |groups| - 1 && |Joined(groups[j])| <= size ==> |Joined(groups[j])| + |groups[j + 1][0]| > size)
  }

  /** A group that fits becomes one stripped part; a piece that does not is split itself. */
  function PartsOfGroups(groups: seq<seq<string>>, l: Limits, fuel: nat): Option<seq<string>>
    requires forall j :: 0 <= j < |groups| ==> groups[j] != []
  {
    if groups == [] then Some([])
    else
      var before, g := PartsOfGroups(groups[..|groups| - 1], l, fuel), groups[|groups| - 1];
      if before.None? then None
      else if |Joined(g)| <= l.size then Some(before.value + [Strip(Joined(g))])
      else if Split(g[0], l, fuel).None? then None
      else Some(before.value + Split(g[0], l, fuel).value)
  }

  /** Finished groups, and the one being filled. */
  ghost predicate PacksAs(groups: seq<seq<string>>, open: seq<string>, p: Packing, solid: seq<string>, l: Limits, fuel: nat) {
    && Greedy(groups, l.size)
    && PartsOfGroups(groups, l, fuel) == Some(p.merged)
    && Flatten(groups) + open == solid
    && Joined(open) == p.buf && |p.buf| <= l.size
    && (forall i :: 0 <= i < |open| ==> Strip(open[i]) != [])
    && (groups != [] && |Joined(groups[|groups| - 1])| <= l.size ==> open != [] && |Joined(groups[|groups| - 1])| + |open[0]| > l.size)
  }

  lemma JoinedPush(open: seq<string>, piece: string)
    ensures Joined(open + [piece]) == Joined(open) + piece
  {
    assert (open + [piece])[..|open|] == open;
  }

  lemma {:induction false} JoinedSolid(open: seq<string>)
    requires open != [] && forall i :: 0 <= i < |open| ==> Strip(open[i]) != []
    ensures Strip(Joined(open)) != []
  {
    hide Strip, IsSpace, Ink;
    var n := |open| - 1;
    JoinedLast(open);
    InkConcat(Joined(open[..n]), open[n]);
    StripFacts(open[n]);
    StripFacts(Joined(open));
  }

  lemma NothingOpen(open: seq<string>)
    requires forall i :: 0 <= i < |open| ==> Strip(open[i]) != []
    ensures Strip(Joined(open)) == [] <==> open == []
  {
    if open == [] {
      assert Joined(open) == [];
    } else {
      JoinedSolid(open);
    }
  }

  lemma GreedyPush(groups: seq<seq<string>>, g: seq<string>, size: nat)
    requires Greedy(groups, size) && g != [] && (|Joined(g)| <= size || |g| == 1)
    requires groups != [] && |Joined(groups[|groups| - 1])| <= size ==> |Joined(groups[|groups| - 1])| + |g[0]| > size
    ensures Greedy(groups + [g], size)
  {
    hide Joined;
  }

  lemma GroupsPush(groups: seq<seq<string>>, g: seq<string>, l: Limits, fuel: nat, merged: seq<string>)
    requires (forall j :: 0 <= j < |groups| ==> groups[j] != []) && g != [] && PartsOfGroups(groups, l, fuel) == Some(merged)
    ensures Flatten(groups + [g]) == Flatten(groups) + g
    ensures |Joined(g)| <= l.size ==> PartsOfGroups(groups + [g], l, fuel) == Some(merged + [Strip(Joined(g))])
    ensures |Joined(g)| > l.size && Split(g[0], l, fuel).Some? ==>
              PartsOfGroups(groups + [g], l, fuel) == Some(merged + Split(g[0], l, fuel).value)
  {
    hide Joined, Split, Strip;
    assert (groups + [g])[..|groups|] == groups;
  }

  /** Closing the open group. */
  lemma CloseGroup(groups: seq<seq<string>>, open: seq<string>, p: Packing, solid: seq<string>, l: Limits, fuel: nat)
    returns (closed: seq<seq<string>>)
    requires PacksAs(groups, open, p, solid, l, fuel)
    ensures Greedy(closed, l.size) && PartsOfGroups(closed, l, fuel) == Some(Closed(p)) && Flatten(closed) == solid
    ensures closed == if open == [] then groups else groups + [open]
  {
    hide Joined, Split, Strip;
    NothingOpen(open);
    if open == [] {
      closed := groups;
      assert Flatten(groups) + [] == Flatten(groups);
    } else {
      closed := groups + [open];
      GreedyPush(groups, open, l.size);
      GroupsPush(groups, open, l, fuel, p.merged);
    }
  }

  lemma FittingPiece(groups: seq<seq<string>>, open: seq<string>, p: Packing, solid: seq<string>, l: Limits, fuel: nat, piece: string)
    requires PacksAs(groups, open, p, solid, l, fuel) && Strip(piece) != [] && |p.buf + piece| <= l.size
    ensures PacksAs(groups, open + [piece], p.(buf := p.buf + piece), solid + [piece], l, fuel)
  {
    hide Joined, Split, Strip, Greedy, PartsOfGroups;
    JoinedPush(open, piece);
    JoinedOnePiece(piece);
    assert Flatten(groups) + (open + [piece]) == (Flatten(groups) + open) + [piece];
  }

  lemma ClosingPiece(groups: seq<seq<string>>, open: seq<string>, p: Packing, solid: seq<string>, l: Limits, fuel: nat, piece: string)
    returns (closed: seq<seq<string>>)
    requires PacksAs(groups, open, p, solid, l, fuel) && Strip(piece) != [] && |p.buf + piece| > l.size && |piece| <= l.size
    ensures PacksAs(closed, [piece], Packing(Closed(p), piece), solid + [piece], l, fuel)
  {
    closed := CloseGroup(groups, open, p, solid, l, fuel);
    hide Joined, Split, Strip, Greedy, PartsOfGroups, Closed, Flatten;
    JoinedOnePiece(piece);
  }

  lemma LongPiece(groups: seq<seq<string>>, open: seq<string>, p: Packing, solid: seq<string>, l: Limits, fuel: nat, piece: string)
    returns (groups': seq<seq<string>>)
    requires PacksAs(groups, open, p, solid, l, fuel) && |piece| > l.size && Split(piece, l, fuel).Some?
    ensures PacksAs(groups', [], Packing(Closed(p) + Split(piece, l, fuel).value, []), solid + [piece], l, fuel)
  {
    hide Joined, Split, Strip, PartsOfGroups, Closed, Flatten, PacksAs, Greedy;
    var closed := CloseGroup(groups, open, p, solid, l, fuel);
    groups' := closed + [[piece]];
    LastGroupIsFull(groups, open, p, solid, l, fuel, piece);
    JoinedOnePiece(piece);
    GreedyPush(closed, [piece], l.size);
    GreedyNonEmpty(closed, l.size);
    GroupsPush(closed, [piece], l, fuel, Closed(p));
    LongPiecePacks(groups', Closed(p) + Split(piece, l, fuel).value, solid + [piece], l, fuel, piece);
  }

  lemma GreedyNonEmpty(groups: seq<seq<string>>, size: nat)
    requires Greedy(groups, size)
    ensures forall j :: 0 <= j < |groups| ==> groups[j] != []
  {
    hide Joined;
  }

  lemma LastGroupIsFull(groups: seq<seq<string>>, open: seq<string>, p: Packing, solid: seq<string>, l: Limits, fuel: nat, piece: string)
    requires PacksAs(groups, open, p, solid, l, fuel) && |piece| > l.size
    ensures var closed := if open == [] then groups else groups + [open];
            closed != [] && |Joined(closed[|closed| - 1])| <= l.size ==> |Joined(closed[|closed| - 1])| + |piece| > l.size
  {
    hide Joined, Split, Strip, PartsOfGroups, Flatten, Greedy;
  }

  lemma LongPiecePacks(groups: seq<seq<string>>, merged: seq<string>, solid: seq<string>, l: Limits, fuel: nat, piece: string)
    requires Greedy(groups, l.size) && PartsOfGroups(groups, l, fuel) == Some(merged) && Flatten(groups) == solid
    requires groups != [] && groups[|groups| - 1] == [piece] && |piece| > l.size
    ensures PacksAs(groups, [], Packing(merged, []), solid, l, fuel)
  {
    hide Split, Strip, PartsOfGroups, Flatten, Greedy;
    JoinedOnePiece(piece);
  }

  /** One more piece keeps the packing greedy. */
  lemma PieceStaysGreedy(groups: seq<seq<string>>, open: seq<string>, p: Packing, solid: seq<string>, l: Limits, fuel: nat, piece: string)
    returns (groups': seq<seq<string>>, open': seq<string>)
    requires PacksAs(groups, open, p, solid, l, fuel) && PackPiece(piece, p, l, fuel).Some?
    ensures PacksAs(groups', open', PackPiece(piece, p, l, fuel).value,
                    solid + (if Strip(piece) == [] then [] else [piece]), l, fuel)
  {
    hide Joined, Split, Strip, Closed, PacksAs;
    if Strip(piece) == [] {
      groups', open' := groups, open;
      assert solid + [] == solid;
    } else if |p.buf + piece| <= l.size {
      groups', open' := groups, open + [piece];
      FittingPiece(groups, open, p, solid, l, fuel, piece);
    } else if |piece| <= l.size {
      groups' := ClosingPiece(groups, open, p, solid, l, fuel, piece);
      open' := [piece];
    } else {
      groups' := LongPiece(groups, open, p, solid, l, fuel, piece);
      open' := [];
    }
  }

  lemma JoinedOnePiece(piece: string)
    ensures Joined([piece]) == piece && Joined([]) == []
  {
    JoinedOne(piece);
  }

  lemma {:induction false} PackIsGreedy(parts: seq<string>, sep: string, l: Limits, fuel: nat, n: nat)
    returns (groups: seq<seq<string>>, open: seq<string>)
    requires n <= |parts| && Pack(parts, sep, l, fuel, n).Some?
    ensures PacksAs(groups, open, Pack(parts, sep, l, fuel, n).value, Solid(parts, sep, n), l, fuel)
  {
    hide PackPiece, PieceAt, Strip, Split;
    if n == 0 {
      groups, open := [], [];
      JoinedOnePiece("");
    } else {
      groups, open := PackIsGreedy(parts, sep, l, fuel, n - 1);
      hide PacksAs;
      groups, open := PieceStaysGreedy(groups, open, Pack(parts, sep, l, fuel, n - 1).value, Solid(parts, sep, n - 1), l, fuel,
                                       PieceAt(parts, sep, n - 1));
    }
  }

  /** Greedy groups of the solid pieces of t at sep, and the parts made of them. */
  ghost predicate IsGreedySplit(t: string, sep: string, l: Limits, fuel: nat, groups: seq<seq<string>>, parts: seq<string>)
    requires sep != []
  {
    && Greedy(groups, l.size)
    && Flatten(groups) == Solid(SplitOn(t, sep), sep, |SplitOn(t, sep)|)
    && PartsOfGroups(groups, l, fuel) == Some(parts)
  }

  /**
    A text that is too long is cut at the coarsest break that occurs in it, wherever it occurs,
    and the pieces are put together greedily: as many whole consecutive pieces as fit make a part.
   */
  lemma SplitIsGreedy(text: string, sep: string, l: Limits, fuel: nat) returns (groups: seq<seq<string>>)
    requires l.Valid() && |Strip(text)| > l.size && ComesFirst(Strip(text), sep) && Split(text, l, fuel).Some?
    ensures fuel > 0 && sep != [] && IsGreedySplit(Strip(text), sep, l, fuel - 1, groups, Split(text, l, fuel).value)
  {
    hide *;
    var t := Strip(text);
    var k := FirstHasIndex(t, sep);
    LongSplit(text, l, fuel);
    SkipClean(t, l, fuel, 0, k);
    NeedsFuel(t, l, fuel, k);
    FirstSeparatorDecides(t, l, fuel, k);
    var parts := SplitOn(t, sep);
    var p := Pack(parts, sep, l, fuel - 1, |parts|).value;
    var open: seq<string>;
    groups, open := PackIsGreedy(parts, sep, l, fuel - 1, |parts|);
    groups := CloseGroup(groups, open, p, Solid(parts, sep, |parts|), l, fuel - 1);
    GreedySplitFromParts(t, sep, l, fuel - 1, groups, Closed(p));
  }

  lemma GreedySplitFromParts(t: string, sep: string, l: Limits, fuel: nat, groups: seq<seq<string>>, parts: seq<string>)
    requires sep != [] && Greedy(groups, l.size) && Flatten(groups) == Solid(SplitOn(t, sep), sep, |SplitOn(t, sep)|)
    requires PartsOfGroups(groups, l, fuel) == Some(parts)
    ensures IsGreedySplit(t, sep, l, fuel, groups, parts)
  {
  }

  lemma LongSplit(text: string, l: Limits, fuel: nat)
    requires |Strip(text)| > l.size
    ensures Ink(Strip(text)) != [] && Split(text, l, fuel) == TrySeparators(Strip(text), l, fuel, 0)
  {
    hide Strip, Ink, TrySeparators;
    StripFacts(text);
  }

  lemma NeedsFuel(t: string, l: Limits, fuel: nat, k: nat)
    requires k < SEPARATORS && !Lacks(t, SepAt(k)) && TrySeparators(t, l, fuel, k).Some?
    ensures fuel > 0
  {
    hide Lacks, SepAt, SplitOn, Pack, HardCut;
  }

  /** Every group as one stripped part. */
  function Runs(groups: seq<seq<string>>): seq<string> {
    seq(|groups|, j requires 0 <= j < |groups| => Strip(Joined(groups[j])))
  }

  lemma RunsPush(groups: seq<seq<string>>)
    requires groups != []
    ensures Runs(groups) == Runs(groups[..|groups| - 1]) + [Strip(Joined(groups[|groups| - 1]))]
  {
    hide Strip, Joined;
  }

  /** Where every piece fits, each part is a run of whole pieces, stripped. */
  lemma {:induction false} RunsOfWholePieces(groups: seq<seq<string>>, l: Limits, fuel: nat)
    requires Greedy(groups, l.size) && forall i :: 0 <= i < |Flatten(groups)| ==> |Flatten(groups)[i]| <= l.size
    ensures PartsOfGroups(groups, l, fuel) == Some(Runs(groups))
  {
    hide Strip, Joined, Split, Runs;
    NoRuns();
    if groups != [] {
      var n := |groups| - 1;
      var g := groups[n];
      RunsPush(groups);
      assert Flatten(groups) == Flatten(groups[..n]) + g;
      assert forall i :: 0 <= i < |Flatten(groups[..n])| ==> Flatten(groups[..n])[i] == Flatten(groups)[i];
      RunsOfWholePieces(groups[..n], l, fuel);
      assert g[0] == Flatten(groups)[|Flatten(groups[..n])|];
      if |g| == 1 {
        assert g == [g[0]];
        JoinedOnePiece(g[0]);
      }
    }
  }

  lemma NoRuns()
    ensures Runs([]) == []
  {
  }

  /**
    Whole paragraphs: if every paragraph fits, each part is a run of whole consecutive paragraphs.
    The same holds for lines and for sentences, where no coarser break occurs.
   */
  lemma WholePieces(text: string, sep: string, l: Limits, fuel: nat) returns (groups: seq<seq<string>>)
    requires l.Valid() && |Strip(text)| > l.size && ComesFirst(Strip(text), sep) && Split(text, l, fuel).Some?
    requires sep != [] && forall i :: 0 <= i < |SplitOn(Strip(text), sep)| ==> |PieceAt(SplitOn(Strip(text), sep), sep, i)| <= l.size
    ensures Greedy(groups, l.size) && Flatten(groups) == Solid(SplitOn(Strip(text), sep), sep, |SplitOn(Strip(text), sep)|)
    ensures Split(text, l, fuel) == Some(Runs(groups))
  {
    hide Strip, Joined, Split, Greedy, SplitOn, ComesFirst, PieceAt, Runs;
    groups := SplitIsGreedy(text, sep, l, fuel);
    SolidFits(SplitOn(Strip(text), sep), sep, l, |SplitOn(Strip(text), sep)|);
    RunsOfWholePieces(groups, l, fuel - 1);
  }

  lemma {:induction false} SolidFits(parts: seq<string>, sep: string, l: Limits, n: nat)
    requires n <= |parts| && forall i :: 0 <= i < |parts| ==> |PieceAt(parts, sep, i)| <= l.size
    ensures forall i :: 0 <= i < |Solid(parts, sep, n)| ==> |Solid(parts, sep, n)[i]| <= l.size
  {
    hide Strip, PieceAt;
    if n > 0 {
      SolidFits(parts, sep, l, n - 1);
    }
  }

  /** In particular paragraphs come first, and are kept whole where they all fit. */
  lemma WholeParagraphs(text: string, l: Limits, fuel: nat) returns (groups: seq<seq<string>>)
    requires l.Valid() && |Strip(text)| > l.size && !Lacks(Strip(text), "\n\n") && Split(text, l, fuel).Some?
    requires forall i :: 0 <= i < |SplitOn(Strip(text), "\n\n")| ==> |PieceAt(SplitOn(Strip(text), "\n\n"), "\n\n", i)| <= l.size
    ensures Greedy(groups, l.size) && Flatten(groups) == Solid(SplitOn(Strip(text), "\n\n"), "\n\n", |SplitOn(Strip(text), "\n\n")|)
    ensures Split(text, l, fuel) == Some(Runs(groups))
  {
    groups := WholePieces(text, "\n\n", l, fuel);
  }

  // ---------- hard cuts ----------

  /** The text from a position on, as far as the chunk size reaches, stripped. */
  function Window(text: string, size: nat, at: nat): string {
    if at >= |text| then [] else Strip(text[at..if at + size < |text| then at + size else |text|])
  }

  function Windows(text: string, size: nat, step: nat, m: nat): seq<string> {
    seq(m, j requires 0 <= j < m => Window(text, size, j * step))
  }

  lemma {:induction false} WindowsThenCuts(text: string, l: Limits, step: nat, m: nat)
    requires l.Valid() && step == (if l.size > l.overlap then l.size - l.overlap else 1)
    requires m > 0 ==> (m - 1) * step < |text|
    ensures NonBlank(Windows(text, l.size, step, m)) + HardCut(text, l, m * step) == HardCut(text, l, 0)
  {
    hide Strip, IsSpace, NonBlank, HardCut;
    if m == 0 {
      CutsDone(text, l, |text|);
      assert Windows(text, l.size, step, 0) == [];
    } else {
      StepBack(m, step);
      WindowsThenCuts(text, l, step, m - 1);
      var before := Windows(text, l.size, step, m - 1);
      assert Windows(text, l.size, step, m) == before + [Window(text, l.size, (m - 1) * step)];
      CutStep(text, l, (m - 1) * step, before, Window(text, l.size, (m - 1) * step));
    }
  }

  lemma StepBack(m: nat, step: nat)
    requires m > 0
    ensures m * step == (m - 1) * step + step
    ensures m > 1 ==> (m - 2) * step <= (m - 1) * step
  {
  }

  /**
    A text without any break is cut at every multiple of size - overlap, each cut the chunk size
    long; cuts that are blank are dropped.
   */
  lemma UnbrokenIsCutEvenly(text: string, l: Limits, step: nat, m: nat, fuel: nat)
    requires l.Valid() && |Strip(text)| > l.size && Unbroken(Strip(text))
    requires step == (if l.size > l.overlap then l.size - l.overlap else 1)
    requires m > 0 && (m - 1) * step < |Strip(text)| <= m * step
    ensures Split(text, l, fuel) == Some(NonBlank(Windows(Strip(text), l.size, step, m)))
  {
    hide *;
    var t := Strip(text);
    LongSplit(text, l, fuel);
    UnbrokenIsClean(t);
    SkipClean(t, l, fuel, 0, SEPARATORS);
    NoSeparatorLeft(t, l, fuel);
    WindowsThenCuts(t, l, step, m);
    CutsDone(t, l, m * step);
    assert NonBlank(Windows(t, l.size, step, m)) + [] == NonBlank(Windows(t, l.size, step, m));
  }

  lemma UnbrokenIsClean(t: string)
    requires Unbroken(t)
    ensures Clean(t, SEPARATORS)
  {
    SeparatorsInOrder();
    hide SepAt, Lacks;
  }

  lemma NoSeparatorLeft(t: string, l: Limits, fuel: nat)
    ensures TrySeparators(t, l, fuel, SEPARATORS) == Some(HardCut(t, l, 0))
  {
    hide HardCut;
  }
}
