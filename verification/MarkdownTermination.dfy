/**
  When the recursive splitter ends, exactly.

  A sentence mark stays at the end of its piece.  A piece that is one over-long sentence is
  therefore split into itself, for ever; nothing else goes wrong.
 */
module MarkdownTermination {
  import opened Common
  import opened Text
  import opened MarkdownSplitter

  /**
    The separators from the k-th on, each tried once, on a text that is too long.  A line break
    cuts it into pieces that go on to the next separator.  A sentence mark cuts it into pieces
    that it ends, which must all fit, and a last one that goes on.
   */
  predicate Breakable(text: string, l: Limits, k: nat)
    requires k <= 6
    decreases 6 - k
  {
    var t := Strip(text);
    if |t| <= l.size || k == 6 then true
    else if Lacks(t, SepAt(k)) then Breakable(t, l, k + 1)
    else
      var parts := SplitOn(t, SepAt(k));
      var last := |parts| - 1;
      if IsMark(k) then (forall i :: 0 <= i < last ==> Fits(PieceAt(parts, SepAt(k), i), l)) && Breakable(parts[last], l, k + 1)
      else forall i :: 0 <= i < |parts| ==> Breakable(PieceAt(parts, SepAt(k), i), l, k + 1)
  }

  predicate Fits(text: string, l: Limits) {
    |Strip(text)| <= l.size
  }

  /** None of the first k separators occurs. */
  predicate Clean(t: string, k: nat)
    requires k <= SEPARATORS
  {
    forall j :: 0 <= j < k ==> Lacks(t, SepAt(j))
  }

  /** What the recursion needs of a text of which k separators have been dealt with. */
  predicate Ready(text: string, l: Limits, k: nat)
    requires k <= SEPARATORS
  {
    Fits(text, l) || (Clean(Strip(text), k) && (k < 6 ==> Breakable(text, l, k)))
  }

  lemma CleanWithin(text: string, p: string, a: int, k: nat)
    requires k <= SEPARATORS && Occurs(text, p, a) && Clean(text, k)
    ensures Clean(p, k)
  {
    forall j | 0 <= j < k ensures Lacks(p, SepAt(j)) {
      LacksWithin(text, p, a, SepAt(j));
    }
  }

  lemma CleanStrip(text: string, k: nat)
    requires k <= SEPARATORS && Clean(text, k)
    ensures Clean(Strip(text), k)
  {
    StripFacts(text);
    var a :| Occurs(text, Strip(text), a);
    CleanWithin(text, Strip(text), a, k);
  }

  /** Stripping takes a trailing space separator away. */
  lemma StripLosesSeparator(part: string, sep: string)
    requires sep != [] && IsSpace(sep[|sep| - 1])
    requires forall i :: Occurs(part + sep, sep, i) ==> i == |part|
    ensures Lacks(Strip(part + sep), sep)
  {
    var p := part + sep;
    var t := Strip(p);
    StripFacts(p);
    var a :| Occurs(p, t, a);
    assert p[|p| - 1] == sep[|sep| - 1];
    assert t != [] ==> t[|t| - 1] == p[a + |t| - 1];
    forall i | 0 <= i <= |t| ensures !Occurs(t, sep, i) {
      if Occurs(t, sep, i) {
        OccursWithin(p, t, a, sep, i);
      }
    }
  }

  /** A sentence mark survives stripping, and stays the last character. */
  lemma StripKeepsMark(part: string, mark: char)
    requires !IsSpace(mark) && forall i :: Occurs(part + [mark], [mark], i) ==> i == |part|
    ensures var t := Strip(part + [mark]);
            t != [] && t[|t| - 1] == mark && forall i :: Occurs(t, [mark], i) ==> i == |t| - 1
  {
    var p := part + [mark];
    var t := Strip(p);
    StripFacts(p);
    assert p[..|p| - 1] == part;
    hide IsSpace;
    assert Ink(p) != [];
    var a :| Occurs(p, t, a);
    if !IsSpace(p[|p| - 1]) {
      LastSurvives(p, t, a);
    }
    forall i | Occurs(t, [mark], i) ensures i == |t| - 1 {
      OccursWithin(p, t, a, [mark], i);
    }
  }

  lemma LastSurvives(p: string, t: string, a: int)
    requires p != [] && !IsSpace(p[|p| - 1]) && t == Strip(p) && t != [] && Occurs(p, t, a)
    ensures t[|t| - 1] == p[|p| - 1]
  {
    hide IsSpace;
    LStripInk(p);
    assert Ink(p) != [];
    assert RStrip(LStrip(p)) == LStrip(p);
  }

  lemma SeparatorEnds(k: nat)
    requires k < SEPARATORS
    ensures IsMark(k) ==> |SepAt(k)| == 1 && !IsSpace(SepAt(k)[0])
    ensures !IsMark(k) ==> IsSpace(SepAt(k)[|SepAt(k)| - 1])
  {
  }

  lemma CleanNext(t: string, k: nat)
    requires k < SEPARATORS && Clean(t, k) && Lacks(t, SepAt(k))
    ensures Clean(t, k + 1)
  {
  }

  lemma SplitPiece(t: string, k: nat, i: nat)
    requires k < SEPARATORS && i < |SplitOn(t, SepAt(k))|
    ensures GoodPiece(t, SepAt(k), SplitOn(t, SepAt(k)), i)
  {
    hide SplitOn, GoodPiece, JoinFrom, SepAt;
    SplitFacts(t, SepAt(k));
  }

  lemma PieceStaysClean(t: string, k: nat, parts: seq<string>, sep: string, i: nat)
    requires k <= SEPARATORS && Clean(t, k) && i < |parts| && GoodPiece(t, sep, parts, i)
    ensures var p := PieceAt(parts, sep, i); Clean(p, k) && Clean(Strip(p), k)
  {
    hide Strip, Occurs, Lacks, Clean, PieceAt;
    var p := PieceAt(parts, sep, i);
    var a :| Occurs(t, p, a);
    CleanWithin(t, p, a, k);
    CleanStrip(p, k);
  }

  /** A piece is clean of everything its text was clean of, and, unless a mark ends it, of its own separator. */
  lemma PieceIsCleaner(t: string, k: nat, i: nat)
    requires k < SEPARATORS && Clean(t, k) && i < |SplitOn(t, SepAt(k))|
    ensures var parts := SplitOn(t, SepAt(k));
            var s := Strip(PieceAt(parts, SepAt(k), i));
            Clean(s, k) && (i == |parts| - 1 || !IsMark(k) ==> Clean(s, k + 1))
  {
    hide Strip, IsSpace, SplitOn, SepAt, Occurs, Lacks, Clean;
    var parts, sep := SplitOn(t, SepAt(k)), SepAt(k);
    var p := PieceAt(parts, sep, i);
    SplitPiece(t, k, i);
    SeparatorEnds(k);
    PieceStaysClean(t, k, parts, sep, i);
    if i == |parts| - 1 {
      CleanNext(p, k);
      CleanStrip(p, k + 1);
    } else if !IsMark(k) {
      StripLosesSeparator(parts[i], sep);
      CleanNext(Strip(p), k);
    }
  }

  /** So the recursion only ever descends to later separators. */
  lemma PieceIsReady(t: string, l: Limits, k: nat, i: nat)
    requires k < SEPARATORS && Strip(t) == t && Clean(t, k) && |t| > l.size && !Lacks(t, SepAt(k))
    requires k < 6 ==> Breakable(t, l, k)
    requires i < |SplitOn(t, SepAt(k))|
    ensures Ready(PieceAt(SplitOn(t, SepAt(k)), SepAt(k), i), l, k + 1)
  {
    PieceIsCleaner(t, k, i);
    hide Clean, SplitOn, SepAt, Strip, Lacks;
  }

  lemma NextSeparator(t: string, l: Limits, k: nat)
    requires k < SEPARATORS && Strip(t) == t && Clean(t, k) && |t| > l.size && Lacks(t, SepAt(k))
    ensures Clean(t, k + 1)
    ensures k < 6 ==> (Breakable(t, l, k) <==> Breakable(t, l, k + 1))
  {
  }

  // ---------- when it ends ----------

  lemma {:induction false} SplitEnds(text: string, l: Limits, k: nat, fuel: nat)
    requires l.Valid() && k <= SEPARATORS && Ready(text, l, k) && fuel >= SEPARATORS - k
    ensures Split(text, l, fuel).Some?
    decreases SEPARATORS - k, 2, 0
  {
    StripFacts(text);
    StripTwice(text);
    var t := Strip(text);
    if |t| > l.size {
      assert k < 6 ==> Breakable(t, l, k);
      SkipClean(t, l, fuel, 0, k);
      TryEnds(t, l, k, k, fuel);
    }
  }

  lemma TryStep(t: string, l: Limits, fuel: nat, k: nat)
    requires k < SEPARATORS && Lacks(t, SepAt(k))
    ensures TrySeparators(t, l, fuel, k) == TrySeparators(t, l, fuel, k + 1)
  {
    hide Lacks, SepAt, HardCut, Pack, SplitOn, Closed, Accepts;
  }

  lemma CleanAt(t: string, i: nat, k: nat)
    requires i < k <= SEPARATORS && Clean(t, k)
    ensures i < SEPARATORS && Lacks(t, SepAt(i))
  {
  }

  lemma {:induction false} SkipClean(t: string, l: Limits, fuel: nat, i: nat, k: nat)
    requires i <= k <= SEPARATORS && Clean(t, k)
    ensures TrySeparators(t, l, fuel, i) == TrySeparators(t, l, fuel, k)
    decreases k - i
  {
    hide *;
    if i < k {
      CleanAt(t, i, k);
      TryStep(t, l, fuel, i);
      SkipClean(t, l, fuel, i + 1, k);
    }
  }

  lemma {:induction false} TryEnds(t: string, l: Limits, k: nat, j: nat, fuel: nat)
    requires l.Valid() && k <= j <= SEPARATORS && fuel >= SEPARATORS - k
    requires Strip(t) == t && |t| > l.size && Clean(t, j) && (j < 6 ==> Breakable(t, l, j)) && Ink(t) != []
    ensures TrySeparators(t, l, fuel, j).Some?
    decreases SEPARATORS - k, 1, SEPARATORS - j
  {
    hide Lacks, Clean, Breakable, Ink, Strip, SepAt, Ready, HardCut, Pack, SplitOn, Closed, Accepts;
    if j < SEPARATORS {
      if Lacks(t, SepAt(j)) {
        TryStep(t, l, fuel, j);
        NextSeparator(t, l, j);
        TryEnds(t, l, k, j + 1, fuel);
      } else {
        FirstSeparatorDecides(t, l, fuel, j);
        var parts := SplitOn(t, SepAt(j));
        forall i | 0 <= i < |parts| ensures Ready(PieceAt(parts, SepAt(j), i), l, j + 1) {
          PieceIsReady(t, l, j, i);
        }
        PackEnds(parts, SepAt(j), l, j + 1, fuel - 1, |parts|);
      }
    }
  }

  lemma {:induction false} PackEnds(parts: seq<string>, sep: string, l: Limits, k: nat, fuel: nat, n: nat)
    requires l.Valid() && k <= SEPARATORS && fuel >= SEPARATORS - k && n <= |parts|
    requires forall i :: 0 <= i < |parts| ==> Ready(PieceAt(parts, sep, i), l, k)
    ensures Pack(parts, sep, l, fuel, n).Some?
    decreases SEPARATORS - k, 3, n
  {
    if n > 0 {
      PackEnds(parts, sep, l, k, fuel, n - 1);
      SplitEnds(PieceAt(parts, sep, n - 1), l, k, fuel);
      hide Ready, Strip, Split;
    }
  }

  // ---------- when it does not ----------

  lemma {:induction false} PackStuck(parts: seq<string>, sep: string, l: Limits, fuel: nat, i: nat, n: nat)
    requires i < n <= |parts|
    requires var p := PieceAt(parts, sep, i); |Strip(p)| > l.size && Split(p, l, fuel).None?
    ensures Pack(parts, sep, l, fuel, n).None?
  {
    hide Strip, Split, Ink, Occurs, Closed, PieceAt;
    StripFacts(PieceAt(parts, sep, i));
    if n > i + 1 {
      PackStuck(parts, sep, l, fuel, i, n - 1);
    }
  }

  /** A stuck piece leaves the whole text stuck. */
  lemma TextStuck(t: string, l: Limits, fuel: nat, k: nat, i: nat)
    requires l.Valid() && k < SEPARATORS && Clean(t, k) && !Lacks(t, SepAt(k))
    requires Strip(t) == t && |t| > l.size && Ink(t) != []
    requires i < |SplitOn(t, SepAt(k))|
    requires var p := PieceAt(SplitOn(t, SepAt(k)), SepAt(k), i);
             |Strip(p)| > l.size && (fuel > 0 ==> Split(p, l, fuel - 1).None?)
    ensures TrySeparators(t, l, fuel, 0).None?
  {
    hide Lacks, Clean, Ink, Strip, SepAt, HardCut, Pack, SplitOn, Closed, Accepts, Split;
    SkipClean(t, l, fuel, 0, k);
    if fuel > 0 {
      FirstSeparatorDecides(t, l, fuel, k);
      PackStuck(SplitOn(t, SepAt(k)), SepAt(k), l, fuel - 1, i, |SplitOn(t, SepAt(k))|);
    }
  }

  /** An over-long sentence that its only mark ends is its own first piece. */
  lemma {:induction false} LongSentenceNeverEnds(t: string, l: Limits, fuel: nat, k: nat)
    requires l.Valid() && IsMark(k) && Clean(t, k) && Strip(t) == t && |t| > l.size
    requires Occurs(t, SepAt(k), |t| - 1) && forall i :: Occurs(t, SepAt(k), i) ==> i == |t| - 1
    ensures Split(t, l, fuel).None?
  {
    hide Strip, IsSpace, SplitOn, SepAt, Lacks, Clean, Ink, Split, TrySeparators;
    SentenceIsItsPiece(t, k);
    LongIsTried(t, l, fuel);
    if fuel > 0 {
      LongSentenceNeverEnds(t, l, fuel - 1, k);
    }
    TextStuck(t, l, fuel, k, 0);
  }

  lemma LongIsTried(t: string, l: Limits, fuel: nat)
    requires Strip(t) == t && |t| > l.size
    ensures Ink(t) != [] && Split(t, l, fuel) == TrySeparators(t, l, fuel, 0)
  {
    hide Strip, IsSpace, Ink, TrySeparators;
    StripFacts(t);
  }

  lemma SentenceIsItsPiece(t: string, k: nat)
    requires IsMark(k) && t != []
    requires Occurs(t, SepAt(k), |t| - 1) && forall i :: Occurs(t, SepAt(k), i) ==> i == |t| - 1
    ensures k < SEPARATORS && !Lacks(t, SepAt(k)) && PieceAt(SplitOn(t, SepAt(k)), SepAt(k), 0) == t
  {
    hide SplitOn, SepAt, JoinFrom, PieceAt;
    var parts, sep := SplitOn(t, SepAt(k)), SepAt(k);
    SplitFacts(t, sep);
    SeparatorEnds(k);
    FirstPieceWhole(t, sep, parts);
  }

  lemma FirstPieceWhole(t: string, sep: string, parts: seq<string>)
    requires |sep| == 1 && |parts| > 1 && JoinFrom(parts, sep, 0) == t
    requires forall i :: Occurs(t, sep, i) ==> i == |t| - 1
    ensures PieceAt(parts, sep, 0) == t
  {
    hide JoinFrom;
    JoinFromFirst(parts, sep);
    var rest := JoinFrom(parts, sep, 1);
    assert Occurs(parts[0] + sep + rest, sep, |parts[0]|);
  }

  lemma {:induction false} UnbreakableNeverEnds(text: string, l: Limits, k: nat, fuel: nat)
    requires l.Valid() && k <= 6 && Clean(Strip(text), k) && !Breakable(text, l, k)
    ensures Split(text, l, fuel).None?
    decreases 6 - k, 1
  {
    hide *;
    var t := Strip(text);
    UnbreakableIsLong(text, l, k, fuel);
    if Lacks(t, SepAt(k)) {
      NextSeparator(t, l, k);
      UnbreakableNeverEnds(t, l, k + 1, fuel);
    } else {
      UnbreakableTries(t, l, k, fuel);
    }
  }

  lemma UnbreakableIsLong(text: string, l: Limits, k: nat, fuel: nat)
    requires k <= 6 && !Breakable(text, l, k)
    ensures k < 6 && k + 1 < SEPARATORS
    ensures var t := Strip(text);
            && Strip(t) == t && |t| > l.size && Ink(t) != [] && !Breakable(t, l, k)
            && Split(text, l, fuel) == Split(t, l, fuel) == TrySeparators(t, l, fuel, 0)
  {
    hide IsSpace, LStrip, RStrip, SplitOn, SepAt, Lacks, Strip, IsMark, Fits, Ink, TrySeparators;
    StripFacts(text);
    StripTwice(text);
  }

  lemma {:induction false} UnbreakableTries(t: string, l: Limits, k: nat, fuel: nat)
    requires l.Valid() && k < 6 && k + 1 < SEPARATORS && Clean(t, k) && !Breakable(t, l, k)
    requires Strip(t) == t && |t| > l.size && Ink(t) != [] && !Lacks(t, SepAt(k))
    ensures TrySeparators(t, l, fuel, 0).None?
    decreases 6 - k, 0
  {
    hide *;
    var i, p := CleanBadPiece(t, l, k);
    if fuel > 0 {
      if IsMark(k) && i < |SplitOn(t, SepAt(k))| - 1 {
        LongPieceNeverEnds(t, l, k, i, p, fuel - 1);
      } else {
        UnbreakableNeverEnds(p, l, k + 1, fuel - 1);
      }
    }
    TextStuck(t, l, fuel, k, i);
  }

  lemma CleanBadPiece(t: string, l: Limits, k: nat) returns (i: nat, p: string)
    requires k < 6 && Strip(t) == t && Clean(t, k) && !Lacks(t, SepAt(k)) && !Breakable(t, l, k)
    ensures i < |SplitOn(t, SepAt(k))| && p == PieceAt(SplitOn(t, SepAt(k)), SepAt(k), i)
    ensures |Strip(p)| > l.size
    ensures (IsMark(k) && i < |SplitOn(t, SepAt(k))| - 1) || (Clean(Strip(p), k + 1) && !Breakable(p, l, k + 1))
  {
    i := BadPiece(t, l, k);
    PieceIsCleaner(t, k, i);
    p := PieceAt(SplitOn(t, SepAt(k)), SepAt(k), i);
    hide Breakable, Lacks, Clean, Strip, SepAt, SplitOn, IsMark;
  }

  lemma BadPiece(t: string, l: Limits, k: nat) returns (i: nat)
    requires k < 6 && Strip(t) == t && !Lacks(t, SepAt(k)) && !Breakable(t, l, k)
    ensures var parts := SplitOn(t, SepAt(k));
            && i < |parts|
            && |Strip(PieceAt(parts, SepAt(k), i))| > l.size
            && ((IsMark(k) && i < |parts| - 1) || !Breakable(PieceAt(parts, SepAt(k), i), l, k + 1))
  {
    hide Strip, IsSpace, SplitOn, SepAt, Lacks, IsMark;
    var parts, sep := SplitOn(t, SepAt(k)), SepAt(k);
    if !IsMark(k) {
      i :| 0 <= i < |parts| && !Breakable(PieceAt(parts, sep, i), l, k + 1);
    } else if exists j :: 0 <= j < |parts| - 1 && !Fits(PieceAt(parts, sep, j), l) {
      i :| 0 <= i < |parts| - 1 && !Fits(PieceAt(parts, sep, i), l);
    } else {
      i := |parts| - 1;
    }
  }

  lemma LongPieceNeverEnds(t: string, l: Limits, k: nat, i: nat, p: string, fuel: nat)
    requires l.Valid() && IsMark(k) && Clean(t, k) && i < |SplitOn(t, SepAt(k))| - 1
    requires p == PieceAt(SplitOn(t, SepAt(k)), SepAt(k), i) && |Strip(p)| > l.size
    ensures Split(p, l, fuel).None?
  {
    MarkedPiece(t, k, i, p);
    PieceIsCleaner(t, k, i);
    StripFacts(p);
    StripTwice(p);
    var s := Strip(p);
    assert Split(p, l, fuel) == Split(s, l, fuel);
    hide Strip, SplitOn, Clean, SepAt, Split, Ink;
    LongSentenceNeverEnds(s, l, fuel, k);
  }

  /** A piece that a mark ends still ends with it when stripped, and has it nowhere else. */
  lemma MarkedPiece(t: string, k: nat, i: nat, p: string)
    requires IsMark(k) && i < |SplitOn(t, SepAt(k))| - 1
    requires p == PieceAt(SplitOn(t, SepAt(k)), SepAt(k), i)
    ensures var s := Strip(p);
            Occurs(s, SepAt(k), |s| - 1) && forall j :: Occurs(s, SepAt(k), j) ==> j == |s| - 1
  {
    hide Strip, IsSpace, SplitOn, SepAt, Occurs, Lacks;
    var parts, sep := SplitOn(t, SepAt(k)), SepAt(k);
    SplitPiece(t, k, i);
    SeparatorEnds(k);
    assert sep == [sep[0]];
    StripKeepsMark(parts[i], sep[0]);
    MarkIsLast(Strip(p), sep[0]);
  }

  lemma MarkIsLast(s: string, mark: char)
    requires s != [] && s[|s| - 1] == mark
    ensures Occurs(s, [mark], |s| - 1)
  {
  }

  /**
    The splitter ends exactly when no over-long sentence is left standing on its own; it then
    needs no more nested calls than there are separators.
   */
  lemma SplitEndsIff(text: string, l: Limits)
    requires l.Valid()
    ensures (exists fuel :: Split(text, l, fuel).Some?) <==> Breakable(text, l, 0)
    ensures Breakable(text, l, 0) ==> Split(text, l, SEPARATORS).Some?
  {
    if Breakable(text, l, 0) {
      SplitEnds(text, l, 0, SEPARATORS);
    } else {
      forall fuel ensures Split(text, l, fuel).None? {
        UnbreakableNeverEnds(text, l, 0, fuel);
      }
    }
  }
}
