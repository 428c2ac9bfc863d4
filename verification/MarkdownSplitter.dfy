/**
  Splitting an over-long section body: recursively by ever finer separators, packing pieces
  into parts of at most the chunk size, and cutting hard where no separator is left.

  The source recurses on a piece that may be the very text it came from, so the recursion is
  given fuel here: None means the fuel ran out.
 */
module MarkdownSplitter {
  import opened Common
  import opened Text

  const SEPARATORS: nat := 9

  function SepAt(k: nat): (sep: string)
    requires k < SEPARATORS
    ensures 1 <= |sep| <= 2
  {
    if k == 0 then "\n\n" else if k == 1 then "\n"
    else if k == 2 then "。" else if k == 3 then "！" else if k == 4 then "？" else if k == 5 then "；"
    else if k == 6 then ". " else if k == 7 then "! " else "? "
  }

  /** The sentence marks that are not followed by a space. */
  predicate IsMark(k: nat) {
    2 <= k < 6
  }

  /** size >= 1 and overlap >= 0, as chunk_markdown makes them. */
  datatype Limits = Limits(size: nat, overlap: nat)
  {
    predicate Valid() { size >= 1 }

    function Stride(): (n: nat)
      ensures n >= 1
    {
      if size > overlap then size - overlap else 1
    }
  }

  /** Parts finished so far, and the one being filled. */
  datatype Packing = Packing(merged: seq<string>, buf: string)

  function Closed(p: Packing): seq<string> {
    if Strip(p.buf) == [] then p.merged else p.merged + [Strip(p.buf)]
  }

  /** The test that lets a separator's result stand. */
  predicate Accepts(merged: seq<string>, l: Limits) {
    |merged| > 1 || (|merged| == 1 && |merged[0]| <= l.size)
  }

  function HardCut(text: string, l: Limits, i: nat): seq<string>
    decreases if i < |text| then |text| - i else 0
  {
    if i >= |text| then [] else
    var cut := Strip(text[i..if i + l.size < |text| then i + l.size else |text|]);
    (if cut == [] then [] else [cut]) + HardCut(text, l, i + l.Stride())
  }

  function Split(text: string, l: Limits, fuel: nat): Option<seq<string>>
    decreases fuel, 2, 0
  {
    var t := Strip(text);
    if t == [] then Some([])
    else if |t| <= l.size then Some([t])
    else TrySeparators(t, l, fuel, 0)
  }

  function TrySeparators(t: string, l: Limits, fuel: nat, k: nat): Option<seq<string>>
    requires k <= SEPARATORS
    decreases fuel, 1, SEPARATORS - k
  {
    if k == SEPARATORS then Some(HardCut(t, l, 0))
    else if Lacks(t, SepAt(k)) then TrySeparators(t, l, fuel, k + 1)
    else if fuel == 0 then None
    else
      var parts := SplitOn(t, SepAt(k));
      var p := Pack(parts, SepAt(k), l, fuel - 1, |parts|);
      if p.None? then None
      else if Accepts(Closed(p.value), l) then Some(Closed(p.value))
      else TrySeparators(t, l, fuel, k + 1)
  }

  /** Packing after the first n pieces. */
  function Pack(parts: seq<string>, sep: string, l: Limits, fuel: nat, n: nat): Option<Packing>
    requires n <= |parts|
    decreases fuel, 4, n
  {
    if n == 0 then Some(Packing([], []))
    else
      var p := Pack(parts, sep, l, fuel, n - 1);
      if p.None? then None else PackPiece(PieceAt(parts, sep, n - 1), p.value, l, fuel)
  }

  function PackPiece(piece: string, p: Packing, l: Limits, fuel: nat): Option<Packing>
    decreases fuel, 3, 0
  {
    if Strip(piece) == [] then Some(p)
    else if |p.buf + piece| <= l.size then Some(p.(buf := p.buf + piece))
    else if |piece| <= l.size then Some(Packing(Closed(p), piece))
    else
      var inner := Split(piece, l, fuel);
      if inner.None? then None else Some(Packing(Closed(p) + inner.value, []))
  }

  // ---------- what the parts are ----------

  predicate GoodPart(p: string, l: Limits) {
    p != [] && Strip(p) == p && |p| <= l.size
  }

  predicate GoodParts(parts: seq<string>, l: Limits) {
    forall i :: 0 <= i < |parts| ==> GoodPart(parts[i], l)
  }

  /** s can be obtained from t by deleting characters. */
  predicate Subsequence(s: string, t: string) {
    if s == [] then true
    else if t == [] then false
    else (s[|s| - 1] == t[|t| - 1] && Subsequence(s[..|s| - 1], t[..|t| - 1])) || Subsequence(s, t[..|t| - 1])
  }

  lemma {:induction false} SubsequenceConcat(s: string, t: string, s': string, t': string)
    requires Subsequence(s, t) && Subsequence(s', t')
    ensures Subsequence(s + s', t + t')
    decreases |t'|
  {
    if t' == [] {
      assert s + s' == s && t + t' == t;
    } else {
      var n := |t'| - 1;
      assert (t + t')[..|t| + n] == t + t'[..n];
      if s' != [] && s'[|s'| - 1] == t'[n] && Subsequence(s'[..|s'| - 1], t'[..n]) {
        SubsequenceConcat(s, t, s'[..|s'| - 1], t'[..n]);
        assert (s + s')[..|s| + |s'| - 1] == s + s'[..|s'| - 1];
      } else {
        SubsequenceConcat(s, t, s', t'[..n]);
      }
    }
  }

  lemma {:induction false} SubsequenceSelf(s: string)
    ensures Subsequence(s, s)
  {
    if s != [] {
      SubsequenceSelf(s[..|s| - 1]);
    }
  }

  /** Nothing of s is missing from t; and nothing is added either when there is no overlap. */
  predicate Covered(s: string, t: string, l: Limits) {
    if l.overlap == 0 then s == t else Subsequence(s, t)
  }

  lemma CoveredConcat(s: string, t: string, s': string, t': string, l: Limits)
    requires Covered(s, t, l) && Covered(s', t', l)
    ensures Covered(s + s', t + t', l)
  {
    if l.overlap > 0 {
      SubsequenceConcat(s, t, s', t');
    }
  }

  lemma CoveredSelf(s: string, l: Limits)
    ensures Covered(s, s, l)
  {
    SubsequenceSelf(s);
  }

  /** A stripped piece in front of good parts, if it is not blank. */
  lemma PrependPart(raw: string, rest: seq<string>, l: Limits)
    requires |raw| <= l.size && GoodParts(rest, l)
    ensures var all := (if Strip(raw) == [] then [] else [Strip(raw)]) + rest;
            GoodParts(all, l) && Ink(Joined(all)) == Ink(raw) + Ink(Joined(rest))
  {
    hide IsSpace, LStrip, RStrip, Ink;
    StripFacts(raw);
    StripTwice(raw);
    var head := if Strip(raw) == [] then [] else [Strip(raw)];
    JoinedConcat(head, rest);
    assert Joined(head) == Strip(raw);
    hide Strip;
    InkConcat(Joined(head), Joined(rest));
  }

  lemma {:induction false} HardCutGood(text: string, l: Limits, i: nat)
    requires l.Valid() && i <= |text|
    ensures GoodParts(HardCut(text, l, i), l)
    ensures Covered(Ink(text[i..]), Ink(Joined(HardCut(text, l, i))), l)
    decreases |text| - i
  {
    hide Strip, Ink, Joined, Subsequence, GoodParts;
    if i < |text| {
      var end := if i + l.size < |text| then i + l.size else |text|;
      var next := if i + l.Stride() < |text| then i + l.Stride() else |text|;
      HardCutGood(text, l, next);
      var rest := HardCut(text, l, next);
      assert HardCut(text, l, i + l.Stride()) == rest;
      PrependPart(text[i..end], rest, l);
      assert text[i..] == text[i..next] + text[next..];
      InkConcat(text[i..next], text[next..]);
      CutCovers(text, l, i, next, end);
      hide Covered;
      CoveredConcat(Ink(text[i..next]), Ink(text[i..end]), Ink(text[next..]), Ink(Joined(rest)), l);
    } else {
      NothingGood(l);
      assert text[i..] == [];
    }
  }

  lemma NothingGood(l: Limits)
    ensures GoodParts([], l) && Covered(Ink([]), Ink(Joined([])), l)
  {
  }

  lemma CutCovers(text: string, l: Limits, i: nat, next: nat, end: nat)
    requires i <= next <= end <= |text|
    requires l.overlap == 0 ==> next == end
    ensures Covered(Ink(text[i..next]), Ink(text[i..end]), l)
  {
    var a, b := Ink(text[i..next]), Ink(text[next..end]);
    assert text[i..end] == text[i..next] + text[next..end];
    InkConcat(text[i..next], text[next..end]);
    if l.overlap > 0 {
      SubsequenceSelf(a);
      SubsequenceConcat(a, a, [], b);
      assert a + [] == a;
    } else {
      assert b == [];
    }
  }

  /** The first n pieces, put together again. */
  function JoinTo(parts: seq<string>, sep: string, n: nat): string
    requires n <= |parts|
  {
    if n == 0 then [] else JoinTo(parts, sep, n - 1) + PieceAt(parts, sep, n - 1)
  }

  lemma {:induction false} JoinToFrom(parts: seq<string>, sep: string, n: nat)
    requires n <= |parts|
    ensures JoinTo(parts, sep, n) + JoinFrom(parts, sep, n) == JoinFrom(parts, sep, 0)
  {
    hide PieceAt;
    if n == 0 {
      assert JoinTo(parts, sep, 0) == [];
    } else {
      JoinToFrom(parts, sep, n - 1);
      ConcatAssociates(JoinTo(parts, sep, n - 1), PieceAt(parts, sep, n - 1), JoinFrom(parts, sep, n));
    }
  }

  /** The packing invariant: good parts, a buffer that fits, and nothing of the input lost. */
  predicate PackingOk(p: Packing, input: string, l: Limits) {
    && GoodParts(p.merged, l)
    && |p.buf| <= l.size
    && Covered(Ink(input), Ink(Joined(p.merged)) + Ink(p.buf), l)
  }

  lemma ClosedGood(p: Packing, input: string, l: Limits)
    requires PackingOk(p, input, l)
    ensures GoodParts(Closed(p), l) && Covered(Ink(input), Ink(Joined(Closed(p))), l)
    ensures Ink(Joined(Closed(p))) == Ink(Joined(p.merged)) + Ink(p.buf)
  {
    hide IsSpace, Strip, Ink, Joined, Subsequence, Covered;
    StripFacts(p.buf);
    StripTwice(p.buf);
    if Strip(p.buf) != [] {
      var last := [Strip(p.buf)];
      JoinedConcat(p.merged, last);
      JoinedOne(Strip(p.buf));
      InkConcat(Joined(p.merged), Joined(last));
    } else {
      assert Ink(Joined(p.merged)) + Ink(p.buf) == Ink(Joined(p.merged));
    }
  }

  lemma JoinedOne(part: string)
    ensures Joined([part]) == part
  {
    assert Joined([part][..0]) == [];
  }

  ghost predicate SplitOk(text: string, l: Limits, r: Option<seq<string>>) {
    r.Some? ==> GoodParts(r.value, l) && Covered(Ink(text), Ink(Joined(r.value)), l)
  }

  /** Appending a piece's own ink, or parts that cover it, keeps the invariant. */
  lemma PackingGrows(p: Packing, input: string, l: Limits, piece: string, p': Packing, added: string)
    requires PackingOk(p, input, l) && GoodParts(p'.merged, l) && |p'.buf| <= l.size
    requires Covered(Ink(piece), added, l)
    requires Ink(Joined(p'.merged)) + Ink(p'.buf) == Ink(Joined(p.merged)) + Ink(p.buf) + added
    ensures PackingOk(p', input + piece, l)
  {
    hide Ink, Joined, GoodParts, Subsequence;
    InkConcat(input, piece);
    CoveredConcat(Ink(input), Ink(Joined(p.merged)) + Ink(p.buf), Ink(piece), added, l);
  }

  /** A piece that fits, alone or behind what is already being filled. */
  lemma PackFittingGood(piece: string, p: Packing, input: string, l: Limits)
    requires PackingOk(p, input, l)
    ensures Strip(piece) == [] ==> PackingOk(p, input + piece, l)
    ensures |p.buf + piece| <= l.size ==> PackingOk(p.(buf := p.buf + piece), input + piece, l)
    ensures |piece| <= l.size ==> PackingOk(Packing(Closed(p), piece), input + piece, l)
  {
    var ink, before := Ink(piece), Ink(Joined(p.merged)) + Ink(p.buf);
    hide IsSpace, Strip, Ink, Joined, Subsequence, Covered, Closed;
    StripFacts(piece);
    CoveredSelf(ink, l);
    ClosedGood(p, input, l);
    if Strip(piece) == [] {
      assert before + ink == before;
      PackingGrows(p, input, l, piece, p, ink);
    }
    if |p.buf + piece| <= l.size {
      InkConcat(p.buf, piece);
      assert before + ink == Ink(Joined(p.merged)) + Ink(p.buf + piece);
      PackingGrows(p, input, l, piece, p.(buf := p.buf + piece), ink);
    }
    if |piece| <= l.size {
      PackingGrows(p, input, l, piece, Packing(Closed(p), piece), ink);
    }
  }

  /** A piece that had to be split itself. */
  lemma PackSplitGood(piece: string, p: Packing, input: string, l: Limits, inner: seq<string>)
    requires PackingOk(p, input, l) && SplitOk(piece, l, Some(inner))
    ensures PackingOk(Packing(Closed(p) + inner, []), input + piece, l)
  {
    hide IsSpace, Strip, Ink, Joined, Subsequence, Covered, Closed;
    ClosedGood(p, input, l);
    NoInk();
    JoinedConcat(Closed(p), inner);
    InkConcat(Joined(Closed(p)), Joined(inner));
    assert Ink(Joined(Closed(p) + inner)) + Ink([]) == Ink(Joined(p.merged)) + Ink(p.buf) + Ink(Joined(inner));
    PackingGrows(p, input, l, piece, Packing(Closed(p) + inner, []), Ink(Joined(inner)));
  }

  lemma PackPieceGood(piece: string, p: Packing, input: string, l: Limits, fuel: nat)
    requires l.Valid() && PackingOk(p, input, l)
    ensures PackPiece(piece, p, l, fuel).Some? ==> PackingOk(PackPiece(piece, p, l, fuel).value, input + piece, l)
    decreases fuel, 3, 0
  {
    hide IsSpace, Strip, Ink, Joined, Subsequence, Covered, Closed, PackingOk, SplitOk, Split;
    PackFittingGood(piece, p, input, l);
    if |piece| > l.size {
      SplitGood(piece, l, fuel);
      if Split(piece, l, fuel).Some? {
        PackSplitGood(piece, p, input, l, Split(piece, l, fuel).value);
      }
    }
  }

  lemma {:induction false} PackGood(parts: seq<string>, sep: string, l: Limits, fuel: nat, n: nat)
    requires l.Valid() && n <= |parts|
    ensures Pack(parts, sep, l, fuel, n).Some? ==> PackingOk(Pack(parts, sep, l, fuel, n).value, JoinTo(parts, sep, n), l)
    decreases fuel, 4, n
  {
    if n == 0 {
      CoveredSelf([], l);
      assert Ink([]) + Ink([]) == [];
    } else {
      PackGood(parts, sep, l, fuel, n - 1);
      var p := Pack(parts, sep, l, fuel, n - 1);
      if p.Some? {
        PackPieceGood(PieceAt(parts, sep, n - 1), p.value, JoinTo(parts, sep, n - 1), l, fuel);
      }
    }
  }

  /** Good parts that hold all the ink of a non-blank text are accepted. */
  lemma Accepted(p: Packing, t: string, l: Limits)
    requires PackingOk(p, t, l) && Ink(t) != []
    ensures Accepts(Closed(p), l)
  {
    ClosedGood(p, t, l);
    assert Joined([]) == [] && Ink([]) == [] && !Subsequence(Ink(t), []);
    if Closed(p) != [] {
      assert GoodPart(Closed(p)[0], l);
    }
  }

  lemma PackAllGood(t: string, l: Limits, fuel: nat, sep: string)
    requires l.Valid() && sep != []
    ensures var parts := SplitOn(t, sep);
            var p := Pack(parts, sep, l, fuel, |parts|);
            p.Some? ==> PackingOk(p.value, t, l)
    decreases fuel, 5, 0
  {
    var parts := SplitOn(t, sep);
    PackGood(parts, sep, l, fuel, |parts|);
    SplitFacts(t, sep);
    JoinToFrom(parts, sep, |parts|);
    assert JoinFrom(parts, sep, |parts|) == [];
    hide Pack, PackingOk, SplitOn, JoinFrom;
    assert JoinTo(parts, sep, |parts|) == t;
  }

  lemma TryUnfolded(t: string, l: Limits, fuel: nat, k: nat)
    requires k < SEPARATORS && !Lacks(t, SepAt(k)) && fuel > 0
    ensures var p := Pack(SplitOn(t, SepAt(k)), SepAt(k), l, fuel - 1, |SplitOn(t, SepAt(k))|);
            && (p.None? ==> TrySeparators(t, l, fuel, k).None?)
            && (p.Some? && Accepts(Closed(p.value), l) ==> TrySeparators(t, l, fuel, k) == Some(Closed(p.value)))
  {
    hide Pack, Closed, Accepts, SplitOn, SepAt, Lacks, HardCut;
  }

  /** The separator that occurs settles the matter: its packing is always accepted. */
  lemma FirstSeparatorDecides(t: string, l: Limits, fuel: nat, k: nat)
    requires l.Valid() && k < SEPARATORS && !Lacks(t, SepAt(k)) && fuel > 0 && Ink(t) != []
    ensures var parts := SplitOn(t, SepAt(k));
            var p := Pack(parts, SepAt(k), l, fuel - 1, |parts|);
            && TrySeparators(t, l, fuel, k) == (if p.None? then None else Some(Closed(p.value)))
            && (p.Some? ==> PackingOk(p.value, t, l))
    decreases fuel, 0, 0
  {
    hide *;
    var parts := SplitOn(t, SepAt(k));
    var p := Pack(parts, SepAt(k), l, fuel - 1, |parts|);
    PackAllGood(t, l, fuel - 1, SepAt(k));
    if p.Some? {
      Accepted(p.value, t, l);
    }
    TryUnfolded(t, l, fuel, k);
  }

  lemma {:induction false} TryGood(t: string, l: Limits, fuel: nat, k: nat)
    requires l.Valid() && k <= SEPARATORS && Ink(t) != []
    ensures SplitOk(t, l, TrySeparators(t, l, fuel, k))
    decreases fuel, 1, SEPARATORS - k
  {
    if k == SEPARATORS {
      HardCutGood(t, l, 0);
      assert t[0..] == t;
    } else if Lacks(t, SepAt(k)) {
      TryGood(t, l, fuel, k + 1);
    } else if fuel > 0 {
      FirstSeparatorDecides(t, l, fuel, k);
      var parts := SplitOn(t, SepAt(k));
      var p := Pack(parts, SepAt(k), l, fuel - 1, |parts|);
      if p.Some? {
        ClosedGood(p.value, t, l);
      }
    }
  }

  /**
    Whenever splitting ends: every part is non-blank and fits, and the parts hold every
    non-blank character of the text in order, with nothing added when there is no overlap.
   */
  lemma {:induction false} SplitGood(text: string, l: Limits, fuel: nat)
    requires l.Valid()
    ensures SplitOk(text, l, Split(text, l, fuel))
    decreases fuel, 2, 0
  {
    hide IsSpace, Strip, Ink, Joined, Subsequence, Covered, TrySeparators;
    StripFacts(text);
    StripTwice(text);
    var t := Strip(text);
    if t == [] {
      NothingGood(l);
      NoInk();
    } else if |t| <= l.size {
      CoveredSelf(Ink(t), l);
      JoinedOne(t);
    } else {
      TryGood(t, l, fuel, 0);
    }
  }

  lemma NoInk()
    ensures Ink([]) == []
  {
  }
}
