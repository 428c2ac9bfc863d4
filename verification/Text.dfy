/** Python string operations the models need: strip, find and split. */
module Text {

  /** The characters str.strip() removes. */
  predicate IsSpace(c: char) {
    || c == ' ' || ('\t' <= c <= '\r') || ('\U{1c}' <= c <= '\U{1f}')
    || c == '\U{85}' || c == '\U{a0}' || c == '\U{1680}' || ('\U{2000}' <= c <= '\U{200a}')
    || c == '\U{2028}' || c == '\U{2029}' || c == '\U{202f}' || c == '\U{205f}' || c == '\U{3000}'
  }

  /** White space, one by one: blanks, tabs, line ends and separators, and the wide spaces. */
  lemma WhiteSpaceWrittenOut(c: char)
    ensures IsSpace(c) <==>
      c in ['\t', '\n', '\U{b}', '\U{c}', '\r', '\U{1c}', '\U{1d}', '\U{1e}', '\U{1f}', ' ', '\U{85}', '\U{a0}', '\U{1680}',
            '\U{2000}', '\U{2001}', '\U{2002}', '\U{2003}', '\U{2004}', '\U{2005}', '\U{2006}', '\U{2007}', '\U{2008}',
            '\U{2009}', '\U{200a}', '\U{2028}', '\U{2029}', '\U{202f}', '\U{205f}', '\U{3000}']
  {
    var n := c as int;
    assert '\t' as int == 9 && '\r' as int == 13;
  }

  function LStrip(s: string): string {
    if s != [] && IsSpace(s[0]) then LStrip(s[1..]) else s
  }

  function RStrip(s: string): string {
    if s != [] && IsSpace(s[|s| - 1]) then RStrip(s[..|s| - 1]) else s
  }

  function Strip(s: string): string {
    RStrip(LStrip(s))
  }

  /** What is left of a text without its whitespace. */
  function Ink(s: string): string {
    if s == [] then [] else Ink(s[..|s| - 1]) + if IsSpace(s[|s| - 1]) then [] else [s[|s| - 1]]
  }

  lemma {:induction false} InkConcat(s: string, t: string)
    ensures Ink(s + t) == Ink(s) + Ink(t)
  {
    if t == [] {
      assert s + t == s;
    } else {
      var n := |t| - 1;
      InkConcat(s, t[..n]);
      assert (s + t)[..|s| + n] == s + t[..n];
    }
  }

  lemma {:induction false} LStripInk(s: string)
    ensures Ink(LStrip(s)) == Ink(s)
    ensures exists a :: 0 <= a <= |s| && LStrip(s) == s[a..]
    ensures LStrip(s) != [] ==> !IsSpace(LStrip(s)[0])
  {
    hide IsSpace, Ink;
    if s != [] && IsSpace(s[0]) {
      LStripInk(s[1..]);
      BlankFirst(s);
      var a :| 0 <= a <= |s[1..]| && LStrip(s[1..]) == s[1..][a..];
      assert LStrip(s) == s[a + 1..];
    } else {
      assert s == s[0..];
    }
  }

  lemma BlankFirst(s: string)
    requires s != [] && IsSpace(s[0])
    ensures Ink(s) == Ink(s[1..])
  {
    assert s == [s[0]] + s[1..];
    InkConcat([s[0]], s[1..]);
    assert Ink([s[0]]) == [] by { assert [s[0]][..0] == []; }
  }

  lemma {:induction false} RStripInk(s: string)
    ensures Ink(RStrip(s)) == Ink(s)
    ensures RStrip(s) <= s
    ensures RStrip(s) != [] ==> !IsSpace(RStrip(s)[|RStrip(s)| - 1])
    ensures RStrip(s) == [] ==> Ink(s) == []
    ensures s != [] && !IsSpace(s[0]) ==> RStrip(s) != []
  {
    if s != [] && IsSpace(s[|s| - 1]) {
      RStripInk(s[..|s| - 1]);
    }
  }

  /** Stripping keeps every non-blank character and leaves a stretch of the text, blank at neither end. */
  lemma StripFacts(s: string)
    ensures Ink(Strip(s)) == Ink(s)
    ensures |Strip(s)| <= |s|
    ensures Strip(s) != [] ==> !IsSpace(Strip(s)[0]) && !IsSpace(Strip(s)[|Strip(s)| - 1])
    ensures exists a :: Occurs(s, Strip(s), a)
    ensures Strip(s) == [] <==> Ink(s) == []
  {
    StripStands(s);
    hide IsSpace, LStrip, RStrip, Ink, Occurs;
    LStripInk(s);
    RStripInk(LStrip(s));
    if Strip(s) != [] {
      InkLast(Strip(s));
    }
  }

  lemma StripStands(s: string)
    ensures exists a :: Occurs(s, Strip(s), a)
  {
    hide IsSpace, LStrip, RStrip, Ink, Occurs;
    LStripInk(s);
    var l := LStrip(s);
    RStripInk(l);
    var a :| 0 <= a <= |s| && l == s[a..];
    PrefixStands(s, a, RStrip(l));
    assert Occurs(s, Strip(s), a);
  }

  lemma PrefixStands(s: string, a: nat, p: string)
    requires a <= |s| && p <= s[a..]
    ensures Occurs(s, p, a)
  {
  }

  lemma StripTwice(s: string)
    ensures Strip(Strip(s)) == Strip(s)
  {
    StripFacts(s);
    hide IsSpace;
    assert LStrip(Strip(s)) == Strip(s);
  }

  lemma InkLast(s: string)
    requires s != [] && !IsSpace(s[|s| - 1])
    ensures Ink(s) != []
  {
  }

  function Joined(parts: seq<string>): string {
    if parts == [] then [] else Joined(parts[..|parts| - 1]) + parts[|parts| - 1]
  }

  lemma {:induction false} JoinedConcat(a: seq<string>, b: seq<string>)
    ensures Joined(a + b) == Joined(a) + Joined(b)
  {
    if b == [] {
      assert a + b == a;
    } else {
      var n := |b| - 1;
      JoinedConcat(a, b[..n]);
      JoinedLast(a + b);
      JoinedLast(b);
      assert (a + b)[..|a| + n] == a + b[..n];
      ConcatAssociates(Joined(a), Joined(b[..n]), b[n]);
    }
  }

  lemma JoinedLast(parts: seq<string>)
    requires parts != []
    ensures Joined(parts) == Joined(parts[..|parts| - 1]) + parts[|parts| - 1]
  {
  }

  lemma ConcatAssociates(a: string, b: string, c: string)
    ensures (a + b) + c == a + (b + c)
  {
  }

  lemma JoinedFirst(parts: seq<string>)
    requires parts != []
    ensures Joined(parts) == parts[0] + Joined(parts[1..])
  {
    assert parts == [parts[0]] + parts[1..];
    JoinedConcat([parts[0]], parts[1..]);
    assert Joined([parts[0]]) == parts[0];
  }

  /** p stands in text at position i. */
  predicate Occurs(text: string, p: string, i: int) {
    0 <= i && i + |p| <= |text| && text[i..i + |p|] == p
  }

  predicate Lacks(text: string, p: string) {
    forall i :: 0 <= i <= |text| ==> !Occurs(text, p, i)
  }

  lemma OccursWithin(text: string, p: string, a: int, q: string, i: int)
    requires Occurs(text, p, a) && Occurs(p, q, i)
    ensures Occurs(text, q, a + i)
  {
    forall k | 0 <= k < |q| ensures text[a + i + k] == q[k] {
      assert text[a..a + |p|][i + k] == text[a + i + k];
      assert p[i..i + |q|][k] == p[i + k];
    }
  }

  lemma LacksWithin(text: string, p: string, a: int, q: string)
    requires Occurs(text, p, a) && Lacks(text, q)
    ensures Lacks(p, q)
  {
    forall i | 0 <= i <= |p| ensures !Occurs(p, q, i) {
      if Occurs(p, q, i) {
        OccursWithin(text, p, a, q, i);
      }
    }
  }

  /** The first position at or after i where sep stands; the length of the text if there is none. */
  function Find(text: string, sep: string, i: nat): (r: nat)
    requires i <= |text| && sep != []
    ensures i <= r <= |text|
    ensures r < |text| ==> Occurs(text, sep, r)
    ensures forall j :: i <= j < r ==> !Occurs(text, sep, j)
    decreases |text| - i
  {
    if i == |text| || Occurs(text, sep, i) then i else Find(text, sep, i + 1)
  }

  /** text.split(sep). */
  function SplitOn(text: string, sep: string): (parts: seq<string>)
    requires sep != []
    ensures parts != []
    decreases |text|
  {
    var i := Find(text, sep, 0);
    if i == |text| then [text] else [text[..i]] + SplitOn(text[i + |sep|..], sep)
  }

  /** The i-th part, followed by its separator unless it is the last. */
  function PieceAt(parts: seq<string>, sep: string, i: nat): string
    requires i < |parts|
  {
    if i < |parts| - 1 then parts[i] + sep else parts[i]
  }

  /** The pieces from the i-th on, put together again. */
  function JoinFrom(parts: seq<string>, sep: string, i: nat): string
    requires i <= |parts|
    decreases |parts| - i
  {
    if i == |parts| then [] else PieceAt(parts, sep, i) + JoinFrom(parts, sep, i + 1)
  }

  lemma {:induction false} JoinFromTail(all: seq<string>, parts: seq<string>, sep: string, i: nat)
    requires i <= |parts| && |all| == |parts| + 1 && forall k :: 0 <= k < |parts| ==> parts[k] == all[k + 1]
    ensures JoinFrom(all, sep, i + 1) == JoinFrom(parts, sep, i)
    decreases |parts| - i
  {
    if i < |parts| {
      JoinFromTail(all, parts, sep, i + 1);
    }
  }

  /** What splitting guarantees about the k-th piece. */
  ghost predicate GoodPiece(text: string, sep: string, parts: seq<string>, k: nat)
    requires k < |parts|
  {
    && (exists a :: Occurs(text, PieceAt(parts, sep, k), a))
    && (if k == |parts| - 1 then Lacks(parts[k], sep)
        else forall i :: Occurs(parts[k] + sep, sep, i) ==> i == |parts[k]|)
  }

  lemma FindMiss(text: string, sep: string)
    requires sep != []
    ensures Find(text, sep, 0) == |text| <==> Lacks(text, sep)
  {
  }

  ghost predicate GoodSplit(text: string, sep: string, parts: seq<string>) {
    && parts != []
    && JoinFrom(parts, sep, 0) == text
    && forall k :: 0 <= k < |parts| ==> GoodPiece(text, sep, parts, k)
  }

  lemma {:induction false} SplitFacts(text: string, sep: string)
    requires sep != []
    ensures |SplitOn(text, sep)| > 1 <==> !Lacks(text, sep)
    ensures GoodSplit(text, sep, SplitOn(text, sep))
    decreases |text|
  {
    var i := Find(text, sep, 0);
    FindMiss(text, sep);
    if i == |text| {
      assert JoinFrom([text], sep, 1) == [];
      assert Occurs(text, text, 0);
    } else {
      SplitFacts(text[i + |sep|..], sep);
      SplitCons(text, sep, i, SplitOn(text[i + |sep|..], sep));
    }
  }

  lemma SplitCons(text: string, sep: string, i: nat, tail: seq<string>)
    requires sep != [] && Occurs(text, sep, i) && (forall j :: 0 <= j < i ==> !Occurs(text, sep, j))
    requires GoodSplit(text[i + |sep|..], sep, tail)
    ensures GoodSplit(text, sep, [text[..i]] + tail)
  {
    hide GoodPiece, JoinFrom;
    var parts := [text[..i]] + tail;
    OccursSplits(text, sep, i);
    SplitConsJoin(text, sep, i, tail);
    forall k | 0 <= k < |parts| ensures GoodPiece(text, sep, parts, k) {
      if k == 0 {
        FirstIsGood(text, sep, i, tail);
      } else {
        LaterPiece(text, sep, text[..i], tail, k - 1);
      }
    }
  }

  lemma OccursSplits(text: string, sep: string, i: nat)
    requires Occurs(text, sep, i)
    ensures text == text[..i] + sep + text[i + |sep|..]
  {
  }

  lemma SplitConsJoin(text: string, sep: string, i: nat, tail: seq<string>)
    requires i + |sep| <= |text| && text == text[..i] + sep + text[i + |sep|..]
    requires tail != [] && JoinFrom(tail, sep, 0) == text[i + |sep|..]
    ensures JoinFrom([text[..i]] + tail, sep, 0) == text
  {
    hide JoinFrom;
    var parts := [text[..i]] + tail;
    JoinFromTail(parts, tail, sep, 0);
    JoinFromFirst(parts, sep);
  }

  lemma JoinFromFirst(parts: seq<string>, sep: string)
    requires |parts| > 1
    ensures JoinFrom(parts, sep, 0) == parts[0] + sep + JoinFrom(parts, sep, 1)
  {
  }

  lemma FirstIsGood(text: string, sep: string, i: nat, tail: seq<string>)
    requires sep != [] && Occurs(text, sep, i) && (forall j :: 0 <= j < i ==> !Occurs(text, sep, j)) && tail != []
    ensures GoodPiece(text, sep, [text[..i]] + tail, 0)
  {
    FirstPiece(text, sep, i);
    assert Occurs(text, PieceAt([text[..i]] + tail, sep, 0), 0);
  }

  lemma LaterPiece(text: string, sep: string, first: string, tail: seq<string>, k: nat)
    requires k < |tail| && |first| + |sep| <= |text| && GoodPiece(text[|first| + |sep|..], sep, tail, k)
    ensures GoodPiece(text, sep, [first] + tail, k + 1)
  {
    hide Occurs;
    var n := |first| + |sep|;
    var rest, p, all := text[n..], PieceAt(tail, sep, k), [first] + tail;
    assert all[k + 1] == tail[k];
    assert PieceAt(all, sep, k + 1) == p;
    var a :| Occurs(rest, p, a);
    SuffixOccurs(text, n);
    OccursWithin(text, rest, n, p, a);
  }

  lemma SuffixOccurs(text: string, n: nat)
    requires n <= |text|
    ensures Occurs(text, text[n..], n)
  {
  }

  lemma FirstPiece(text: string, sep: string, i: nat)
    requires sep != [] && Occurs(text, sep, i) && forall j :: 0 <= j < i ==> !Occurs(text, sep, j)
    ensures text[..i] + sep == text[..i + |sep|]
    ensures forall j :: Occurs(text[..i] + sep, sep, j) ==> j == i
  {
    forall j | Occurs(text[..i] + sep, sep, j) ensures j == i {
      assert Occurs(text, text[..i] + sep, 0);
      OccursWithin(text, text[..i] + sep, 0, sep, j);
    }
  }
}
