/**
  Cutting a document at its headings, and the path of headings every section stands under.
 */
module MarkdownSections {
  import opened Common
  import opened Text

  /** Level 0 with no title stands for the lines before the first heading. */
  datatype Heading = Heading(level: nat, title: string)

  datatype Section = Section(level: nat, title: string, body: string)

  // ---------- headings ----------

  function HashRun(line: string): (n: nat)
    ensures n <= |line|
  {
    if line == [] || line[0] != '#' then 0 else 1 + HashRun(line[1..])
  }

  /** One to six marks, white space, a title.  A second white-space character passes for a title. */
  function HeadingOf(line: string): Option<Heading> {
    var n := HashRun(line);
    var rest := line[n..];
    if 1 <= n <= 6 && rest != [] && IsSpace(rest[0]) && (Strip(rest) != [] || |rest| >= 2)
    then Some(Heading(n, Strip(rest)))
    else None
  }

  function HeadingsIn(lines: seq<string>): seq<Heading> {
    if lines == [] then []
    else (match HeadingOf(lines[0]) case Some(h) => [h] case None => []) + HeadingsIn(lines[1..])
  }

  function BodyLinesIn(lines: seq<string>): seq<string> {
    if lines == [] then []
    else (if HeadingOf(lines[0]).Some? then [] else [lines[0]]) + BodyLinesIn(lines[1..])
  }

  /** "\n".join(lines) */
  function JoinLines(lines: seq<string>): string {
    if lines == [] then []
    else if |lines| == 1 then lines[0]
    else lines[0] + "\n" + JoinLines(lines[1..])
  }

  function ReplaceAll(text: string, what: string, with: string): string
    requires what != []
    decreases |text|
  {
    var i := Find(text, what, 0);
    if i == |text| then text else text[..i] + with + ReplaceAll(text[i + |what|..], what, with)
  }

  function Lines(md: string): seq<string> {
    SplitOn(ReplaceAll(md, "\r\n", "\n"), "\n")
  }

  /** A heading line in full: up to six marks, white space, and what follows, stripped, for a title. */
  lemma HeadingIff(line: string, n: nat, title: string)
    ensures HeadingOf(line) == Some(Heading(n, title)) <==>
              && 1 <= n <= 6 && n < |line|
              && (forall i :: 0 <= i < n ==> line[i] == '#')
              && IsSpace(line[n])
              && title == Strip(line[n..])
              && (title != "" || |line| >= n + 2)
  {
    HashRunIs(line, n);
    MarkIsNoSpace(line, n);
    hide Strip, IsSpace, HashRun;
  }

  lemma MarkIsNoSpace(line: string, n: nat)
    ensures n < |line| && IsSpace(line[n]) ==> line[n] != '#'
  {
  }

  lemma {:induction false} HashRunIs(line: string, n: nat)
    ensures HashRun(line) == n <==>
              n <= |line| && (forall i :: 0 <= i < n ==> line[i] == '#') && (n < |line| ==> line[n] != '#')
  {
    if line != [] && line[0] == '#' && n > 0 {
      HashRunIs(line[1..], n - 1);
      if n <= |line| && HashRun(line[1..]) == n - 1 {
        forall i | 0 <= i < n ensures line[i] == '#' {
          assert i > 0 ==> line[i] == line[1..][i - 1];
        }
      }
    }
  }

  predicate NoBreaks(lines: seq<string>) {
    forall i :: 0 <= i < |lines| ==> '\n' !in lines[i] && '\r' !in lines[i]
  }

  lemma StartsWith(text: string, sep: string, i: nat)
    ensures sep != [] && Occurs(text, sep, i) ==> i < |text| && text[i] == sep[0]
  {
    if Occurs(text, sep, i) && sep != [] {
      assert text[i] == text[i..i + |sep|][0];
    }
  }

  lemma FindBetween(a: string, sep: string, b: string)
    requires sep != [] && sep[0] !in a
    ensures var text := a + sep + b;
            Find(text, sep, 0) == |a| < |text| && text[..|a|] == a && text[|a| + |sep|..] == b
  {
    var text := a + sep + b;
    assert text[|a|..|a| + |sep|] == sep;
    assert Occurs(text, sep, |a|);
    forall i | 0 <= i < |a| ensures !Occurs(text, sep, i) {
      assert text[i] == a[i];
      StartsWith(text, sep, i);
    }
  }

  /** Lines joined by a line break come apart as they were. */
  lemma {:induction false} LinesComeApart(lines: seq<string>)
    requires lines != [] && NoBreaks(lines)
    ensures SplitOn(JoinLines(lines), "\n") == lines
  {
    hide Find, Occurs;
    if |lines| == 1 {
      NothingToFind(lines[0], "\n");
      assert lines == [lines[0]];
    } else {
      LinesComeApart(lines[1..]);
      FindBetween(lines[0], "\n", JoinLines(lines[1..]));
      assert lines == [lines[0]] + lines[1..];
    }
  }

  lemma NothingToFind(text: string, sep: string)
    requires sep != [] && sep[0] !in text
    ensures Find(text, sep, 0) == |text|
  {
    forall i | 0 <= i <= |text| ensures !Occurs(text, sep, i) {
      StartsWith(text, sep, i);
    }
  }

  /** The same lines with Windows line ends. */
  function JoinCrLf(lines: seq<string>): string {
    if lines == [] then []
    else if |lines| == 1 then lines[0]
    else lines[0] + "\r\n" + JoinCrLf(lines[1..])
  }

  lemma {:induction false} CrLfReplaced(lines: seq<string>)
    requires NoBreaks(lines)
    ensures ReplaceAll(JoinCrLf(lines), "\r\n", "\n") == JoinLines(lines)
  {
    hide Find, Occurs;
    if |lines| <= 1 {
      NothingToFind(JoinCrLf(lines), "\r\n");
    } else {
      CrLfReplaced(lines[1..]);
      FindBetween(lines[0], "\r\n", JoinCrLf(lines[1..]));
    }
  }

  /** A document's lines are found whichever way they end. */
  lemma LinesOfDocument(lines: seq<string>)
    requires lines != [] && NoBreaks(lines)
    ensures Lines(JoinCrLf(lines)) == lines && Lines(JoinLines(lines)) == lines
  {
    CrLfReplaced(lines);
    LinesComeApart(lines);
    NothingToReplace(lines);
  }

  lemma NothingToReplace(lines: seq<string>)
    requires NoBreaks(lines)
    ensures ReplaceAll(JoinLines(lines), "\r\n", "\n") == JoinLines(lines)
  {
    NoCarriageReturn(lines);
    NothingToFind(JoinLines(lines), "\r\n");
  }

  lemma {:induction false} NoCarriageReturn(lines: seq<string>)
    requires NoBreaks(lines)
    ensures '\r' !in JoinLines(lines)
  {
    if |lines| > 1 {
      NoCarriageReturn(lines[1..]);
    }
  }

  // ---------- a document as blocks ----------

  datatype Block = Block(head: Heading, body: seq<string>)

  /** The lines before the first heading, then every heading with the lines up to the next. */
  function Blocks(lines: seq<string>): (bs: seq<Block>)
    ensures bs != []
  {
    if lines == [] then [Block(Heading(0, []), [])]
    else
      var bs := Blocks(lines[1..]);
      match HeadingOf(lines[0])
      case Some(h) => [Block(Heading(0, []), []), Block(h, bs[0].body)] + bs[1..]
      case None => [Block(Heading(0, []), [lines[0]] + bs[0].body)] + bs[1..]
  }

  function Heads(bs: seq<Block>): seq<Heading> {
    if bs == [] then []
    else (if bs[0].head.level == 0 then [] else [bs[0].head]) + Heads(bs[1..])
  }

  function BodyLines(bs: seq<Block>): seq<string> {
    if bs == [] then [] else bs[0].body + BodyLines(bs[1..])
  }

  /** The first top-level title names the document. */
  function DocTitle(doc: string, h: Heading): string {
    if h.level == 1 && doc == [] then h.title else doc
  }

  function SectionOf(b: Block, doc: string): seq<Section> {
    var body := Strip(JoinLines(b.body));
    if b.head.title == [] && body == [] then []
    else [Section(b.head.level, if b.head.title != [] then b.head.title else doc, body)]
  }

  function Emit(bs: seq<Block>, doc: string): seq<Section> {
    if bs == [] then []
    else var d := DocTitle(doc, bs[0].head); SectionOf(bs[0], d) + Emit(bs[1..], d)
  }

  /** What the parser is to return. */
  function SectionsOf(lines: seq<string>): seq<Section> {
    Emit(Blocks(lines), [])
  }

  /** The blocks that are still to come, once the current one has been begun. */
  function Pending(head: Heading, body: seq<string>, rest: seq<string>): (bs: seq<Block>)
    ensures bs != []
  {
    var bs := Blocks(rest);
    [Block(head, body + bs[0].body)] + bs[1..]
  }

  lemma PendingLine(head: Heading, body: seq<string>, rest: seq<string>)
    requires rest != [] && HeadingOf(rest[0]).None?
    ensures Pending(head, body, rest) == Pending(head, body + [rest[0]], rest[1..])
  {
    var bs := Blocks(rest[1..]);
    assert Blocks(rest)[1..] == bs[1..];
    assert body + ([rest[0]] + bs[0].body) == body + [rest[0]] + bs[0].body;
  }

  lemma PendingHeading(head: Heading, body: seq<string>, rest: seq<string>, doc: string)
    requires rest != [] && HeadingOf(rest[0]).Some? && DocTitle(doc, head) == doc
    ensures var h := HeadingOf(rest[0]).value;
            Emit(Pending(head, body, rest), doc)
            == SectionOf(Block(head, body), doc) + Emit(Pending(h, [], rest[1..]), DocTitle(doc, h))
    ensures var h := HeadingOf(rest[0]).value; DocTitle(DocTitle(doc, h), h) == DocTitle(doc, h)
  {
    hide HeadingOf, SectionOf, DocTitle;
    var h := HeadingOf(rest[0]).value;
    NamedOnce(doc, h);
    var bs := Blocks(rest[1..]);
    var next := Pending(h, [], rest[1..]);
    assert [] + bs[0].body == bs[0].body;
    assert Pending(head, body, rest)[0] == Block(head, body);
    assert Pending(head, body, rest)[1..] == next;
    var d := DocTitle(doc, h);
    assert Emit(next, doc) == SectionOf(next[0], d) + Emit(next[1..], d);
    assert Emit(next, d) == SectionOf(next[0], DocTitle(d, h)) + Emit(next[1..], DocTitle(d, h));
  }

  lemma NamedOnce(doc: string, h: Heading)
    ensures DocTitle(DocTitle(doc, h), h) == DocTitle(doc, h)
  {
  }

  lemma PendingStart(lines: seq<string>)
    ensures Pending(Heading(0, []), [], lines) == Blocks(lines)
  {
    var bs := Blocks(lines);
    assert [] + bs[0].body == bs[0].body;
    assert bs[0].head == Heading(0, []);
  }

  lemma PendingEnd(head: Heading, body: seq<string>, doc: string)
    requires DocTitle(doc, head) == doc
    ensures Emit(Pending(head, body, []), doc) == SectionOf(Block(head, body), doc)
  {
    assert body + [] == body;
    assert Pending(head, body, []) == [Block(head, body)];
    assert Emit([], doc) == [];
  }

  /** The line loop; a section is closed at every heading and at the end. */
  method ParseHeadingSections(md: string) returns (sections: seq<Section>)
    ensures sections == SectionsOf(Lines(md))
  {
    hide HeadingOf, SectionOf, Blocks, Pending, Emit, Lines, DocTitle;
    var lines := Lines(md);
    var docTitle, level, title, bodyLines := "", 0, "", [];
    sections := [];
    PendingStart(lines);
    NoHeadingYet(docTitle);
    for i := 0 to |lines|
      invariant DocTitle(docTitle, Heading(level, title)) == docTitle
      invariant sections + Emit(Pending(Heading(level, title), bodyLines, lines[i..]), docTitle) == SectionsOf(lines)
    {
      assert lines[i..][1..] == lines[i + 1..];
      match HeadingOf(lines[i]) {
        case Some(h) =>
          PendingHeading(Heading(level, title), bodyLines, lines[i..], docTitle);
          sections := Flush(sections, level, title, bodyLines, docTitle);
          level, title, bodyLines := h.level, h.title, [];
          docTitle := NameDocument(docTitle, h);
        case None =>
          PendingLine(Heading(level, title), bodyLines, lines[i..]);
          bodyLines := bodyLines + [lines[i]];
      }
    }
    assert lines[|lines|..] == [];
    PendingEnd(Heading(level, title), bodyLines, docTitle);
    sections := Flush(sections, level, title, bodyLines, docTitle);
  }

  lemma NoHeadingYet(doc: string)
    ensures DocTitle(doc, Heading(0, [])) == doc
  {
  }

  method NameDocument(docTitle: string, h: Heading) returns (named: string)
    ensures named == DocTitle(docTitle, h)
    ensures named == if docTitle == "" && h.level == 1 then h.title else docTitle
  {
    named := docTitle;
    if h.level == 1 && docTitle == "" {
      named := h.title;
    }
  }

  method Flush(sections: seq<Section>, level: nat, title: string, bodyLines: seq<string>, docTitle: string)
    returns (extended: seq<Section>)
    ensures extended == sections + SectionOf(Block(Heading(level, title), bodyLines), docTitle)
  {
    hide Strip, IsSpace, JoinLines;
    extended := sections;
    var body := Strip(JoinLines(bodyLines));
    if title != "" || body != "" {
      extended := extended + [Section(level, if title != "" then title else docTitle, body)];
    }
  }

  // ---------- nothing is lost ----------

  lemma ConsBlock(b: Block, rest: seq<Block>)
    ensures Heads([b] + rest) == (if b.head.level == 0 then [] else [b.head]) + Heads(rest)
    ensures BodyLines([b] + rest) == b.body + BodyLines(rest)
  {
    assert ([b] + rest)[1..] == rest;
  }

  lemma ConsLine(line: string, bs: seq<Block>)
    requires bs != [] && bs[0].head == Heading(0, [])
    ensures var all := [Block(Heading(0, []), [line] + bs[0].body)] + bs[1..];
            Heads(all) == Heads(bs) && BodyLines(all) == [line] + BodyLines(bs)
  {
    hide Heads, BodyLines;
    ConsBlock(Block(Heading(0, []), [line] + bs[0].body), bs[1..]);
    ConsBlock(bs[0], bs[1..]);
    assert bs == [bs[0]] + bs[1..];
    assert [line] + bs[0].body + BodyLines(bs[1..]) == [line] + (bs[0].body + BodyLines(bs[1..]));
  }

  lemma ConsHeading(h: Heading, bs: seq<Block>)
    requires bs != [] && bs[0].head == Heading(0, []) && h.level > 0
    ensures var all := [Block(Heading(0, []), []), Block(h, bs[0].body)] + bs[1..];
            Heads(all) == [h] + Heads(bs) && BodyLines(all) == BodyLines(bs)
  {
    hide Heads, BodyLines;
    var rest := [Block(h, bs[0].body)] + bs[1..];
    ConsBlock(Block(Heading(0, []), []), rest);
    ConsBlock(Block(h, bs[0].body), bs[1..]);
    ConsBlock(bs[0], bs[1..]);
    assert bs == [bs[0]] + bs[1..];
    assert [Block(Heading(0, []), []), Block(h, bs[0].body)] + bs[1..] == [Block(Heading(0, []), [])] + rest;
  }

  /** The blocks are the document: all its headings and all its other lines, in order. */
  lemma {:induction false} BlocksAreTheDocument(lines: seq<string>)
    ensures Heads(Blocks(lines)) == HeadingsIn(lines)
    ensures BodyLines(Blocks(lines)) == BodyLinesIn(lines)
    ensures Blocks(lines)[0].head == Heading(0, [])
  {
    hide HeadingOf, Heads, BodyLines;
    if lines == [] {
      NoBlocks();
    } else {
      BlocksAreTheDocument(lines[1..]);
      LevelInRange(lines[0]);
      var bs := Blocks(lines[1..]);
      if HeadingOf(lines[0]).Some? {
        ConsHeading(HeadingOf(lines[0]).value, bs);
      } else {
        ConsLine(lines[0], bs);
      }
    }
  }

  lemma NoBlocks()
    ensures var bs := [Block(Heading(0, []), [])]; Heads(bs) == [] && BodyLines(bs) == []
  {
  }

  lemma LevelInRange(line: string)
    ensures HeadingOf(line).Some? ==> 1 <= HeadingOf(line).value.level <= 6
  {
  }

  lemma {:induction false} JoinLinesInk(lines: seq<string>)
    ensures Ink(JoinLines(lines)) == Ink(Joined(lines))
  {
    hide IsSpace;
    if |lines| == 1 {
      assert Joined([]) == [];
      assert Joined(lines) == lines[0];
    } else if |lines| > 1 {
      var rest := JoinLines(lines[1..]);
      JoinLinesInk(lines[1..]);
      JoinedFirst(lines);
      InkConcat(lines[0], Joined(lines[1..]));
      InkConcat(lines[0] + "\n", rest);
      InkConcat(lines[0], "\n");
      NewlineIsBlank();
    }
  }

  lemma NewlineIsBlank()
    ensures Ink("\n") == []
  {
    assert "\n"[..0] == "";
  }

  function Bodies(sections: seq<Section>): seq<string> {
    if sections == [] then [] else [sections[0].body] + Bodies(sections[1..])
  }

  lemma BodiesCons(s: Section, rest: seq<Section>)
    ensures Bodies([s] + rest) == [s.body] + Bodies(rest) && Bodies([]) == []
  {
    assert ([s] + rest)[1..] == rest;
  }

  lemma {:induction false} BodiesConcat(a: seq<Section>, b: seq<Section>)
    ensures Bodies(a + b) == Bodies(a) + Bodies(b)
  {
    hide Bodies;
    if a == [] {
      assert a + b == b;
      BodiesCons(Section(0, "", ""), []);
    } else {
      BodiesConcat(a[1..], b);
      BodiesCons(a[0], a[1..] + b);
      BodiesCons(a[0], a[1..]);
      assert a + b == [a[0]] + (a[1..] + b) && a == [a[0]] + a[1..];
    }
  }

  /** A section has its heading's level and title, and for a body the lines up to the next heading without blank ends. */
  lemma SectionWrittenOut(b: Block, doc: string)
    ensures var s, text := SectionOf(b, doc), JoinLines(b.body);
            && (s == [] <==> b.head.title == "" && Ink(text) == "")
            && (s != [] ==> && |s| == 1 && s[0].level == b.head.level
                            && s[0].title == (if b.head.title != "" then b.head.title else doc)
                            && Ink(s[0].body) == Ink(text)
                            && (exists a :: Occurs(text, s[0].body, a))
                            && (s[0].body != "" ==> !IsSpace(s[0].body[0]) && !IsSpace(s[0].body[|s[0].body| - 1])))
  {
    hide Strip, IsSpace, JoinLines, Ink, Occurs;
    StripFacts(JoinLines(b.body));
  }

  lemma SectionInk(b: Block, doc: string)
    ensures Ink(Joined(Bodies(SectionOf(b, doc)))) == Ink(Joined(b.body))
  {
    hide IsSpace, JoinLines, Strip;
    StripFacts(JoinLines(b.body));
    JoinLinesInk(b.body);
    var body := Strip(JoinLines(b.body));
    var s := SectionOf(b, doc);
    if s == [] {
      assert Joined(Bodies(s)) == [];
    } else {
      assert Bodies(s[1..]) == [];
      assert Bodies(s) == [body];
      assert Joined([body]) == body;
    }
  }

  lemma {:induction false} EmitInk(bs: seq<Block>, doc: string)
    ensures Ink(Joined(Bodies(Emit(bs, doc)))) == Ink(Joined(BodyLines(bs)))
  {
    if bs != [] {
      var d := DocTitle(doc, bs[0].head);
      var head, tail := SectionOf(bs[0], d), Emit(bs[1..], d);
      EmitInk(bs[1..], d);
      SectionInk(bs[0], d);
      hide IsSpace, SectionOf, Ink, Joined, Bodies;
      BodiesConcat(head, tail);
      JoinedConcat(Bodies(head), Bodies(tail));
      JoinedConcat(bs[0].body, BodyLines(bs[1..]));
      InkConcat(Joined(Bodies(head)), Joined(Bodies(tail)));
      InkConcat(Joined(bs[0].body), Joined(BodyLines(bs[1..])));
    }
  }

  /** Whatever the document: the section bodies hold every non-blank character outside headings, in order. */
  lemma BodiesKeepTheText(lines: seq<string>)
    ensures Ink(Joined(Bodies(SectionsOf(lines)))) == Ink(Joined(BodyLinesIn(lines)))
  {
    BlocksAreTheDocument(lines);
    EmitInk(Blocks(lines), []);
  }

  function Outline(sections: seq<Section>): seq<Heading> {
    if sections == [] then []
    else (if sections[0].level == 0 then [] else [Heading(sections[0].level, sections[0].title)]) + Outline(sections[1..])
  }

  /** A heading without a title survives as it is only above some text and before the document has a name. */
  predicate HeadingsKept(bs: seq<Block>, doc: string) {
    if bs == [] then true else
    var d := DocTitle(doc, bs[0].head);
    (bs[0].head.level == 0 || bs[0].head.title != [] || (d == [] && Strip(JoinLines(bs[0].body)) != []))
    && HeadingsKept(bs[1..], d)
  }

  lemma {:induction false} OutlineOfEmit(bs: seq<Block>, doc: string)
    ensures |Outline(Emit(bs, doc))| <= |Heads(bs)|
    ensures Outline(Emit(bs, doc)) == Heads(bs) <==> HeadingsKept(bs, doc)
  {
    hide SectionOf, DocTitle, Strip, JoinLines;
    if bs != [] {
      var d := DocTitle(doc, bs[0].head);
      OutlineOfEmit(bs[1..], d);
      FirstThenRest(bs, d);
      OutlineOfFirst(bs[0], d, Emit(bs[1..], d));
    }
  }

  lemma OutlineOfFirst(b: Block, d: string, tail: seq<Section>)
    ensures var rest, title := Outline(tail), if b.head.title != [] then b.head.title else d;
            Outline(SectionOf(b, d) + tail) ==
              if b.head.level == 0 || SectionOf(b, d) == [] then rest else [Heading(b.head.level, title)] + rest
    ensures SectionOf(b, d) == [] <==> b.head.title == [] && Strip(JoinLines(b.body)) == []
  {
    hide Strip, IsSpace, JoinLines;
    var s := SectionOf(b, d);
    if s == [] {
      assert s + tail == tail;
    } else {
      assert (s + tail)[0] == s[0] && (s + tail)[1..] == tail;
    }
  }

  lemma FirstThenRest(bs: seq<Block>, d: string)
    requires bs != []
    ensures bs[0].head.level > 0 ==> Heads(bs) == [bs[0].head] + Heads(bs[1..]) && Heads(bs)[1..] == Heads(bs[1..])
    ensures bs[0].head.level == 0 ==> Heads(bs) == Heads(bs[1..])
  {
  }

  /** The sections' outline is the document's, exactly when no blank heading is dropped or renamed. */
  lemma OutlineIffKept(lines: seq<string>)
    ensures Outline(SectionsOf(lines)) == HeadingsIn(lines) <==> HeadingsKept(Blocks(lines), [])
  {
    BlocksAreTheDocument(lines);
    OutlineOfEmit(Blocks(lines), []);
  }

  // ---------- paths ----------

  /** The heading stack after n sections. */
  function PathTo(sections: seq<Section>, doc: string, n: nat): seq<string>
    requires n <= |sections|
  {
    if n == 0 then (if doc == [] then [] else [doc])
    else
      var before, s := PathTo(sections, doc, n - 1), sections[n - 1];
      if s.level == 0 then before
      else (if |before| < s.level then before else before[..s.level - 1]) + [s.title]
  }

  /** The closest heading at a level among the first n sections; the document's own name counts at level 1. */
  function Nearest(sections: seq<Section>, doc: string, n: nat, level: nat): Option<string>
    requires n <= |sections|
  {
    if n == 0 then (if level == 1 && doc != [] then Some(doc) else None)
    else if sections[n - 1].level == level then Some(sections[n - 1].title)
    else Nearest(sections, doc, n - 1, level)
  }

  /** The level in force after n sections. */
  function LevelAt(sections: seq<Section>, doc: string, n: nat): nat
    requires n <= |sections|
  {
    if n == 0 then (if doc == [] then 0 else 1)
    else if sections[n - 1].level == 0 then LevelAt(sections, doc, n - 1)
    else sections[n - 1].level
  }

  /** Opens at level 1 (at most level 2 when the document has a name), and then goes down one level at a time. */
  predicate NeverSkips(sections: seq<Section>, doc: string, n: nat)
    requires n <= |sections|
  {
    forall i :: 0 <= i < n ==> sections[i].level <= LevelAt(sections, doc, i) + 1
  }

  /** The path after n sections holds the nearest heading at every level from 1 to the current one. */
  predicate ExactPath(sections: seq<Section>, doc: string, n: nat)
    requires n <= |sections|
  {
    var path := PathTo(sections, doc, n);
    && |path| == LevelAt(sections, doc, n)
    && forall j :: 1 <= j <= |path| ==> Nearest(sections, doc, n, j) == Some(path[j - 1])
  }

  lemma {:induction false} NestedPath(sections: seq<Section>, doc: string, n: nat)
    requires n <= |sections| && NeverSkips(sections, doc, n)
    ensures ExactPath(sections, doc, n)
  {
    if n > 0 {
      NestedPath(sections, doc, n - 1);
    }
  }

  /** Section paths are right throughout exactly when the document never skips a level. */
  lemma PathsExactIff(sections: seq<Section>, doc: string)
    ensures (forall n :: 0 <= n <= |sections| ==> ExactPath(sections, doc, n)) <==> NeverSkips(sections, doc, |sections|)
  {
    if NeverSkips(sections, doc, |sections|) {
      forall n | 0 <= n <= |sections| ensures ExactPath(sections, doc, n) {
        NestedPath(sections, doc, n);
      }
    } else {
      var i :| 0 <= i < |sections| && sections[i].level > LevelAt(sections, doc, i) + 1;
      if ExactPath(sections, doc, i) {
        assert |PathTo(sections, doc, i + 1)| == |PathTo(sections, doc, i)| + 1 < sections[i].level;
        assert !ExactPath(sections, doc, i + 1);
      }
    }
  }

  /** Two sections on the same skipped level are nested in one another. */
  lemma SkippedSiblingsNest(a: string, b: string, c: string)
    ensures var s := [Section(1, a, "x"), Section(3, b, "y"), Section(3, c, "z")];
            PathTo(s, "", 2) == [a, b] && PathTo(s, "", 3) == [a, b, c] && !NeverSkips(s, "", 3)
  {
    var s := [Section(1, a, "x"), Section(3, b, "y"), Section(3, c, "z")];
    assert PathTo(s, "", 1) == [a];
    assert PathTo(s, "", 2) == [a, b];
    assert LevelAt(s, "", 1) == 1 && s[1].level == 3;
  }
}
