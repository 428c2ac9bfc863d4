/**
  Fusing the hits of two search engines: each engine's scores are stretched to [0, 1] over the
  union of their hits, weighted, and the hits are ranked by the sum.  Scores are reals.
 */
module ScoreFusion {
  import opened Text

  datatype Row = Row(id: string, score: real, payload: nat)

  type Scores = map<string, real>

  /** A row of the result, with the two normalised scores it is shown with. */
  datatype Entry = Entry(id: string, score: real, row: Row, denseNorm: real, sparseNorm: real)

  // ---------- one engine ----------

  ghost predicate Bounds(s: Scores, lo: real, hi: real) {
    && (exists k :: k in s && s[k] == lo)
    && (exists k :: k in s && s[k] == hi)
    && (forall k :: k in s ==> lo <= s[k] <= hi)
  }

  lemma {:induction false} BoundsExist(s: Scores)
    requires s != map[]
    ensures exists lo, hi :: Bounds(s, lo, hi)
    decreases |s|
  {
    var k :| k in s;
    var rest := s - {k};
    if rest == map[] {
      forall x | x in s ensures x == k {
        assert x != k ==> x in rest;
      }
      assert Bounds(s, s[k], s[k]);
    } else {
      BoundsExist(rest);
      var lo, hi :| Bounds(rest, lo, hi);
      var a, b :| a in rest && rest[a] == lo && b in rest && rest[b] == hi;
      assert s[a] == lo && s[b] == hi;
      forall x | x in s ensures x == k || lo <= s[x] <= hi {
        assert x != k ==> x in rest;
      }
      assert Bounds(s, if s[k] < lo then s[k] else lo, if s[k] > hi then s[k] else hi);
    }
  }

  function Rescale(v: real, lo: real, hi: real): real {
    if hi <= lo then 1.0 else (v - lo) / (hi - lo)
  }

  ghost function BoundsOf(s: Scores): (b: (real, real))
    requires s != map[]
    ensures Bounds(s, b.0, b.1)
  {
    BoundsExist(s);
    var lo, hi :| Bounds(s, lo, hi);
    (lo, hi)
  }

  ghost function Normalised(s: Scores): Scores {
    if s == map[] then map[] else map k | k in s :: Rescale(s[k], BoundsOf(s).0, BoundsOf(s).1)
  }

  lemma BoundsUnique(s: Scores, lo: real, hi: real)
    requires s != map[] && Bounds(s, lo, hi)
    ensures BoundsOf(s) == (lo, hi)
  {
    var b := BoundsOf(s);
    var i, j :| i in s && s[i] == b.0 && j in s && s[j] == b.1;
    var i', j' :| i' in s && s[i'] == lo && j' in s && s[j'] == hi;
  }

  method Extremes(s: Scores) returns (lo: real, hi: real)
    requires s != map[]
    ensures Bounds(s, lo, hi)
  {
    var first :| first in s;
    lo, hi := s[first], s[first];
    ghost var a, b := first, first;
    var rest := s.Keys - {first};
    while rest != {}
      invariant rest <= s.Keys && a in s && s[a] == lo && b in s && s[b] == hi
      invariant forall k :: k in s && k !in rest ==> lo <= s[k] <= hi
      decreases |rest|
    {
      var k :| k in rest;
      if s[k] < lo { lo := s[k]; a := k; }
      if s[k] > hi { hi := s[k]; b := k; }
      rest := rest - {k};
    }
  }

  method MinMaxNormalize(s: Scores) returns (norm: Scores)
    ensures norm == Normalised(s)
  {
    if s == map[] {
      return map[];
    }
    var lo, hi := Extremes(s);
    BoundsUnique(s, lo, hi);
    norm := map k | k in s :: if hi <= lo then 1.0 else (s[k] - lo) / (hi - lo);
  }

  lemma RescaleInUnit(v: real, lo: real, hi: real)
    requires lo <= v <= hi
    ensures 0.0 <= Rescale(v, lo, hi) <= 1.0
  {
    if lo < hi {
      DivMonotone(0.0, v - lo, hi - lo);
      DivMonotone(v - lo, hi - lo, hi - lo);
    }
  }

  lemma DivMonotone(a: real, b: real, d: real)
    requires d > 0.0
    ensures a <= b <==> a / d <= b / d
  {
    assert (a / d) * d == a && (b / d) * d == b;
  }

  /** Stretching an engine's scores neither creates nor undoes a difference, and lands in [0, 1]. */
  lemma NormalisedKeepsOrder(s: Scores, i: string, j: string)
    requires i in s && j in s
    ensures 0.0 <= Normalised(s)[i] <= 1.0
    ensures Normalised(s)[i] <= Normalised(s)[j] <==> s[i] <= s[j]
  {
    var b := BoundsOf(s);
    RescaleInUnit(s[i], b.0, b.1);
    if b.0 < b.1 {
      DivMonotone(s[i] - b.0, s[j] - b.0, b.1 - b.0);
    }
  }

  function Stretch(v: real, c: real, d: real): real {
    c * v + d
  }

  /** Normalising in full: between the least and the greatest score in proportion, all 1 where they are equal. */
  lemma NormalisedWrittenOut(s: Scores, lo: string, hi: string, i: string)
    requires lo in s && hi in s && i in s && forall k :: k in s ==> s[lo] <= s[k] <= s[hi]
    ensures i in Normalised(s)
    ensures if s[lo] < s[hi] then Normalised(s)[i] * (s[hi] - s[lo]) == s[i] - s[lo] else Normalised(s)[i] == 1.0
  {
    BoundsUnique(s, s[lo], s[hi]);
    if s[lo] < s[hi] {
      DivBack(s[i] - s[lo], s[hi] - s[lo]);
    }
  }

  lemma DivBack(x: real, y: real)
    requires y != 0.0
    ensures x / y * y == x
  {
  }

  function Affine(s: Scores, c: real, d: real): Scores {
    map k | k in s :: Stretch(s[k], c, d)
  }

  lemma StretchMonotone(a: real, b: real, c: real, d: real)
    requires c > 0.0 && a <= b
    ensures Stretch(a, c, d) <= Stretch(b, c, d)
  {
  }

  lemma RescaleStretched(v: real, lo: real, hi: real, c: real, d: real)
    requires c > 0.0 && lo <= hi
    ensures Rescale(Stretch(v, c, d), Stretch(lo, c, d), Stretch(hi, c, d)) == Rescale(v, lo, hi)
  {
    if lo < hi {
      var x := (v - lo) / (hi - lo);
      assert x * (hi - lo) == v - lo;
      assert c * (x * (hi - lo)) == x * (c * (hi - lo));
      assert (c * v + d) - (c * lo + d) == x * (c * (hi - lo));
      assert c * (hi - lo) > 0.0;
      DivCancel(x, c * (hi - lo));
      assert (c * hi + d) - (c * lo + d) == c * (hi - lo);
    } else {
      assert c * lo == c * hi;
    }
  }

  lemma DivCancel(x: real, y: real)
    requires y != 0.0
    ensures x * y / y == x
  {
  }

  lemma BoundsStretched(s: Scores, lo: real, hi: real, c: real, d: real)
    requires c > 0.0 && Bounds(s, lo, hi)
    ensures Bounds(Affine(s, c, d), Stretch(lo, c, d), Stretch(hi, c, d))
  {
    hide Stretch;
    var t := Affine(s, c, d);
    var i, j :| i in s && s[i] == lo && j in s && s[j] == hi;
    assert i in t && t[i] == Stretch(lo, c, d);
    assert j in t && t[j] == Stretch(hi, c, d);
    forall k | k in t ensures Stretch(lo, c, d) <= t[k] <= Stretch(hi, c, d) {
      StretchMonotone(lo, s[k], c, d);
      StretchMonotone(s[k], hi, c, d);
    }
  }

  /** Neither the unit nor the zero point of an engine's scores matters. */
  lemma NormalisedAffine(s: Scores, c: real, d: real)
    requires c > 0.0
    ensures Normalised(Affine(s, c, d)) == Normalised(s)
  {
    hide Bounds, Rescale, Stretch;
    var t := Affine(s, c, d);
    assert t.Keys == s.Keys;
    if s != map[] {
      var b := BoundsOf(s);
      BoundsStretched(s, b.0, b.1, c, d);
      BoundsInOrder(s, b.0, b.1);
      var i :| i in s;
      assert i in t;
      BoundsUnique(t, Stretch(b.0, c, d), Stretch(b.1, c, d));
      forall k | k in s ensures Normalised(t)[k] == Normalised(s)[k] {
        RescaleStretched(s[k], b.0, b.1, c, d);
      }
    }
  }

  lemma BoundsInOrder(s: Scores, lo: real, hi: real)
    requires Bounds(s, lo, hi)
    ensures lo <= hi
  {
  }

  // ---------- both engines ----------

  /** The scores of an engine by id; a later row replaces an earlier one, a row without an id is skipped. */
  function RawOf(rows: seq<Row>): Scores {
    if rows == [] then map[]
    else
      var last := rows[|rows| - 1];
      if Strip(last.id) == [] then RawOf(rows[..|rows| - 1]) else RawOf(rows[..|rows| - 1])[Strip(last.id) := last.score]
  }

  /** The row shown for an id: the last dense one, or the first sparse one. */
  function DenseRows(rows: seq<Row>): map<string, Row> {
    if rows == [] then map[]
    else
      var last := rows[|rows| - 1];
      if Strip(last.id) == [] then DenseRows(rows[..|rows| - 1]) else DenseRows(rows[..|rows| - 1])[Strip(last.id) := last]
  }

  function ShownRows(dense: seq<Row>, sparse: seq<Row>): map<string, Row> {
    if sparse == [] then DenseRows(dense)
    else
      var last := sparse[|sparse| - 1];
      var before := ShownRows(dense, sparse[..|sparse| - 1]);
      if Strip(last.id) == [] || Strip(last.id) in before then before else before[Strip(last.id) := last]
  }

  /** Scores over all ids; an engine that does not know an id scores it 0. */
  function Fill(raw: Scores, ids: set<string>): Scores {
    map k | k in ids :: if k in raw then raw[k] else 0.0
  }

  function AtLeastZero(x: real): (r: real)
    ensures r >= 0.0 && (x >= 0.0 ==> r == x) && (x < 0.0 ==> r == 0.0)
  {
    if x > 0.0 then x else 0.0
  }

  /** The configured weights scaled to a sum of 1, negative ones counting as 0; the default where nothing is left. */
  function Weights(dense: real, sparse: real): (w: (real, real))
    ensures w.0 >= 0.0 && w.1 >= 0.0 && w.0 + w.1 == 1.0
    ensures var d, s := AtLeastZero(dense), AtLeastZero(sparse);
            if d + s > 0.0 then w.0 * (d + s) == d && w.1 * (d + s) == s else w == (0.55, 0.45)
  {
    var d, s := AtLeastZero(dense), AtLeastZero(sparse);
    if d + s <= 0.0 then (0.55, 0.45) else ShareOfOne(d, s); (d / (d + s), s / (d + s))
  }

  lemma ShareOfOne(d: real, s: real)
    requires d >= 0.0 && s >= 0.0 && d + s > 0.0
    ensures d / (d + s) >= 0.0 && s / (d + s) >= 0.0 && d / (d + s) + s / (d + s) == 1.0
    ensures d / (d + s) * (d + s) == d && s / (d + s) * (d + s) == s
  {
    DivMonotone(0.0, d, d + s);
    DivMonotone(0.0, s, d + s);
  }

  ghost function FusedScore(dense: Scores, sparse: Scores, w: (real, real), id: string): real
    requires id in dense || id in sparse
  {
    var ids := dense.Keys + sparse.Keys;
    Mix(w, Normalised(Fill(dense, ids))[id], Normalised(Fill(sparse, ids))[id])
  }

  function Mix(w: (real, real), dense: real, sparse: real): real {
    w.0 * dense + w.1 * sparse
  }

  /** A method's result: every id of either engine once, with its row and fused score, best first. */
  ghost predicate IsRanking(fused: seq<Entry>, denseRows: seq<Row>, sparseRows: seq<Row>, w: (real, real)) {
    var dense, sparse := RawOf(denseRows), RawOf(sparseRows);
    && Distinct(fused)
    && IdsOf(fused) == dense.Keys + sparse.Keys
    && Descending(fused)
    && AllScored(fused, denseRows, sparseRows, w)
  }

  ghost predicate AllScored(fused: seq<Entry>, denseRows: seq<Row>, sparseRows: seq<Row>, w: (real, real)) {
    forall e :: e in fused ==> IsScored(e, denseRows, sparseRows, w)
  }

  ghost predicate IsScored(e: Entry, denseRows: seq<Row>, sparseRows: seq<Row>, w: (real, real)) {
    var dense, sparse := RawOf(denseRows), RawOf(sparseRows);
    && (e.id in dense || e.id in sparse)
    && e.score == FusedScore(dense, sparse, w, e.id)
    && e.id in ShownRows(denseRows, sparseRows)
    && e.row == ShownRows(denseRows, sparseRows)[e.id]
    && e.denseNorm == Normalised(Fill(dense, dense.Keys + sparse.Keys))[e.id]
    && e.sparseNorm == Normalised(Fill(sparse, dense.Keys + sparse.Keys))[e.id]
  }

  /** The entry put together for one id. */
  function EntryFor(id: string, w: (real, real), dense: real, sparse: real, row: Row): Entry {
    Entry(id, Mix(w, dense, sparse), row, dense, sparse)
  }

  predicate Distinct(fused: seq<Entry>) {
    forall i, j :: 0 <= i < j < |fused| ==> fused[i].id != fused[j].id
  }

  function IdsOf(fused: seq<Entry>): set<string> {
    set e | e in fused :: e.id
  }

  predicate Descending(fused: seq<Entry>) {
    forall i, j :: 0 <= i < j < |fused| ==> fused[i].score >= fused[j].score
  }

  lemma InsertFacts(sorted: seq<Entry>, at: nat, e: Entry)
    requires at <= |sorted| && Distinct(sorted) && Descending(sorted) && e.id !in IdsOf(sorted)
    requires forall j :: 0 <= j < at ==> sorted[j].score >= e.score
    requires at < |sorted| ==> sorted[at].score < e.score
    ensures var all := sorted[..at] + [e] + sorted[at..];
            Distinct(all) && Descending(all) && forall x :: x in all <==> x == e || x in sorted
  {
    hide Distinct, Descending, IdsOf;
    InsertDistinct(sorted, at, e);
    InsertDescending(sorted, at, e);
    assert sorted == sorted[..at] + sorted[at..];
  }

  lemma InsertDistinct(sorted: seq<Entry>, at: nat, e: Entry)
    requires at <= |sorted| && Distinct(sorted) && e.id !in IdsOf(sorted)
    ensures Distinct(sorted[..at] + [e] + sorted[at..])
  {
    forall i | 0 <= i < |sorted| ensures sorted[i].id != e.id {
      assert sorted[i] in sorted;
    }
    hide IdsOf;
  }

  lemma InsertDescending(sorted: seq<Entry>, at: nat, e: Entry)
    requires at <= |sorted| && Descending(sorted)
    requires forall j :: 0 <= j < at ==> sorted[j].score >= e.score
    requires at < |sorted| ==> sorted[at].score < e.score
    ensures Descending(sorted[..at] + [e] + sorted[at..])
  {
  }

  /** Sorting by descending score. */
  method SortByScore(entries: seq<Entry>) returns (sorted: seq<Entry>)
    requires Distinct(entries)
    ensures Distinct(sorted) && Descending(sorted)
    ensures forall e :: e in sorted <==> e in entries
  {
    hide Distinct, Descending;
    sorted := [];
    NothingToSort();
    for i := 0 to |entries|
      invariant Distinct(sorted) && Descending(sorted)
      invariant forall e :: e in sorted <==> e in entries[..i]
    {
      var e, at := entries[i], 0;
      while at < |sorted| && sorted[at].score >= e.score
        invariant at <= |sorted| && forall j :: 0 <= j < at ==> sorted[j].score >= e.score
      {
        at := at + 1;
      }
      assert entries[..i + 1] == entries[..i] + [e];
      NotYetThere(entries, i, sorted);
      InsertFacts(sorted, at, e);
      sorted := sorted[..at] + [e] + sorted[at..];
    }
    assert entries[..|entries|] == entries;
  }

  lemma NothingToSort()
    ensures Distinct([]) && Descending([])
  {
  }

  lemma NotYetThere(entries: seq<Entry>, i: nat, sorted: seq<Entry>)
    requires i < |entries| && Distinct(entries) && forall e :: e in sorted <==> e in entries[..i]
    ensures entries[i].id !in IdsOf(sorted)
  {
    forall f | f in sorted ensures f.id != entries[i].id {
      assert f in entries[..i];
    }
  }

  lemma {:induction false} ShownKnowsAll(denseRows: seq<Row>, sparseRows: seq<Row>)
    ensures ShownRows(denseRows, sparseRows).Keys == RawOf(denseRows).Keys + RawOf(sparseRows).Keys
    decreases |sparseRows| + |denseRows|
  {
    hide Strip;
    if sparseRows != [] {
      ShownKnowsAll(denseRows, sparseRows[..|sparseRows| - 1]);
    } else if denseRows != [] {
      ShownKnowsAll(denseRows[..|denseRows| - 1], []);
    }
  }

  method ReadScores(rows: seq<Row>) returns (raw: Scores)
    ensures raw == RawOf(rows)
  {
    hide Strip;
    raw := map[];
    for i := 0 to |rows|
      invariant raw == RawOf(rows[..i])
    {
      assert rows[..i + 1][..i] == rows[..i];
      var pid := Strip(rows[i].id);
      if pid != [] {
        raw := raw[pid := rows[i].score];
      }
    }
    assert rows[..|rows|] == rows;
  }

  method ReadRows(dense: seq<Row>, sparse: seq<Row>) returns (byId: map<string, Row>)
    ensures byId == ShownRows(dense, sparse)
  {
    hide Strip;
    byId := map[];
    for i := 0 to |dense|
      invariant byId == DenseRows(dense[..i])
    {
      assert dense[..i + 1][..i] == dense[..i];
      var pid := Strip(dense[i].id);
      if pid != [] {
        byId := byId[pid := dense[i]];
      }
    }
    assert dense[..|dense|] == dense;
    for i := 0 to |sparse|
      invariant byId == ShownRows(dense, sparse[..i])
    {
      assert sparse[..i + 1][..i] == sparse[..i];
      var pid := Strip(sparse[i].id);
      if pid != [] && pid !in byId {
        byId := byId[pid := sparse[i]];
      }
    }
    assert sparse[..|sparse|] == sparse;
  }

  /** One entry for every id, in whatever order the set yields them. */
  method ScoreAll(ids: set<string>, dense: Scores, sparse: Scores, byId: map<string, Row>, w: (real, real),
                  ghost denseRows: seq<Row>, ghost sparseRows: seq<Row>)
    returns (entries: seq<Entry>)
    requires ids <= dense.Keys && ids <= sparse.Keys && ids <= byId.Keys
    requires forall id :: id in ids ==> IsScored(EntryFor(id, w, dense[id], sparse[id], byId[id]), denseRows, sparseRows, w)
    ensures Distinct(entries) && IdsOf(entries) == ids && AllScored(entries, denseRows, sparseRows, w)
  {
    hide Strip, Distinct, IdsOf, AllScored, IsScored, Mix;
    entries := [];
    var rest := ids;
    NothingYet(denseRows, sparseRows, w);
    while rest != {}
      invariant rest <= ids && Distinct(entries) && IdsOf(entries) == ids - rest
      invariant AllScored(entries, denseRows, sparseRows, w)
      decreases |rest|
    {
      var pid :| pid in rest;
      var e := EntryFor(pid, w, dense[pid], sparse[pid], byId[pid]);
      IdsGrow(entries, e);
      ScoredGrow(entries, e, denseRows, sparseRows, w);
      entries := entries + [e];
      rest := rest - {pid};
    }
  }

  method FuseDenseSparse(denseRows: seq<Row>, sparseRows: seq<Row>, denseWeight: real, sparseWeight: real)
    returns (fused: seq<Entry>)
    ensures IsRanking(fused, denseRows, sparseRows, Weights(denseWeight, sparseWeight))
    ensures var d, s := AtLeastZero(denseWeight), AtLeastZero(sparseWeight);
            forall e :: e in fused ==>
              if d + s > 0.0 then e.score * (d + s) == d * e.denseNorm + s * e.sparseNorm
              else e.score == 0.55 * e.denseNorm + 0.45 * e.sparseNorm
  {
    hide *;
    var byId := ReadRows(denseRows, sparseRows);
    var dense := ReadScores(denseRows);
    var sparse := ReadScores(sparseRows);
    var ids := dense.Keys + sparse.Keys;
    var denseNorm := MinMaxNormalize(Fill(dense, ids));
    var sparseNorm := MinMaxNormalize(Fill(sparse, ids));
    var w := Weights(denseWeight, sparseWeight);
    AllScoredFromNorms(denseRows, sparseRows, w);
    var entries := ScoreAll(ids, denseNorm, sparseNorm, byId, w, denseRows, sparseRows);
    fused := SortByScore(entries);
    SameIds(fused, entries);
    SameScores(fused, entries, denseRows, sparseRows, w);
    RankingFromParts(fused, denseRows, sparseRows, w);
    forall e | e in fused
      ensures var d, s := AtLeastZero(denseWeight), AtLeastZero(sparseWeight);
              if d + s > 0.0 then e.score * (d + s) == d * e.denseNorm + s * e.sparseNorm
              else e.score == 0.55 * e.denseNorm + 0.45 * e.sparseNorm
    {
      ScoreWrittenOut(e, denseRows, sparseRows, denseWeight, sparseWeight, fused);
    }
  }

  lemma ScoreWrittenOut(e: Entry, denseRows: seq<Row>, sparseRows: seq<Row>, denseWeight: real, sparseWeight: real, fused: seq<Entry>)
    requires e in fused && AllScored(fused, denseRows, sparseRows, Weights(denseWeight, sparseWeight))
    ensures var d, s := AtLeastZero(denseWeight), AtLeastZero(sparseWeight);
            if d + s > 0.0 then e.score * (d + s) == d * e.denseNorm + s * e.sparseNorm
            else e.score == 0.55 * e.denseNorm + 0.45 * e.sparseNorm
  {
    hide Normalised, Fill, RawOf, ShownRows, Weights;
    assert IsScored(e, denseRows, sparseRows, Weights(denseWeight, sparseWeight));
    MixScaled(Weights(denseWeight, sparseWeight), AtLeastZero(denseWeight) + AtLeastZero(sparseWeight), e.denseNorm, e.sparseNorm);
  }

  lemma MixScaled(w: (real, real), t: real, a: real, b: real)
    ensures Mix(w, a, b) * t == w.0 * t * a + w.1 * t * b
  {
    assert w.0 * a * t == w.0 * t * a && w.1 * b * t == w.1 * t * b;
    assert Mix(w, a, b) * t == w.0 * a * t + w.1 * b * t;
  }

  lemma RankingFromParts(fused: seq<Entry>, denseRows: seq<Row>, sparseRows: seq<Row>, w: (real, real))
    requires Distinct(fused) && Descending(fused) && AllScored(fused, denseRows, sparseRows, w)
    requires IdsOf(fused) == RawOf(denseRows).Keys + RawOf(sparseRows).Keys
    ensures IsRanking(fused, denseRows, sparseRows, w)
  {
  }

  lemma NormalisedKeys(s: Scores)
    ensures Normalised(s).Keys == s.Keys
  {
  }

  lemma FilledKeys(raw: Scores, ids: set<string>)
    ensures Normalised(Fill(raw, ids)).Keys == ids
  {
    NormalisedKeys(Fill(raw, ids));
  }

  lemma NothingYet(denseRows: seq<Row>, sparseRows: seq<Row>, w: (real, real))
    ensures Distinct([]) && IdsOf([]) == {} && AllScored([], denseRows, sparseRows, w)
  {
  }

  lemma ScoredFromNorms(denseRows: seq<Row>, sparseRows: seq<Row>, w: (real, real), id: string)
    requires id in RawOf(denseRows).Keys + RawOf(sparseRows).Keys
    ensures var dense, sparse := RawOf(denseRows), RawOf(sparseRows);
            var ids := dense.Keys + sparse.Keys;
            var d, s := Normalised(Fill(dense, ids)), Normalised(Fill(sparse, ids));
            var byId := ShownRows(denseRows, sparseRows);
            && id in d && id in s && id in byId
            && IsScored(EntryFor(id, w, d[id], s[id], byId[id]), denseRows, sparseRows, w)
  {
    hide Normalised, Fill, Mix, RawOf, ShownRows;
    ShownKnowsAll(denseRows, sparseRows);
    FilledKeys(RawOf(denseRows), RawOf(denseRows).Keys + RawOf(sparseRows).Keys);
    FilledKeys(RawOf(sparseRows), RawOf(denseRows).Keys + RawOf(sparseRows).Keys);
  }

  lemma AllScoredFromNorms(denseRows: seq<Row>, sparseRows: seq<Row>, w: (real, real))
    ensures var dense, sparse := RawOf(denseRows), RawOf(sparseRows);
            var ids := dense.Keys + sparse.Keys;
            var d, s := Normalised(Fill(dense, ids)), Normalised(Fill(sparse, ids));
            var byId := ShownRows(denseRows, sparseRows);
            && ids <= d.Keys && ids <= s.Keys && ids <= byId.Keys
            && forall id :: id in ids ==> IsScored(EntryFor(id, w, d[id], s[id], byId[id]), denseRows, sparseRows, w)
  {
    hide *;
    var ids := RawOf(denseRows).Keys + RawOf(sparseRows).Keys;
    FilledKeys(RawOf(denseRows), ids);
    FilledKeys(RawOf(sparseRows), ids);
    ShownKnowsAll(denseRows, sparseRows);
    forall id | id in ids
      ensures IsScored(EntryFor(id, w, Normalised(Fill(RawOf(denseRows), ids))[id], Normalised(Fill(RawOf(sparseRows), ids))[id],
                                ShownRows(denseRows, sparseRows)[id]), denseRows, sparseRows, w)
    {
      ScoredFromNorms(denseRows, sparseRows, w, id);
    }
  }

  lemma ScoredGrow(entries: seq<Entry>, e: Entry, denseRows: seq<Row>, sparseRows: seq<Row>, w: (real, real))
    requires AllScored(entries, denseRows, sparseRows, w) && IsScored(e, denseRows, sparseRows, w)
    ensures AllScored(entries + [e], denseRows, sparseRows, w)
  {
    hide IsScored;
  }

  lemma SameScores(a: seq<Entry>, b: seq<Entry>, denseRows: seq<Row>, sparseRows: seq<Row>, w: (real, real))
    requires AllScored(b, denseRows, sparseRows, w) && forall e :: e in a <==> e in b
    ensures AllScored(a, denseRows, sparseRows, w)
  {
    hide IsScored;
  }

  lemma SameIds(a: seq<Entry>, b: seq<Entry>)
    requires forall e :: e in a <==> e in b
    ensures IdsOf(a) == IdsOf(b)
  {
  }

  lemma IdsGrow(entries: seq<Entry>, e: Entry)
    requires Distinct(entries) && e.id !in IdsOf(entries)
    ensures Distinct(entries + [e]) && IdsOf(entries + [e]) == IdsOf(entries) + {e.id}
  {
    forall i | 0 <= i < |entries| ensures entries[i].id != e.id {
      assert entries[i] in entries;
    }
    forall id | id in IdsOf(entries) + {e.id} ensures id in IdsOf(entries + [e]) {
      if id in IdsOf(entries) {
        var f :| f in entries && f.id == id;
        assert f in entries + [e];
      } else {
        assert e in entries + [e];
      }
    }
  }

  // ---------- what the ranking means ----------

  ghost function DenseOf(dense: Scores, sparse: Scores, id: string): real
    requires id in dense || id in sparse
  {
    Fill(dense, dense.Keys + sparse.Keys)[id]
  }

  ghost function SparseOf(dense: Scores, sparse: Scores, id: string): real
    requires id in dense || id in sparse
  {
    Fill(sparse, dense.Keys + sparse.Keys)[id]
  }

  lemma MixMonotone(w: (real, real), a: real, b: real, a': real, b': real)
    requires w.0 >= 0.0 && w.1 >= 0.0 && a <= a' && b <= b'
    ensures Mix(w, a, b) <= Mix(w, a', b')
    ensures (w.0 > 0.0 && a < a') || (w.1 > 0.0 && b < b') ==> Mix(w, a, b) < Mix(w, a', b')
  {
    assert w.0 * (a' - a) >= 0.0 && w.1 * (b' - b) >= 0.0;
    assert w.0 > 0.0 && a < a' ==> w.0 * (a' - a) > 0.0;
    assert w.1 > 0.0 && b < b' ==> w.1 * (b' - b) > 0.0;
  }

  lemma MixEnds(w: (real, real))
    requires w.0 + w.1 == 1.0
    ensures Mix(w, 0.0, 0.0) == 0.0 && Mix(w, 1.0, 1.0) == 1.0
  {
  }

  /** Fused scores lie in [0, 1]; an id no worse for either engine ranks no lower, and higher if better where it counts. */
  lemma FusedIsSound(dense: Scores, sparse: Scores, w: (real, real), i: string, j: string)
    requires w.0 >= 0.0 && w.1 >= 0.0 && w.0 + w.1 == 1.0
    requires (i in dense || i in sparse) && (j in dense || j in sparse)
    ensures 0.0 <= FusedScore(dense, sparse, w, i) <= 1.0
    ensures var better := DenseOf(dense, sparse, i) < DenseOf(dense, sparse, j);
            var better' := SparseOf(dense, sparse, i) < SparseOf(dense, sparse, j);
            DenseOf(dense, sparse, i) <= DenseOf(dense, sparse, j) && SparseOf(dense, sparse, i) <= SparseOf(dense, sparse, j)
            ==> && FusedScore(dense, sparse, w, i) <= FusedScore(dense, sparse, w, j)
                && ((w.0 > 0.0 && better) || (w.1 > 0.0 && better')
                    ==> FusedScore(dense, sparse, w, i) < FusedScore(dense, sparse, w, j))
  {
    var ids := dense.Keys + sparse.Keys;
    var d, s := Fill(dense, ids), Fill(sparse, ids);
    NormalisedOrders(d, i, j);
    NormalisedOrders(s, i, j);
    hide Normalised, Fill, Mix;
    var nd, ns := Normalised(d), Normalised(s);
    MixEnds(w);
    MixMonotone(w, 0.0, 0.0, nd[i], ns[i]);
    MixMonotone(w, nd[i], ns[i], 1.0, 1.0);
    if nd[i] <= nd[j] && ns[i] <= ns[j] {
      MixMonotone(w, nd[i], ns[i], nd[j], ns[j]);
    }
  }

  lemma NormalisedOrders(s: Scores, i: string, j: string)
    requires i in s && j in s
    ensures i in Normalised(s) && j in Normalised(s)
    ensures 0.0 <= Normalised(s)[i] <= 1.0
    ensures Normalised(s)[i] <= Normalised(s)[j] <==> s[i] <= s[j]
    ensures Normalised(s)[j] <= Normalised(s)[i] <==> s[j] <= s[i]
  {
    NormalisedKeys(s);
    hide Normalised;
    NormalisedKeepsOrder(s, i, j);
    NormalisedKeepsOrder(s, j, i);
  }

  lemma FillAffine(raw: Scores, ids: set<string>, c: real, d: real)
    requires raw.Keys <= ids && (d == 0.0 || ids <= raw.Keys)
    ensures Fill(Affine(raw, c, d), ids) == Affine(Fill(raw, ids), c, d)
  {
    assert Stretch(0.0, c, 0.0) == 0.0;
    hide Stretch;
  }

  /** Multiplying either engine's scores by a positive constant changes no fused score. */
  lemma UnitsDoNotMatter(dense: Scores, sparse: Scores, w: (real, real), c: real, c': real, id: string)
    requires (id in dense || id in sparse) && c > 0.0 && c' > 0.0
    ensures FusedScore(Affine(dense, c, 0.0), Affine(sparse, c', 0.0), w, id) == FusedScore(dense, sparse, w, id)
  {
    var ids := dense.Keys + sparse.Keys;
    assert Affine(dense, c, 0.0).Keys + Affine(sparse, c', 0.0).Keys == ids;
    hide Normalised, Fill, Mix, Affine;
    FillAffine(dense, ids, c, 0.0);
    FillAffine(sparse, ids, c', 0.0);
    NormalisedAffine(Fill(dense, ids), c, 0.0);
    NormalisedAffine(Fill(sparse, ids), c', 0.0);
  }

  /**
    Of two ids, one best for the dense engine and worst for the sparse one, the other the reverse:
    the engine with the greater weight decides.
   */
  lemma HeavierEngineDecides(dense: Scores, sparse: Scores, denseWeight: real, sparseWeight: real, a: string, b: string)
    requires a in dense && b in dense && a in sparse && b in sparse
    requires denseWeight >= 0.0 && sparseWeight >= 0.0 && denseWeight + sparseWeight > 0.0
    requires forall id :: id in dense.Keys + sparse.Keys ==>
               && DenseOf(dense, sparse, b) <= DenseOf(dense, sparse, id) <= DenseOf(dense, sparse, a)
               && SparseOf(dense, sparse, a) <= SparseOf(dense, sparse, id) <= SparseOf(dense, sparse, b)
    requires dense[b] < dense[a] && sparse[a] < sparse[b]
    ensures var w := Weights(denseWeight, sparseWeight);
            && (FusedScore(dense, sparse, w, a) > FusedScore(dense, sparse, w, b) <==> denseWeight > sparseWeight)
            && FusedScore(dense, sparse, w, a) * (denseWeight + sparseWeight) == denseWeight
            && FusedScore(dense, sparse, w, b) * (denseWeight + sparseWeight) == sparseWeight
  {
    hide *;
    var w := Weights(denseWeight, sparseWeight);
    EndScores(dense, sparse, w, a, b);
    WeightsScaled(denseWeight, sparseWeight);
    ShareOrder(w.0, w.1, denseWeight + sparseWeight, denseWeight, sparseWeight);
  }

  lemma WeightsScaled(dense: real, sparse: real)
    requires dense >= 0.0 && sparse >= 0.0 && dense + sparse > 0.0
    ensures var w := Weights(dense, sparse); w.0 * (dense + sparse) == dense && w.1 * (dense + sparse) == sparse
  {
    hide Weights;
    assert AtLeastZero(dense) == dense && AtLeastZero(sparse) == sparse;
  }

  lemma EndScores(dense: Scores, sparse: Scores, w: (real, real), a: string, b: string)
    requires a in dense && b in dense && a in sparse && b in sparse
    requires forall id :: id in dense.Keys + sparse.Keys ==>
               && DenseOf(dense, sparse, b) <= DenseOf(dense, sparse, id) <= DenseOf(dense, sparse, a)
               && SparseOf(dense, sparse, a) <= SparseOf(dense, sparse, id) <= SparseOf(dense, sparse, b)
    requires dense[b] < dense[a] && sparse[a] < sparse[b]
    ensures FusedScore(dense, sparse, w, a) == w.0 && FusedScore(dense, sparse, w, b) == w.1
  {
    hide Normalised, Mix;
    var ids := dense.Keys + sparse.Keys;
    NormalisedEnds(Fill(dense, ids), b, a);
    NormalisedEnds(Fill(sparse, ids), a, b);
    MixUnits(w);
  }

  lemma MixUnits(w: (real, real))
    ensures Mix(w, 1.0, 0.0) == w.0 && Mix(w, 0.0, 1.0) == w.1
  {
  }

  lemma NormalisedEnds(s: Scores, lo: string, hi: string)
    requires lo in s && hi in s && s[lo] < s[hi] && forall k :: k in s ==> s[lo] <= s[k] <= s[hi]
    ensures lo in Normalised(s) && hi in Normalised(s) && Normalised(s)[lo] == 0.0 && Normalised(s)[hi] == 1.0
  {
    BoundsUnique(s, s[lo], s[hi]);
    RescaleEnds(s[lo], s[hi]);
    hide Rescale;
  }

  lemma RescaleEnds(lo: real, hi: real)
    requires lo < hi
    ensures Rescale(lo, lo, hi) == 0.0 && Rescale(hi, lo, hi) == 1.0
  {
    DivCancel(1.0, hi - lo);
    DivCancel(0.0, hi - lo);
  }

  lemma ShareOrder(x: real, y: real, t: real, a: real, b: real)
    requires t > 0.0 && x * t == a && y * t == b
    ensures x > y <==> a > b
  {
    DivMonotone(x * t, y * t, t);
    DivCancel(x, t);
    DivCancel(y, t);
  }

  /** An engine's score of an id is that of the last row with the id; rows without an id do not count. */
  lemma {:induction false} LastRowScores(rows: seq<Row>, id: string, i: nat)
    requires i < |rows| && Strip(rows[i].id) == id && id != ""
    requires forall j :: i < j < |rows| ==> Strip(rows[j].id) != id
    ensures id in RawOf(rows) && RawOf(rows)[id] == rows[i].score
    ensures id in DenseRows(rows) && DenseRows(rows)[id] == rows[i]
  {
    hide Strip;
    if i < |rows| - 1 {
      LastRowScores(rows[..|rows| - 1], id, i);
    }
  }

  lemma {:induction false} UnknownIds(rows: seq<Row>, id: string)
    requires id == "" || forall i :: 0 <= i < |rows| ==> Strip(rows[i].id) != id
    ensures id !in RawOf(rows) && id !in DenseRows(rows)
  {
    hide Strip;
    if rows != [] {
      UnknownIds(rows[..|rows| - 1], id);
    }
  }

  /** The row shown is the dense engine's if it has one, and otherwise the first sparse one. */
  lemma {:induction false} DenseRowIsShown(dense: seq<Row>, sparse: seq<Row>, id: string)
    requires id in DenseRows(dense)
    ensures id in ShownRows(dense, sparse) && ShownRows(dense, sparse)[id] == DenseRows(dense)[id]
  {
    hide Strip, DenseRows;
    if sparse != [] {
      DenseRowIsShown(dense, sparse[..|sparse| - 1], id);
    }
  }

  lemma {:induction false} FirstSparseRowIsShown(dense: seq<Row>, sparse: seq<Row>, id: string, i: nat)
    requires id !in DenseRows(dense) && id != "" && i < |sparse| && Strip(sparse[i].id) == id
    requires forall j :: 0 <= j < i ==> Strip(sparse[j].id) != id
    ensures id in ShownRows(dense, sparse) && ShownRows(dense, sparse)[id] == sparse[i]
  {
    hide Strip, DenseRows;
    var n := |sparse| - 1;
    if i < n {
      FirstSparseRowIsShown(dense, sparse[..n], id, i);
    } else {
      NotShownYet(dense, sparse[..n], id);
    }
  }

  lemma {:induction false} NotShownYet(dense: seq<Row>, sparse: seq<Row>, id: string)
    requires id !in DenseRows(dense) && forall j :: 0 <= j < |sparse| ==> Strip(sparse[j].id) != id
    ensures id !in ShownRows(dense, sparse)
  {
    hide Strip, DenseRows;
    if sparse != [] {
      NotShownYet(dense, sparse[..|sparse| - 1], id);
    }
  }

  /** Where one engine knows nothing, the other one alone decides the order. */
  lemma OneEngineDecides(dense: Scores, w: (real, real), i: string, j: string)
    requires i in dense && j in dense && w.0 > 0.0 && w.1 >= 0.0 && w.0 + w.1 == 1.0
    ensures FusedScore(dense, map[], w, i) <= FusedScore(dense, map[], w, j) <==> dense[i] <= dense[j]
  {
    if dense[i] <= dense[j] {
      FusedIsSound(dense, map[], w, i, j);
    } else {
      FusedIsSound(dense, map[], w, j, i);
    }
  }

  /**
    Moving the zero point of one engine changes nothing either, as long as that engine scores every
    id: a missing score is a 0, which does not move.
   */
  lemma ZeroPointDoesNotMatter(dense: Scores, sparse: Scores, w: (real, real), d: real, id: string)
    requires (id in dense || id in sparse) && sparse.Keys <= dense.Keys
    ensures FusedScore(Affine(dense, 1.0, d), sparse, w, id) == FusedScore(dense, sparse, w, id)
  {
    var ids := dense.Keys + sparse.Keys;
    assert Affine(dense, 1.0, d).Keys + sparse.Keys == ids;
    hide Normalised, Fill, Mix, Affine;
    FillAffine(dense, ids, 1.0, d);
    NormalisedAffine(Fill(dense, ids), 1.0, d);
  }

  /** Within one engine, an id it did not return ranks no higher than one it did exactly when the latter's score is not negative. */
  lemma MissingNeverBeatsIff(raw: Scores, ids: set<string>, i: string, j: string)
    requires raw.Keys <= ids && i in raw && j in ids - raw.Keys
    ensures i in Normalised(Fill(raw, ids)) && j in Normalised(Fill(raw, ids))
    ensures Normalised(Fill(raw, ids))[j] <= Normalised(Fill(raw, ids))[i] <==> raw[i] >= 0.0
  {
    FilledKeys(raw, ids);
    NormalisedKeepsOrder(Fill(raw, ids), j, i);
  }

  /** ... and so it is with the fused scores, where the other engine does not tell the two ids apart. */
  lemma DenseMissingIff(dense: Scores, sparse: Scores, w: (real, real), i: string, j: string)
    requires w.0 > 0.0 && i in dense && j !in dense && j in sparse
    requires SparseOf(dense, sparse, i) == SparseOf(dense, sparse, j)
    ensures FusedScore(dense, sparse, w, j) <= FusedScore(dense, sparse, w, i) <==> dense[i] >= 0.0
  {
    hide Normalised, Fill, Mix;
    var ids := dense.Keys + sparse.Keys;
    var d, s := Normalised(Fill(dense, ids)), Normalised(Fill(sparse, ids));
    MissingNeverBeatsIff(dense, ids, i, j);
    FilledKeys(sparse, ids);
    SameRawSameNorm(sparse, ids, i, j);
    MixOrder(w, d[j], d[i], s[i]);
  }

  lemma SparseMissingIff(dense: Scores, sparse: Scores, w: (real, real), i: string, j: string)
    requires w.1 > 0.0 && i in sparse && j !in sparse && j in dense
    requires DenseOf(dense, sparse, i) == DenseOf(dense, sparse, j)
    ensures FusedScore(dense, sparse, w, j) <= FusedScore(dense, sparse, w, i) <==> sparse[i] >= 0.0
  {
    hide Normalised, Fill;
    assert dense.Keys + sparse.Keys == sparse.Keys + dense.Keys;
    DenseMissingIff(sparse, dense, (w.1, w.0), i, j);
  }

  lemma SameRawSameNorm(raw: Scores, ids: set<string>, i: string, j: string)
    requires i in ids && j in ids && Fill(raw, ids)[i] == Fill(raw, ids)[j]
    ensures i in Normalised(Fill(raw, ids)) && j in Normalised(Fill(raw, ids))
    ensures Normalised(Fill(raw, ids))[i] == Normalised(Fill(raw, ids))[j]
  {
  }

  lemma MixOrder(w: (real, real), a: real, b: real, c: real)
    requires w.0 > 0.0
    ensures Mix(w, a, c) <= Mix(w, b, c) <==> a <= b
  {
    assert w.0 * (b - a) >= 0.0 <==> b >= a;
  }

  /** With a negative score, an id one engine never returned beats one it did return. */
  lemma MissingBeatsNegative(w: (real, real))
    requires w.0 > 0.0 && w.1 >= 0.0 && w.0 + w.1 == 1.0
    ensures FusedScore(map["a" := -1.0], map["a" := 1.0, "b" := 1.0], w, "a")
          < FusedScore(map["a" := -1.0], map["a" := 1.0, "b" := 1.0], w, "b")
  {
    var dense: Scores, sparse: Scores := map["a" := -1.0], map["a" := 1.0, "b" := 1.0];
    FusedIsSound(dense, sparse, w, "a", "b");
  }
}
