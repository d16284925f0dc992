/**
 * When the ranges of a surah do not overlap, the segments of a request are
 * disjoint, so their verse counts add up to at most the request's length:
 * the time fractions then stay in [0, 1], every window is non-empty, and
 * every fraction in [0, 1) selects the segment whose window holds it.
 */
module Tiling {
  import opened Text
  import opened Outcomes
  import opened Metadata
  import opened Segments

  /** A dashed key whose range is not empty. */
  predicate Ranged(e: RangeEntry)
  {
    WellFormedKey(e.key) && HasDash(e.key) && StartOf(e.key) <= EndOf(e.key)
  }

  /** No verse lies in the ranges of two members of the surah. */
  ghost predicate NonOverlapping(md: ThemeMetadata, surah: int)
  {
    var key := IntToString(surah);
    key in md ==>
      forall i, j :: 0 <= i < j < |md[key]| && Ranged(md[key][i]) && Ranged(md[key][j]) ==>
        EndOf(md[key][i].key) < StartOf(md[key][j].key) || EndOf(md[key][j].key) < StartOf(md[key][i].key)
  }

  /** Without overlaps, two found verses were matched to the same bounds or to bounds apart. */
  lemma BoundsEqualOrApart(md: ThemeMetadata, surah: int, v: int, w: int)
    requires WellFormed(md) && NonOverlapping(md, surah)
    requires Found(md, surah, v) && Found(md, surah, w)
    ensures
      var a, b := FindRangeBoundsForVerse(md, surah, v), FindRangeBoundsForVerse(md, surah, w);
      a == b || a.1 < b.0 || b.1 < a.0
  {
    FindRangeBoundsForVerseFirst(md, surah, v);
    FindRangeBoundsForVerseFirst(md, surah, w);
    var d := md[IntToString(surah)];
    var a, b := FindRangeBoundsForVerse(md, surah, v), FindRangeBoundsForVerse(md, surah, w);
    var i :| FirstCovering(d, v, i) && a == (StartOf(d[i].key), EndOf(d[i].key));
    var j :| FirstCovering(d, w, j) && b == (StartOf(d[j].key), EndOf(d[j].key));
    assert Ranged(d[i]) && Ranged(d[j]);
  }

  /** Segments sorted by first verse that pairwise share no verse: each ends before the next begins. */
  predicate Apart(segs: seq<VerseRangeSegment>)
  {
    forall i, j :: 0 <= i < j < |segs| ==> segs[i].endVerse < segs[j].startVerse
  }

  /** Without overlaps, the segments of a request are apart. */
  lemma SegmentsApart(md: ThemeMetadata, surah: int, fromVerse: int, toVerse: int,
                      segs: seq<VerseRangeSegment>, origins: seq<int>)
    requires WellFormed(md) && NonOverlapping(md, surah)
    requires SpansFor(md, surah, fromVerse, toVerse, segs, origins)
    ensures Apart(segs)
  {
    forall i, j | 0 <= i < j < |segs|
      ensures segs[i].endVerse < segs[j].startVerse
    {
      var v, w := origins[i], origins[j];
      assert RecordedFor(md, surah, fromVerse, toVerse, segs[i], v);
      assert RecordedFor(md, surah, fromVerse, toVerse, segs[j], w);
      var a, b := FindRangeBoundsForVerse(md, surah, v), FindRangeBoundsForVerse(md, surah, w);
      assert RangeKey(surah, a.0, a.1) != RangeKey(surah, b.0, b.1);
      BoundsEqualOrApart(md, surah, v, w);
    }
  }

  /** Apart segments within from..: those before i span no more verses than lie between from and segment i. */
  lemma {:induction false} VersesBeforeBound(segs: seq<VerseRangeSegment>, fromVerse: int, i: int)
    requires 0 <= i <= |segs| && Apart(segs)
    requires forall k :: 0 <= k < |segs| ==> fromVerse <= segs[k].startVerse <= segs[k].endVerse
    ensures 0 <= VersesBefore(segs, i)
    ensures i < |segs| ==> VersesBefore(segs, i) <= segs[i].startVerse - fromVerse
    ensures 0 < i ==> VersesBefore(segs, i) <= segs[i - 1].endVerse - fromVerse + 1
  {
    if i > 0 {
      VersesBeforeBound(segs, fromVerse, i - 1);
    }
  }

  /** A share of fewer verses than requested is below 1. */
  lemma ShareBelowOne(n: int, fromVerse: int, toVerse: int)
    requires fromVerse <= toVerse && 0 <= n < toVerse - fromVerse + 1
    ensures 0.0 <= Share(n, fromVerse, toVerse) < 1.0
  {
    var total := (toVerse - fromVerse + 1) as real;
    assert Share(n, fromVerse, toVerse) * total == n as real;
  }

  lemma SharePositive(n: int, fromVerse: int, toVerse: int)
    requires fromVerse <= toVerse && 0 < n
    ensures 0.0 < Share(n, fromVerse, toVerse)
  {
  }

  /** Apart spans within from..to, timed by their verse shares, each start in [0, 1). */
  lemma StartsBelowOne(segs: seq<VerseRangeSegment>, fromVerse: int, toVerse: int)
    requires Apart(segs) && Timed(segs, fromVerse, toVerse) && segs != []
    requires forall k :: 0 <= k < |segs| ==> fromVerse <= segs[k].startVerse <= segs[k].endVerse <= toVerse
    ensures forall i :: 0 <= i < |segs| ==> 0.0 <= segs[i].startTimeFraction < 1.0
  {
    forall i | 0 <= i < |segs|
      ensures 0.0 <= segs[i].startTimeFraction < 1.0
    {
      VersesBeforeBound(segs, fromVerse, i);
      ShareBelowOne(VersesBefore(segs, i), fromVerse, toVerse);
    }
  }

  /** Apart spans within from..to, timed by their verse shares, tile [0, 1]. */
  lemma ApartTimedTile(segs: seq<VerseRangeSegment>, fromVerse: int, toVerse: int)
    requires Apart(segs) && Timed(segs, fromVerse, toVerse) && segs != []
    requires forall k :: 0 <= k < |segs| ==> fromVerse <= segs[k].startVerse <= segs[k].endVerse <= toVerse
    ensures Tiled(segs)
    ensures forall i :: 0 <= i < |segs| ==> 0.0 <= segs[i].startTimeFraction && segs[i].endTimeFraction <= 1.0
  {
    StartsBelowOne(segs, fromVerse, toVerse);
    forall i | 0 <= i < |segs| - 1
      ensures segs[i].startTimeFraction < segs[i].endTimeFraction
    {
      SharePositive(Count(segs[i]), fromVerse, toVerse);
    }
    forall i | 0 <= i < |segs|
      ensures segs[i].endTimeFraction <= 1.0
    {
      if i < |segs| - 1 {
        assert segs[i].endTimeFraction == segs[i + 1].startTimeFraction;
      }
    }
  }

  /**
   * With non-overlapping ranges the fractions getVerseRangeSegments assigns
   * tile [0, 1]: each lies in [0, 1] and every window is non-empty.
   */
  lemma TimedSpansTile(md: ThemeMetadata, surah: int, fromVerse: int, toVerse: int,
                       segs: seq<VerseRangeSegment>, origins: seq<int>)
    requires WellFormed(md) && NonOverlapping(md, surah)
    requires SpansFor(md, surah, fromVerse, toVerse, segs, origins) && Timed(segs, fromVerse, toVerse)
    requires segs != []
    ensures Tiled(segs)
    ensures forall i :: 0 <= i < |segs| ==> 0.0 <= segs[i].startTimeFraction && segs[i].endTimeFraction <= 1.0
  {
    SegmentsApart(md, surah, fromVerse, toVerse, segs, origins);
    ApartTimedTile(segs, fromVerse, toVerse);
  }

  /**
   * Three segments over verses 1..10 spanning 1-3, 2-9 and then anything:
   * 3 + 8 verses lie before the last, so the second ends at 1.1 and the
   * last window runs backwards from 1.1 to the forced end 1.0.
   */
  lemma ThreeSpansTimes(segs: seq<VerseRangeSegment>)
    requires |segs| == 3 && Timed(segs, 1, 10)
    requires segs[0].startVerse == 1 && segs[0].endVerse == 3
    requires segs[1].startVerse == 2 && segs[1].endVerse == 9
    ensures segs[1].endTimeFraction == 1.1 && segs[2].endTimeFraction < segs[2].startTimeFraction
  {
    assert VersesBefore(segs, 2) == 11;
  }

  /** Metadata for surah 1 whose members "1-3", "10-10" and "2-9" overlap on verses 2 and 3, in key order. */
  function OverlapMetadata(): ThemeMetadata
  {
    map["1" := [RangeEntry("1-3", ["mercy"]), RangeEntry("10-10", ["patience"]), RangeEntry("2-9", ["guidance"])]]
  }

  lemma OverlapKeys()
    ensures Find("1-3", '-') == 1 && Find("10-10", '-') == 2 && Find("2-9", '-') == 1
    ensures WellFormedKey("1-3") && HasDash("1-3") && StartOf("1-3") == 1 && EndOf("1-3") == 3
    ensures WellFormedKey("10-10") && HasDash("10-10") && StartOf("10-10") == 10 && EndOf("10-10") == 10
    ensures WellFormedKey("2-9") && HasDash("2-9") && StartOf("2-9") == 2 && EndOf("2-9") == 9
  {
    assert "1-3"[1..] == "-3" && "-3"[1..] == "3";
    assert "10-10"[1..] == "0-10" && "0-10"[1..] == "-10";
    assert "2-9"[1..] == "-9";
    assert "1-3"[..1] == "1" && "1-3"[2..] == "3";
    assert "10-10"[..2] == "10" && "10-10"[3..] == "10";
    assert "2-9"[..1] == "2" && "2-9"[2..] == "9";
    assert "10"[..1] == "1";
  }

  /** The overlapping metadata is well formed: numeral keys in ascending std::string order. */
  lemma OverlapWellFormed()
    ensures WellFormed(OverlapMetadata())
    ensures IntToString(1) == "1"
  {
    OverlapKeys();
    assert LexLess("-3", "0-10");
    assert LexLess("1-3", "10-10");
    assert LexLess("1-3", "2-9");
    assert LexLess("10-10", "2-9");
    assert NatToString(1) == "1";
  }

  /** findRangeBoundsForVerse on the overlapping surah: 1-3 for verses 1..3, 2-9 for 4..9, 10-10 for 10. */
  lemma OverlapBounds(v: int)
    requires 1 <= v <= 10
    ensures WellFormed(OverlapMetadata())
    ensures FindRangeBoundsForVerse(OverlapMetadata(), 1, v) == if v <= 3 then (1, 3) else if v <= 9 then (2, 9) else (10, 10)
  {
    OverlapWellFormed();
    OverlapKeys();
    var d := OverlapMetadata()["1"];
    var d1, d2 := d[1..], d[2..];
    assert d1[0] == d[1] && d1[1..] == d2 && d2[0] == d[2] && d2[1..] == [];
    assert KeysWellFormed(d) && KeysWellFormed(d1) && KeysWellFormed(d2);
    assert ScanBounds(d2, v) == if 2 <= v <= 9 then (2, 9) else (-1, -1);
    assert ScanBounds(d1, v) == if v == 10 then (10, 10) else ScanBounds(d2, v);
    assert ScanBounds(d, v) == if v <= 3 then (1, 3) else ScanBounds(d1, v);
  }

  /** The three keys the overlapping surah yields are distinct. */
  lemma OverlapKeysDistinct()
    ensures RangeKey(1, 1, 3) != RangeKey(1, 2, 9) && RangeKey(1, 2, 9) != RangeKey(1, 10, 10)
    ensures RangeKey(1, 10, 10) != RangeKey(1, 1, 3)
  {
    assert NatToString(10) == NatToString(1) + [DigitChar(0)] == "10";
    assert RangeKey(1, 1, 3) == "1:1-3" && RangeKey(1, 2, 9) == "1:2-9" && RangeKey(1, 10, 10) == "1:10-10";
    assert "1:1-3"[2] != "1:2-9"[2];
  }

  /** One of the three clamped ranges of the overlapping surah, under its key. */
  predicate OverlapSpan(s: VerseRangeSegment)
  {
    || (s.startVerse == 1 && s.endVerse == 3 && s.rangeKey == RangeKey(1, 1, 3))
    || (s.startVerse == 2 && s.endVerse == 9 && s.rangeKey == RangeKey(1, 2, 9))
    || (s.startVerse == 10 && s.endVerse == 10 && s.rangeKey == RangeKey(1, 10, 10))
  }

  /** A segment recorded for a verse of 1..10 of the overlapping surah is one of its three ranges. */
  lemma OverlapSpanOf(s: VerseRangeSegment, v: int)
    requires WellFormed(OverlapMetadata())
    requires RecordedFor(OverlapMetadata(), 1, 1, 10, s, v)
    ensures OverlapSpan(s)
  {
    OverlapBounds(v);
  }

  /** What SpansFor says of verses 1..10 of the overlapping surah: only its three ranges, each of them present. */
  lemma OverlapSpans(segs: seq<VerseRangeSegment>, origins: seq<int>)
    requires WellFormed(OverlapMetadata())
    requires SpansFor(OverlapMetadata(), 1, 1, 10, segs, origins)
    ensures forall i :: 0 <= i < |segs| ==> OverlapSpan(segs[i])
    ensures RangeKey(1, 1, 3) in KeysOf(segs) && RangeKey(1, 2, 9) in KeysOf(segs)
    ensures RangeKey(1, 10, 10) in KeysOf(segs)
  {
    forall i | 0 <= i < |segs|
      ensures OverlapSpan(segs[i])
    {
      OverlapSpanOf(segs[i], origins[i]);
    }
    OverlapBounds(1);
    OverlapBounds(5);
    OverlapBounds(10);
    var md := OverlapMetadata();
    assert Found(md, 1, 1) && Found(md, 1, 5) && Found(md, 1, 10);
  }

  /** Sorted by start under distinct keys, segments that include each of the three ranges and nothing else are exactly those three. */
  lemma OverlapOrder(segs: seq<VerseRangeSegment>)
    requires forall i :: 0 <= i < |segs| ==> OverlapSpan(segs[i])
    requires RangeKey(1, 1, 3) in KeysOf(segs) && RangeKey(1, 2, 9) in KeysOf(segs)
    requires RangeKey(1, 10, 10) in KeysOf(segs)
    requires SortedByStart(segs) && DistinctKeys(segs)
    ensures |segs| == 3
    ensures segs[0].startVerse == 1 && segs[0].endVerse == 3
    ensures segs[1].startVerse == 2 && segs[1].endVerse == 9
  {
    OverlapKeysDistinct();
    var iA :| 0 <= iA < |segs| && KeysOf(segs)[iA] == RangeKey(1, 1, 3);
    var iB :| 0 <= iB < |segs| && KeysOf(segs)[iB] == RangeKey(1, 2, 9);
    var iC :| 0 <= iC < |segs| && KeysOf(segs)[iC] == RangeKey(1, 10, 10);
    assert forall i, j :: 0 <= i < j < |segs| ==> segs[i].startVerse < segs[j].startVerse;
    assert iA == 0 && iC == |segs| - 1 && 0 < iB < |segs| - 1;
    // Both index 1 and index |segs| - 2 fall strictly between the first and the last start, so hold 2-9.
    assert segs[1].rangeKey == RangeKey(1, 2, 9) == segs[|segs| - 2].rangeKey;
    assert iB == 1 == |segs| - 2;
  }

  /**
   * Without the non-overlap assumption the fractions can leave [0, 1]: for
   * verses 1..10 of the overlapping surah, whatever getVerseRangeSegments
   * returns is the three spans 1-3, 2-9 and 10-10 in that order, so the
   * second ends at 1.1 and the last window runs backwards from 1.1 to 1.0.
   */
  lemma OverlapLeavesUnitInterval(segs: seq<VerseRangeSegment>, origins: seq<int>)
    requires WellFormed(OverlapMetadata())
    requires SpansFor(OverlapMetadata(), 1, 1, 10, segs, origins) && Timed(segs, 1, 10)
    ensures |segs| == 3
    ensures segs[1].endTimeFraction == 1.1 && segs[2].endTimeFraction < segs[2].startTimeFraction
  {
    OverlapSpans(segs, origins);
    OverlapOrder(segs);
    ThreeSpansTimes(segs);
  }

  /** getVerseRangeSegments on verses 1..10 of the overlapping surah: three segments, the last window reversed. */
  method OverlapExample() returns (segs: seq<VerseRangeSegment>)
    ensures |segs| == 3
    ensures segs[1].endTimeFraction == 1.1 && segs[2].endTimeFraction < segs[2].startTimeFraction
  {
    OverlapWellFormed();
    ghost var origins;
    segs, origins := GetVerseRangeSegments(OverlapMetadata(), 1, 1, 10);
    OverlapLeavesUnitInterval(segs, origins);
  }

  /** Over a tiling, a fraction below 1 at or after the start of segment i lies in a window from i on. */
  lemma {:induction false} SomeWindow(segs: seq<VerseRangeSegment>, f: real, i: int)
    requires Tiled(segs) && 0 <= i < |segs|
    requires segs[i].startTimeFraction <= f < 1.0
    ensures exists j :: i <= j < |segs| && InWindow(segs[j], f)
    decreases |segs| - i
  {
    if f < segs[i].endTimeFraction {
      assert InWindow(segs[i], f);
    } else {
      SomeWindow(segs, f, i + 1);
    }
  }

  /** Over a tiling, every fraction in [0, 1) selects the segment whose window holds it. */
  lemma UnitIntervalSelects(segs: seq<VerseRangeSegment>, f: real)
    requires Tiled(segs) && 0.0 <= f < 1.0
    ensures
      var r := RangeForTimePosition(segs, f);
      r.Some? && InWindow(segs[r.value], f)
  {
    SomeWindow(segs, f, 0);
  }
}
