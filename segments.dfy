/**
 * getVerseRangeSegments and getRangeForTimePosition: the requested verses
 * are grouped by the metadata range each falls in, every group is clamped
 * to the request, the groups are ordered by their first verse, and each is
 * given a share of the recitation's time proportional to its verse count.
 */
module Segments {
  import opened Text
  import opened Outcomes
  import opened Metadata

  /** VerseRangeSegment; the fractions are reals (IEEE rounding is not modelled). */
  datatype VerseRangeSegment = VerseRangeSegment(
    startVerse: int,
    endVerse: int,
    themes: seq<string>,
    startTimeFraction: real,
    endTimeFraction: real,
    rangeKey: string)

  function Max(a: int, b: int): int { if a >= b then a else b }

  function Min(a: int, b: int): int { if a <= b then a else b }

  /** The key a segment is tracked by: "<surah>:<start>-<end>", e.g. "19:10-15". */
  function RangeKey(surah: int, start: int, end: int): string
  {
    IntToString(surah) + ":" + IntToString(start) + "-" + IntToString(end)
  }

  /** Within one surah the key names the bounds it was built from: distinct ranges never share a key. */
  lemma RangeKeyInjective(surah: int, a: nat, b: nat, c: nat, d: nat)
    requires RangeKey(surah, a, b) == RangeKey(surah, c, d)
    ensures a == c && b == d
  {
    var p := IntToString(surah) + ":";
    var x, y := NatToString(a), NatToString(c);
    var u, w := NatToString(b), NatToString(d);
    KeyShape(surah, a, b);
    KeyShape(surah, c, d);
    DropPrefix(p, x + "-" + u, y + "-" + w);
    NumeralHasNoDash(x);
    NumeralHasNoDash(y);
    DashSplit(x, u, y, w);
    NatToStringInjective(a, c);
    NatToStringInjective(b, d);
  }

  lemma KeyShape(surah: int, a: nat, b: nat)
    ensures RangeKey(surah, a, b) == (IntToString(surah) + ":") + (NatToString(a) + "-" + NatToString(b))
  {
  }

  lemma DropPrefix(p: string, x: string, y: string)
    requires p + x == p + y
    ensures x == y
  {
    assert x == (p + x)[|p|..];
    assert y == (p + y)[|p|..];
  }

  lemma NumeralHasNoDash(s: string)
    requires IsNumeral(s)
    ensures forall j :: 0 <= j < |s| ==> s[j] != '-'
  {
  }

  /** Text split at its first '-': both sides are determined. */
  lemma DashSplit(x: string, u: string, y: string, w: string)
    requires forall j :: 0 <= j < |x| ==> x[j] != '-'
    requires forall j :: 0 <= j < |y| ==> y[j] != '-'
    requires x + "-" + u == y + "-" + w
    ensures x == y && u == w
  {
    FindAfter(x, '-', u);
    FindAfter(y, '-', w);
    var t := x + "-" + u;
    assert x == t[..|x|] && u == t[|x| + 1..];
    assert y == t[..|y|] && w == t[|y| + 1..];
  }

  /** The scan finds a range for the verse: findRangeBoundsForVerse does not answer (-1, -1). */
  predicate Found(md: ThemeMetadata, surah: int, v: int)
    requires WellFormed(md)
  {
    FindRangeBoundsForVerse(md, surah, v) != (-1, -1)
  }

  /**
   * The segment the scan records when it first meets verse v: the matched
   * range clamped to from..to, the themes of v, and the key of the unclamped
   * bounds. Its fractions are filled in later.
   */
  function SegmentOf(md: ThemeMetadata, surah: int, fromVerse: int, toVerse: int, v: int): VerseRangeSegment
    requires WellFormed(md)
  {
    var b := FindRangeBoundsForVerse(md, surah, v);
    VerseRangeSegment(Max(b.0, fromVerse), Min(b.1, toVerse), FindRangeForVerse(md, surah, v), 0.0, 0.0,
                      RangeKey(surah, b.0, b.1))
  }

  /** Same verses, themes and key; the time fractions may differ. */
  predicate SameSpan(a: VerseRangeSegment, b: VerseRangeSegment)
  {
    a.startVerse == b.startVerse && a.endVerse == b.endVerse && a.themes == b.themes && a.rangeKey == b.rangeKey
  }

  /**
   * What the scan has recorded once it has passed the verses from..upTo-1:
   * each key under the segment of the verse that first met it, and the key
   * of every matched verse.
   */
  ghost predicate Collected(md: ThemeMetadata, surah: int, fromVerse: int, toVerse: int,
                            rangeMap: map<string, VerseRangeSegment>, origin: map<string, int>, upTo: int)
    requires WellFormed(md)
  {
    && (forall k :: k in rangeMap <==> k in origin)
    && (forall k :: k in rangeMap ==>
          && fromVerse <= origin[k] < upTo
          && Found(md, surah, origin[k])
          && rangeMap[k] == SegmentOf(md, surah, fromVerse, toVerse, origin[k])
          && rangeMap[k].rangeKey == k)
    && (forall v :: fromVerse <= v < upTo && Found(md, surah, v) ==>
          SegmentOf(md, surah, fromVerse, toVerse, v).rangeKey in rangeMap)
  }

  /** A verse without a range adds nothing. */
  lemma CollectSkip(md: ThemeMetadata, surah: int, fromVerse: int, toVerse: int,
                    rangeMap: map<string, VerseRangeSegment>, origin: map<string, int>, verse: int)
    requires WellFormed(md) && Collected(md, surah, fromVerse, toVerse, rangeMap, origin, verse)
    requires fromVerse <= verse && !Found(md, surah, verse)
    ensures Collected(md, surah, fromVerse, toVerse, rangeMap, origin, verse + 1)
  {
  }

  /** A verse whose range is new records its segment. */
  lemma CollectNew(md: ThemeMetadata, surah: int, fromVerse: int, toVerse: int,
                   rangeMap: map<string, VerseRangeSegment>, origin: map<string, int>, verse: int)
    requires WellFormed(md) && Collected(md, surah, fromVerse, toVerse, rangeMap, origin, verse)
    requires fromVerse <= verse && Found(md, surah, verse)
    requires SegmentOf(md, surah, fromVerse, toVerse, verse).rangeKey !in rangeMap
    ensures
      var k := SegmentOf(md, surah, fromVerse, toVerse, verse).rangeKey;
      Collected(md, surah, fromVerse, toVerse,
                rangeMap[k := SegmentOf(md, surah, fromVerse, toVerse, verse)], origin[k := verse], verse + 1)
  {
    var seg := SegmentOf(md, surah, fromVerse, toVerse, verse);
    var k := seg.rangeKey;
    NewEntries(md, surah, fromVerse, toVerse, rangeMap, origin, verse, seg);
    NewCovers(md, surah, fromVerse, toVerse, rangeMap, verse, seg);
  }

  lemma NewEntries(md: ThemeMetadata, surah: int, fromVerse: int, toVerse: int,
                   rangeMap: map<string, VerseRangeSegment>, origin: map<string, int>, verse: int,
                   seg: VerseRangeSegment)
    requires WellFormed(md) && fromVerse <= verse && Found(md, surah, verse)
    requires seg == SegmentOf(md, surah, fromVerse, toVerse, verse)
    requires forall k :: k in rangeMap <==> k in origin
    requires forall k :: k in rangeMap ==>
      && fromVerse <= origin[k] < verse
      && Found(md, surah, origin[k])
      && rangeMap[k] == SegmentOf(md, surah, fromVerse, toVerse, origin[k])
      && rangeMap[k].rangeKey == k
    ensures
      var m, o := rangeMap[seg.rangeKey := seg], origin[seg.rangeKey := verse];
      && (forall j :: j in m <==> j in o)
      && forall j :: j in m ==>
        && fromVerse <= o[j] < verse + 1
        && Found(md, surah, o[j])
        && m[j] == SegmentOf(md, surah, fromVerse, toVerse, o[j])
        && m[j].rangeKey == j
  {
    var k := seg.rangeKey;
    var m, o := rangeMap[k := seg], origin[k := verse];
    forall j | j in m
      ensures fromVerse <= o[j] < verse + 1 && Found(md, surah, o[j])
      ensures m[j] == SegmentOf(md, surah, fromVerse, toVerse, o[j]) && m[j].rangeKey == j
    {
      if j != k {
        assert j in rangeMap && m[j] == rangeMap[j] && o[j] == origin[j];
      }
    }
  }

  lemma NewCovers(md: ThemeMetadata, surah: int, fromVerse: int, toVerse: int,
                  rangeMap: map<string, VerseRangeSegment>, verse: int, seg: VerseRangeSegment)
    requires WellFormed(md)
    requires seg == SegmentOf(md, surah, fromVerse, toVerse, verse)
    requires forall v :: fromVerse <= v < verse && Found(md, surah, v) ==>
      SegmentOf(md, surah, fromVerse, toVerse, v).rangeKey in rangeMap
    ensures forall v :: fromVerse <= v < verse + 1 && Found(md, surah, v) ==>
      SegmentOf(md, surah, fromVerse, toVerse, v).rangeKey in rangeMap[seg.rangeKey := seg]
  {
    forall v | fromVerse <= v < verse + 1 && Found(md, surah, v)
      ensures SegmentOf(md, surah, fromVerse, toVerse, v).rangeKey in rangeMap[seg.rangeKey := seg]
    {
      if v < verse {
        assert SegmentOf(md, surah, fromVerse, toVerse, v).rangeKey in rangeMap;
      }
    }
  }

  /** A verse whose range is already recorded adds nothing new. */
  lemma CollectKnown(md: ThemeMetadata, surah: int, fromVerse: int, toVerse: int,
                     rangeMap: map<string, VerseRangeSegment>, origin: map<string, int>, verse: int)
    requires WellFormed(md) && Collected(md, surah, fromVerse, toVerse, rangeMap, origin, verse)
    requires fromVerse <= verse && Found(md, surah, verse)
    requires SegmentOf(md, surah, fromVerse, toVerse, verse).rangeKey in rangeMap
    ensures Collected(md, surah, fromVerse, toVerse, rangeMap, origin, verse + 1)
  {
  }

  /** Two found verses whose segments share a key were matched to the same bounds. */
  lemma SameKeySameBounds(md: ThemeMetadata, surah: int, fromVerse: int, toVerse: int, o: int, v: int)
    requires WellFormed(md) && Found(md, surah, o) && Found(md, surah, v)
    requires SegmentOf(md, surah, fromVerse, toVerse, o).rangeKey == SegmentOf(md, surah, fromVerse, toVerse, v).rangeKey
    ensures FindRangeBoundsForVerse(md, surah, o) == FindRangeBoundsForVerse(md, surah, v)
  {
    var ob := FindRangeBoundsForVerse(md, surah, o);
    var b := FindRangeBoundsForVerse(md, surah, v);
    RangeKeyInjective(surah, ob.0, ob.1, b.0, b.1);
  }

  /** A verse whose range is already recorded has the same bounds, so the recorded end already covers it. */
  lemma CollectAgain(md: ThemeMetadata, surah: int, fromVerse: int, toVerse: int,
                     rangeMap: map<string, VerseRangeSegment>, origin: map<string, int>, verse: int)
    requires WellFormed(md) && Collected(md, surah, fromVerse, toVerse, rangeMap, origin, verse)
    requires fromVerse <= verse && Found(md, surah, verse)
    requires SegmentOf(md, surah, fromVerse, toVerse, verse).rangeKey in rangeMap
    ensures
      var k := SegmentOf(md, surah, fromVerse, toVerse, verse).rangeKey;
      && rangeMap[k].endVerse == Max(rangeMap[k].endVerse, Min(FindRangeBoundsForVerse(md, surah, verse).1, toVerse))
      && Collected(md, surah, fromVerse, toVerse, rangeMap, origin, verse + 1)
  {
    CollectKnown(md, surah, fromVerse, toVerse, rangeMap, origin, verse);
    var k := SegmentOf(md, surah, fromVerse, toVerse, verse).rangeKey;
    var o := origin[k];
    assert rangeMap[k] == SegmentOf(md, surah, fromVerse, toVerse, o);
    SameKeySameBounds(md, surah, fromVerse, toVerse, o, verse);
  }

  /**
   * Lines 126-147: one pass over the verses, recording each newly met range
   * under its key. A key met again stands for the same bounds, so its
   * recorded end does not move.
   */
  method CollectRanges(md: ThemeMetadata, surah: int, fromVerse: int, toVerse: int)
      returns (rangeMap: map<string, VerseRangeSegment>, ghost origin: map<string, int>)
    requires WellFormed(md)
    ensures Collected(md, surah, fromVerse, toVerse, rangeMap, origin, toVerse + 1)
  {
    rangeMap, origin := map[], map[];
    var verse := fromVerse;
    while verse <= toVerse
      invariant fromVerse <= verse <= toVerse + 1 || verse == fromVerse
      invariant Collected(md, surah, fromVerse, toVerse, rangeMap, origin, verse)
      decreases toVerse - verse
    {
      var bounds := FindRangeBoundsForVerse(md, surah, verse);
      if bounds.0 < 0 {
        CollectSkip(md, surah, fromVerse, toVerse, rangeMap, origin, verse);
        verse := verse + 1;
        continue;
      }
      var rangeKey := RangeKey(surah, bounds.0, bounds.1);
      if rangeKey !in rangeMap {
        var segment := VerseRangeSegment(Max(bounds.0, fromVerse), Min(bounds.1, toVerse),
                                         FindRangeForVerse(md, surah, verse), 0.0, 0.0, rangeKey);
        CollectNew(md, surah, fromVerse, toVerse, rangeMap, origin, verse);
        rangeMap := rangeMap[rangeKey := segment];
        origin := origin[rangeKey := verse];
      } else {
        CollectAgain(md, surah, fromVerse, toVerse, rangeMap, origin, verse);
        rangeMap := rangeMap[rangeKey := rangeMap[rangeKey].(endVerse :=
                                           Max(rangeMap[rangeKey].endVerse, Min(bounds.1, toVerse)))];
      }
      verse := verse + 1;
    }
  }

  predicate SortedByStart(segs: seq<VerseRangeSegment>)
  {
    forall i, j :: 0 <= i < j < |segs| ==> segs[i].startVerse <= segs[j].startVerse
  }

  predicate DistinctKeys(segs: seq<VerseRangeSegment>)
  {
    forall i, j :: 0 <= i < j < |segs| ==> segs[i].rangeKey != segs[j].rangeKey
  }

  /** segs lists the values of m, each once, sorted by start verse. */
  ghost predicate Arranged(m: map<string, VerseRangeSegment>, segs: seq<VerseRangeSegment>)
  {
    && SortedByStart(segs) && DistinctKeys(segs)
    && |segs| == |m|
    && (forall s :: s in segs ==> s.rangeKey in m && m[s.rangeKey] == s)
    && (forall k :: k in m ==> m[k] in segs)
  }

  /** One step of an insertion sort by start verse. */
  function InsertByStart(xs: seq<VerseRangeSegment>, x: VerseRangeSegment): (r: seq<VerseRangeSegment>)
    requires SortedByStart(xs) && DistinctKeys(xs)
    requires forall s :: s in xs ==> s.rangeKey != x.rangeKey
    ensures SortedByStart(r) && DistinctKeys(r)
    ensures |r| == |xs| + 1
    ensures forall s :: s in r <==> s in xs || s == x
  {
    if xs == [] || x.startVerse < xs[0].startVerse then [x] + xs
    else
      var rest := InsertByStart(xs[1..], x);
      assert forall s :: s in rest ==> xs[0].startVerse <= s.startVerse && xs[0].rangeKey != s.rangeKey by {
        forall s | s in rest
          ensures xs[0].startVerse <= s.startVerse && xs[0].rangeKey != s.rangeKey
        {
          if s in xs[1..] {
            var i :| 0 <= i < |xs[1..]| && xs[1..][i] == s;
            assert xs[i + 1] == s;
          }
        }
      }
      [xs[0]] + rest
  }

  /**
   * Lines 150-157: the recorded segments in an order sorted by start verse.
   * std::sort is not stable, so segments that start at the same verse may
   * come in any order; the model picks the keys in an unspecified order too.
   */
  method SortByStart(m: map<string, VerseRangeSegment>) returns (segs: seq<VerseRangeSegment>)
    requires forall k :: k in m ==> m[k].rangeKey == k
    ensures Arranged(m, segs)
  {
    segs := [];
    var keys := m.Keys;
    while keys != {}
      invariant keys <= m.Keys
      invariant SortedByStart(segs) && DistinctKeys(segs)
      invariant |segs| + |keys| == |m|
      invariant forall s :: s in segs ==> s.rangeKey in m && m[s.rangeKey] == s && s.rangeKey !in keys
      invariant forall k :: k in m ==> k in keys || m[k] in segs
      decreases |keys|
    {
      var k :| k in keys;
      segs := InsertByStart(segs, m[k]);
      keys := keys - {k};
    }
  }

  /** The verses a segment spans. */
  function Count(s: VerseRangeSegment): int
  {
    s.endVerse - s.startVerse + 1
  }

  /** The verses spanned by the segments before index i. */
  function VersesBefore(segs: seq<VerseRangeSegment>, i: int): int
    requires 0 <= i <= |segs|
  {
    if i == 0 then 0 else VersesBefore(segs, i - 1) + Count(segs[i - 1])
  }

  /** The verse counts ignore everything but the verse bounds. */
  lemma {:induction false} VersesBeforeSameSpans(s: seq<VerseRangeSegment>, r: seq<VerseRangeSegment>, i: int)
    requires |s| == |r| && 0 <= i <= |s|
    requires forall j :: 0 <= j < |s| ==> s[j].startVerse == r[j].startVerse && s[j].endVerse == r[j].endVerse
    ensures VersesBefore(s, i) == VersesBefore(r, i)
  {
    if i > 0 {
      VersesBeforeSameSpans(s, r, i - 1);
    }
  }

  /** The share of the requested verses from..to that n verses make up. */
  function Share(n: int, fromVerse: int, toVerse: int): real
    requires fromVerse <= toVerse
  {
    n as real / (toVerse - fromVerse + 1) as real
  }

  lemma ShareAdd(m: int, n: int, fromVerse: int, toVerse: int)
    requires fromVerse <= toVerse
    ensures Share(m, fromVerse, toVerse) + Share(n, fromVerse, toVerse) == Share(m + n, fromVerse, toVerse)
  {
  }

  /**
   * r is s with the time fractions of lines 160-175 filled in: segment i
   * starts at the share of the verses before it and ends at the share of
   * the verses up to it, except the last, which ends at 1.0.
   */
  ghost predicate FractionsAssigned(s: seq<VerseRangeSegment>, r: seq<VerseRangeSegment>, fromVerse: int, toVerse: int)
  {
    && |r| == |s|
    && (r != [] ==> fromVerse <= toVerse)
    && (forall i :: 0 <= i < |r| ==> SameSpan(r[i], s[i]))
    && (forall i :: 0 <= i < |r| ==> r[i].startTimeFraction == Share(VersesBefore(s, i), fromVerse, toVerse))
    && (forall i :: 0 <= i < |r| - 1 ==> r[i].endTimeFraction == Share(VersesBefore(s, i + 1), fromVerse, toVerse))
    && (r != [] ==> r[|r| - 1].endTimeFraction == 1.0)
  }

  /** The fraction loop's progress: r is s with segments 0..i-1 given their fractions. */
  ghost predicate FractionsUpTo(s: seq<VerseRangeSegment>, r: seq<VerseRangeSegment>, fromVerse: int, toVerse: int, i: int)
  {
    && 0 <= i <= |r| == |s|
    && (r != [] ==> fromVerse <= toVerse)
    && (forall j :: 0 <= j < |r| ==> SameSpan(r[j], s[j]))
    && (forall j :: 0 <= j < i ==> r[j].startTimeFraction == Share(VersesBefore(s, j), fromVerse, toVerse))
    && (forall j :: 0 <= j < i ==> r[j].endTimeFraction == Share(VersesBefore(s, j + 1), fromVerse, toVerse))
  }

  /** One turn of the fraction loop: segment i starts at the running fraction and ends one share later. */
  lemma FractionStep(s: seq<VerseRangeSegment>, r: seq<VerseRangeSegment>, fromVerse: int, toVerse: int, i: int)
    requires FractionsUpTo(s, r, fromVerse, toVerse, i) && i < |r|
    ensures
      var start := Share(VersesBefore(s, i), fromVerse, toVerse);
      var width := Share(r[i].endVerse - r[i].startVerse + 1, fromVerse, toVerse);
      && start + width == Share(VersesBefore(s, i + 1), fromVerse, toVerse)
      && FractionsUpTo(s, r[i := r[i].(startTimeFraction := start, endTimeFraction := start + width)],
                       fromVerse, toVerse, i + 1)
  {
    assert SameSpan(r[i], s[i]);
    ShareAdd(VersesBefore(s, i), Count(s[i]), fromVerse, toVerse);
  }

  /** The override after the loop: the last segment ends at 1.0. */
  lemma FractionsFinish(s: seq<VerseRangeSegment>, r: seq<VerseRangeSegment>, fromVerse: int, toVerse: int)
    requires FractionsUpTo(s, r, fromVerse, toVerse, |r|)
    ensures r != [] ==> FractionsAssigned(s, r[|r| - 1 := r[|r| - 1].(endTimeFraction := 1.0)], fromVerse, toVerse)
    ensures r == [] ==> FractionsAssigned(s, r, fromVerse, toVerse)
  {
    if r != [] {
      var n := |r| - 1;
      var t := r[n := r[n].(endTimeFraction := 1.0)];
      forall j | 0 <= j < |t|
        ensures SameSpan(t[j], s[j])
        ensures t[j].startTimeFraction == Share(VersesBefore(s, j), fromVerse, toVerse)
      {
        assert SameSpan(r[j], s[j]);
      }
      forall j | 0 <= j < n
        ensures t[j].endTimeFraction == Share(VersesBefore(s, j + 1), fromVerse, toVerse)
      {
        assert t[j] == r[j];
      }
    }
  }

  /** Lines 160-175: the fraction loop over the sorted segments, updating each in turn, then the 1.0 override. */
  method AssignTimeFractions(segs: seq<VerseRangeSegment>, fromVerse: int, toVerse: int)
      returns (r: seq<VerseRangeSegment>)
    requires segs != [] ==> fromVerse <= toVerse
    ensures FractionsAssigned(segs, r, fromVerse, toVerse)
  {
    r := segs;
    var totalVerses := toVerse - fromVerse + 1;
    var currentFraction := 0.0;
    var i := 0;
    while i < |r|
      invariant FractionsUpTo(segs, r, fromVerse, toVerse, i)
      invariant segs != [] ==> currentFraction == Share(VersesBefore(segs, i), fromVerse, toVerse)
    {
      var verseCount := r[i].endVerse - r[i].startVerse + 1;
      var fraction := verseCount as real / totalVerses as real;
      FractionStep(segs, r, fromVerse, toVerse, i);
      r := r[i := r[i].(startTimeFraction := currentFraction, endTimeFraction := currentFraction + fraction)];
      currentFraction := currentFraction + fraction;
      i := i + 1;
    }
    FractionsFinish(segs, r, fromVerse, toVerse);
    if |r| > 0 {
      r := r[|r| - 1 := r[|r| - 1].(endTimeFraction := 1.0)];
    }
  }

  /** Segment s is the one the scan records for verse v of the request, up to its time fractions. */
  ghost predicate RecordedFor(md: ThemeMetadata, surah: int, fromVerse: int, toVerse: int, s: VerseRangeSegment, v: int)
    requires WellFormed(md)
  {
    fromVerse <= v <= toVerse && Found(md, surah, v) && SameSpan(s, SegmentOf(md, surah, fromVerse, toVerse, v))
  }

  /** The keys of the segments, in order. */
  function KeysOf(segs: seq<VerseRangeSegment>): (keys: seq<string>)
    ensures |keys| == |segs| && forall i :: 0 <= i < |segs| ==> keys[i] == segs[i].rangeKey
  {
    seq(|segs|, i requires 0 <= i < |segs| => segs[i].rangeKey)
  }

  /**
   * The verse spans getVerseRangeSegments promises: segment i lies in
   * from..to and is the clamped range of the found verse origins[i], every
   * found verse's range has a segment, there are none exactly when no verse
   * is found, and they are sorted by first verse under distinct keys.
   */
  ghost predicate SpansFor(md: ThemeMetadata, surah: int, fromVerse: int, toVerse: int,
                           segs: seq<VerseRangeSegment>, origins: seq<int>)
    requires WellFormed(md)
  {
    && |origins| == |segs|
    && (forall i :: 0 <= i < |segs| ==> fromVerse <= segs[i].startVerse <= segs[i].endVerse <= toVerse)
    && (forall i :: 0 <= i < |segs| ==> RecordedFor(md, surah, fromVerse, toVerse, segs[i], origins[i]))
    && (forall v :: fromVerse <= v <= toVerse && Found(md, surah, v) ==>
          SegmentOf(md, surah, fromVerse, toVerse, v).rangeKey in KeysOf(segs))
    && (segs == [] <==> forall v :: fromVerse <= v <= toVerse ==> !Found(md, surah, v))
    && SortedByStart(segs) && DistinctKeys(segs)
  }

  /**
   * The time fractions getVerseRangeSegments promises: each segment starts
   * at the share of the verses before it, so the first starts at 0 and each
   * ends where the next starts, each non-last one is as wide as its share of
   * the verses, and the last ends at 1.
   */
  predicate Timed(segs: seq<VerseRangeSegment>, fromVerse: int, toVerse: int)
  {
    segs != [] ==>
      && fromVerse <= toVerse
      && (forall i :: 0 <= i < |segs| ==> segs[i].startTimeFraction == Share(VersesBefore(segs, i), fromVerse, toVerse))
      && segs[0].startTimeFraction == 0.0
      && segs[|segs| - 1].endTimeFraction == 1.0
      && (forall i :: 0 <= i < |segs| - 1 ==> segs[i].endTimeFraction == segs[i + 1].startTimeFraction)
      && (forall i :: 0 <= i < |segs| - 1 ==>
            segs[i].endTimeFraction - segs[i].startTimeFraction == Share(Count(segs[i]), fromVerse, toVerse))
  }

  /** The segments a pass recorded, once sorted, have the promised spans, each from the verse that first met it. */
  lemma CollectedSpans(md: ThemeMetadata, surah: int, fromVerse: int, toVerse: int,
                       rangeMap: map<string, VerseRangeSegment>, origin: map<string, int>,
                       sorted: seq<VerseRangeSegment>)
      returns (origins: seq<int>)
    requires WellFormed(md)
    requires Collected(md, surah, fromVerse, toVerse, rangeMap, origin, toVerse + 1) && Arranged(rangeMap, sorted)
    ensures SpansFor(md, surah, fromVerse, toVerse, sorted, origins)
  {
    origins := seq(|sorted|, i requires 0 <= i < |sorted| =>
      if sorted[i].rangeKey in origin then origin[sorted[i].rangeKey] else 0);
    forall i | 0 <= i < |sorted|
      ensures fromVerse <= sorted[i].startVerse <= sorted[i].endVerse <= toVerse
      ensures RecordedFor(md, surah, fromVerse, toVerse, sorted[i], origins[i])
    {
      assert sorted[i] in sorted;
      var v := origins[i];
      assert sorted[i] == SegmentOf(md, surah, fromVerse, toVerse, v);
    }
    var keys := KeysOf(sorted);
    forall v | fromVerse <= v <= toVerse && Found(md, surah, v)
      ensures SegmentOf(md, surah, fromVerse, toVerse, v).rangeKey in keys
    {
      var k := SegmentOf(md, surah, fromVerse, toVerse, v).rangeKey;
      assert rangeMap[k] in sorted;
      var i :| 0 <= i < |sorted| && sorted[i] == rangeMap[k];
      assert keys[i] == k;
    }
    if sorted != [] {
      assert sorted[0] in sorted;
      assert Found(md, surah, origins[0]);
    }
  }

  /** The spans depend on the verses, themes and keys alone, not on the fractions. */
  lemma SpansForSameSpans(md: ThemeMetadata, surah: int, fromVerse: int, toVerse: int,
                          s: seq<VerseRangeSegment>, r: seq<VerseRangeSegment>, origins: seq<int>)
    requires WellFormed(md) && SpansFor(md, surah, fromVerse, toVerse, s, origins)
    requires |s| == |r| && forall i :: 0 <= i < |s| ==> SameSpan(s[i], r[i])
    ensures SpansFor(md, surah, fromVerse, toVerse, r, origins)
  {
    SameSpansRecorded(md, surah, fromVerse, toVerse, s, r, origins);
    SameSpansOrdered(s, r);
  }

  lemma SameSpansRecorded(md: ThemeMetadata, surah: int, fromVerse: int, toVerse: int,
                          s: seq<VerseRangeSegment>, r: seq<VerseRangeSegment>, origins: seq<int>)
    requires WellFormed(md) && |s| == |r| == |origins| && forall i :: 0 <= i < |s| ==> SameSpan(s[i], r[i])
    requires forall i :: 0 <= i < |s| ==> fromVerse <= s[i].startVerse <= s[i].endVerse <= toVerse
    requires forall i :: 0 <= i < |s| ==> RecordedFor(md, surah, fromVerse, toVerse, s[i], origins[i])
    ensures forall i :: 0 <= i < |r| ==> fromVerse <= r[i].startVerse <= r[i].endVerse <= toVerse
    ensures forall i :: 0 <= i < |r| ==> RecordedFor(md, surah, fromVerse, toVerse, r[i], origins[i])
  {
    forall i | 0 <= i < |r|
      ensures fromVerse <= r[i].startVerse <= r[i].endVerse <= toVerse
      ensures RecordedFor(md, surah, fromVerse, toVerse, r[i], origins[i])
    {
      assert SameSpan(s[i], r[i]);
      assert RecordedFor(md, surah, fromVerse, toVerse, s[i], origins[i]);
    }
  }

  lemma SameSpansOrdered(s: seq<VerseRangeSegment>, r: seq<VerseRangeSegment>)
    requires |s| == |r| && forall i :: 0 <= i < |s| ==> SameSpan(s[i], r[i])
    requires SortedByStart(s) && DistinctKeys(s)
    ensures SortedByStart(r) && DistinctKeys(r) && KeysOf(r) == KeysOf(s)
  {
    assert KeysOf(r) == KeysOf(s);
    forall i, j | 0 <= i < j < |r|
      ensures r[i].startVerse <= r[j].startVerse && r[i].rangeKey != r[j].rangeKey
    {
      assert SameSpan(s[i], r[i]) && SameSpan(s[j], r[j]);
    }
  }

  /** The fractions AssignTimeFractions writes have the promised shape. */
  lemma AssignedIsTimed(s: seq<VerseRangeSegment>, r: seq<VerseRangeSegment>, fromVerse: int, toVerse: int)
    requires FractionsAssigned(s, r, fromVerse, toVerse)
    ensures Timed(r, fromVerse, toVerse)
  {
    if r != [] {
      forall i | 0 <= i <= |r|
        ensures VersesBefore(r, i) == VersesBefore(s, i)
      {
        VersesBeforeSameSpans(r, s, i);
      }
      forall i | 0 <= i < |r| - 1
        ensures r[i].endTimeFraction - r[i].startTimeFraction == Share(Count(r[i]), fromVerse, toVerse)
      {
        ShareAdd(VersesBefore(r, i), Count(r[i]), fromVerse, toVerse);
      }
    }
  }

  /**
   * getVerseRangeSegments: one segment per metadata range that some
   * requested verse falls in, clamped to from..to, ordered by first verse,
   * and timed in proportion to verse counts (a tiling of [0, 1] when the
   * ranges do not overlap, as module Tiling proves). The ghost
   * origins name, for each segment, the verse whose lookup produced it.
   */
  method GetVerseRangeSegments(md: ThemeMetadata, surah: int, fromVerse: int, toVerse: int)
      returns (segs: seq<VerseRangeSegment>, ghost origins: seq<int>)
    requires WellFormed(md)
    ensures SpansFor(md, surah, fromVerse, toVerse, segs, origins)
    ensures Timed(segs, fromVerse, toVerse)
  {
    var rangeMap, origin := CollectRanges(md, surah, fromVerse, toVerse);
    var sorted := SortByStart(rangeMap);
    origins := CollectedSpans(md, surah, fromVerse, toVerse, rangeMap, origin, sorted);
    segs := AssignTimeFractions(sorted, fromVerse, toVerse);
    SpansForSameSpans(md, surah, fromVerse, toVerse, sorted, segs, origins);
    AssignedIsTimed(sorted, segs, fromVerse, toVerse);
  }

  /** Whether the time fraction falls in the segment's half-open window. */
  predicate InWindow(s: VerseRangeSegment, f: real)
  {
    s.startTimeFraction <= f < s.endTimeFraction
  }

  /** The first segment whose window holds f, by index. */
  function FirstWindow(segs: seq<VerseRangeSegment>, f: real): (r: Option<nat>)
    ensures r.Some? ==> r.value < |segs| && InWindow(segs[r.value], f)
    ensures r.Some? ==> forall j :: 0 <= j < r.value ==> !InWindow(segs[j], f)
    ensures r.None? ==> forall j :: 0 <= j < |segs| ==> !InWindow(segs[j], f)
  {
    if segs == [] then None
    else if InWindow(segs[0], f) then Some(0)
    else
      var rest := FirstWindow(segs[1..], f);
      assert forall j :: 1 <= j < |segs| ==> segs[j] == segs[1..][j - 1];
      if rest.None? then None else Some(rest.value + 1)
  }

  /**
   * getRangeForTimePosition, returning the segment's index instead of a
   * pointer: the first segment whose window holds f; failing that the last
   * segment when f is at or past its start; otherwise none.
   */
  function RangeForTimePosition(segs: seq<VerseRangeSegment>, f: real): (r: Option<nat>)
    ensures r.Some? ==> r.value < |segs|
    ensures (exists i :: 0 <= i < |segs| && InWindow(segs[i], f)) ==>
      r.Some? && InWindow(segs[r.value], f) && forall j :: 0 <= j < r.value ==> !InWindow(segs[j], f)
    ensures (forall i :: 0 <= i < |segs| ==> !InWindow(segs[i], f)) ==>
      r == if segs != [] && f >= segs[|segs| - 1].startTimeFraction then Some(|segs| - 1) else None
    ensures segs == [] ==> r == None
  {
    var w := FirstWindow(segs, f);
    if w.Some? then w
    else if segs != [] && f >= segs[|segs| - 1].startTimeFraction then Some(|segs| - 1)
    else None
  }

  /**
   * Segments that tile [0, 1]: the first starts at 0, each window is
   * non-empty, each ends where the next starts, and the last ends at 1.
   */
  predicate Tiled(segs: seq<VerseRangeSegment>)
  {
    && segs != []
    && segs[0].startTimeFraction == 0.0
    && segs[|segs| - 1].endTimeFraction == 1.0
    && (forall i :: 0 <= i < |segs| ==> segs[i].startTimeFraction < segs[i].endTimeFraction)
    && (forall i :: 0 <= i < |segs| - 1 ==> segs[i].endTimeFraction == segs[i + 1].startTimeFraction)
  }

  /** In a tiling an earlier window closes no later than a later one opens. */
  lemma {:induction false} TiledOrdered(segs: seq<VerseRangeSegment>, i: int, j: int)
    requires Tiled(segs) && 0 <= i < j < |segs|
    ensures segs[i].endTimeFraction <= segs[j].startTimeFraction
    decreases j - i
  {
    if i + 1 < j {
      TiledOrdered(segs, i + 1, j);
    }
  }

  /** Over a tiling, a fraction inside a segment's window selects that segment. */
  lemma WindowSelects(segs: seq<VerseRangeSegment>, f: real, i: int)
    requires Tiled(segs) && 0 <= i < |segs| && InWindow(segs[i], f)
    ensures RangeForTimePosition(segs, f) == Some(i)
  {
    var r := RangeForTimePosition(segs, f);
    if r.value < i {
      TiledOrdered(segs, r.value, i);
    }
  }

  /** Over a tiling, the fraction 0 selects the first segment and 1 the last. */
  lemma EndpointsSelect(segs: seq<VerseRangeSegment>)
    requires Tiled(segs)
    ensures RangeForTimePosition(segs, 0.0) == Some(0)
    ensures RangeForTimePosition(segs, 1.0) == Some(|segs| - 1)
  {
    WindowSelects(segs, 0.0, 0);
    forall i | 0 <= i < |segs| - 1
      ensures segs[i].endTimeFraction <= 1.0
    {
      TiledOrdered(segs, i, |segs| - 1);
    }
  }
}
