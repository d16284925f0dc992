/**
 * The theme metadata and the Selector's read-only queries on it:
 * findRangeBoundsForVerse, findRangeForVerse, getThemesForVerses and
 * parseVerseRange.
 *
 * The metadata is the parsed JSON document: surah key (std::to_string of the
 * surah number) -> JSON object from range key "<start>-<end>" to a list of
 * theme names. A JSON object is a std::map, so its members are visited in
 * lexicographic key order ("10-15" before "2-5"); a SurahData lists them in
 * that order.
 */
module Metadata {
  import opened Text
  import opened Ordered

  datatype RangeEntry = RangeEntry(key: string, themes: seq<string>)

  type SurahData = seq<RangeEntry>

  type ThemeMetadata = map<string, SurahData>

  predicate HasDash(key: string)
  {
    Find(key, '-') < |key|
  }

  /** Either no '-' at all, or a numeral on both sides of the first '-' (what std::stoi reads in the model). */
  predicate WellFormedKey(key: string)
  {
    HasDash(key) ==> IsNumeral(key[..Find(key, '-')]) && IsNumeral(key[Find(key, '-') + 1..])
  }

  function StartOf(key: string): nat
    requires HasDash(key) && WellFormedKey(key)
  {
    ParseNat(key[..Find(key, '-')])
  }

  function EndOf(key: string): nat
    requires HasDash(key) && WellFormedKey(key)
  {
    ParseNat(key[Find(key, '-') + 1..])
  }

  ghost predicate KeysWellFormed(d: SurahData)
  {
    forall i :: 0 <= i < |d| ==> WellFormedKey(d[i].key)
  }

  /** Members in std::map order: strictly ascending keys. */
  ghost predicate WellFormedSurah(d: SurahData)
  {
    && KeysWellFormed(d)
    && forall i, j :: 0 <= i < j < |d| ==> LexLess(d[i].key, d[j].key)
  }

  ghost predicate WellFormed(md: ThemeMetadata)
  {
    forall k :: k in md ==> WellFormedSurah(md[k])
  }

  /** The entry's key contains a '-' and its inclusive range holds the verse. */
  predicate Covers(e: RangeEntry, verse: int)
  {
    WellFormedKey(e.key) && HasDash(e.key) && StartOf(e.key) <= verse <= EndOf(e.key)
  }

  /** Entry i is the first, in iteration order, whose range holds the verse. */
  ghost predicate FirstCovering(d: SurahData, verse: int, i: int)
  {
    && 0 <= i < |d|
    && Covers(d[i], verse)
    && forall j :: 0 <= j < i ==> !Covers(d[j], verse)
  }

  lemma FirstCoveringUnique(d: SurahData, verse: int, i: int, j: int)
    requires FirstCovering(d, verse, i) && FirstCovering(d, verse, j)
    ensures i == j
  {
  }

  lemma FirstCoveringShift(d: SurahData, verse: int, i: int)
    requires |d| > 0 && !Covers(d[0], verse) && FirstCovering(d[1..], verse, i)
    ensures FirstCovering(d, verse, i + 1)
  {
    forall j | 0 <= j < i + 1
      ensures !Covers(d[j], verse)
    {
      if j > 0 {
        assert d[j] == d[1..][j - 1];
      }
    }
  }

  /** The scan of findRangeBoundsForVerse over one surah's members. */
  function ScanBounds(d: SurahData, verse: int): (r: (int, int))
    requires KeysWellFormed(d)
    ensures r == (-1, -1) || 0 <= r.0 <= verse <= r.1
  {
    if |d| == 0 then (-1, -1)
    else if !HasDash(d[0].key) then ScanBounds(d[1..], verse)
    else
      var start, end := StartOf(d[0].key), EndOf(d[0].key);
      if verse >= start && verse <= end then (start, end) else ScanBounds(d[1..], verse)
  }

  /** The scan of findRangeForVerse over one surah's members. */
  function ScanThemes(d: SurahData, verse: int): seq<string>
    requires KeysWellFormed(d)
  {
    if |d| == 0 then []
    else if !HasDash(d[0].key) then ScanThemes(d[1..], verse)
    else
      var start, end := StartOf(d[0].key), EndOf(d[0].key);
      if verse >= start && verse <= end then d[0].themes else ScanThemes(d[1..], verse)
  }

  /** What the scan learns from passing over a first member that does not hold the verse. */
  lemma ScanShift(d: SurahData, verse: int)
    requires |d| > 0 && KeysWellFormed(d) && !Covers(d[0], verse)
    ensures KeysWellFormed(d[1..])
    ensures (forall i :: 0 <= i < |d| ==> !Covers(d[i], verse)) <==>
            (forall i :: 0 <= i < |d[1..]| ==> !Covers(d[1..][i], verse))
    ensures forall i :: FirstCovering(d[1..], verse, i) ==> FirstCovering(d, verse, i + 1)
  {
    forall i | FirstCovering(d[1..], verse, i)
      ensures FirstCovering(d, verse, i + 1)
    {
      FirstCoveringShift(d, verse, i);
    }
    forall i | 0 < i < |d|
      ensures d[i] == d[1..][i - 1]
    {
    }
  }

  /** The bounds scan stops at the first member holding the verse, and yields the sentinel when there is none. */
  lemma {:induction false} ScanBoundsFirst(d: SurahData, verse: int)
    requires KeysWellFormed(d)
    ensures ScanBounds(d, verse) == (-1, -1) <==> forall i :: 0 <= i < |d| ==> !Covers(d[i], verse)
    ensures ScanBounds(d, verse) != (-1, -1) ==>
      exists i :: FirstCovering(d, verse, i) && ScanBounds(d, verse) == (StartOf(d[i].key), EndOf(d[i].key))
  {
    if |d| > 0 {
      if Covers(d[0], verse) {
        assert FirstCovering(d, verse, 0);
      } else {
        ScanShift(d, verse);
        ScanBoundsFirst(d[1..], verse);
      }
    }
  }

  /** The themes scan stops at that same first member, and yields nothing when there is none. */
  lemma {:induction false} ScanThemesFirst(d: SurahData, verse: int)
    requires KeysWellFormed(d)
    ensures (forall i :: 0 <= i < |d| ==> !Covers(d[i], verse)) ==> ScanThemes(d, verse) == []
    ensures (exists i :: 0 <= i < |d| && Covers(d[i], verse)) ==>
      exists i :: FirstCovering(d, verse, i) && ScanThemes(d, verse) == d[i].themes
  {
    if |d| > 0 {
      if Covers(d[0], verse) {
        assert FirstCovering(d, verse, 0);
      } else {
        ScanShift(d, verse);
        ScanThemesFirst(d[1..], verse);
      }
    }
  }

  /** Some member of the surah's data holds the verse. */
  ghost predicate Matched(md: ThemeMetadata, surah: int, verse: int)
  {
    var key := IntToString(surah);
    key in md && exists i :: 0 <= i < |md[key]| && Covers(md[key][i], verse)
  }

  /**
   * findRangeBoundsForVerse: (-1, -1) when the surah is unknown or no member
   * holds the verse; otherwise the bounds of the first member that does,
   * which hold the verse.
   */
  function FindRangeBoundsForVerse(md: ThemeMetadata, surah: int, verse: int): (r: (int, int))
    requires WellFormed(md)
    ensures r == (-1, -1) || 0 <= r.0 <= verse <= r.1
  {
    var surahKey := IntToString(surah);
    if surahKey !in md then (-1, -1) else ScanBounds(md[surahKey], verse)
  }

  /** findRangeForVerse: the theme list of that same first member, or empty. */
  function FindRangeForVerse(md: ThemeMetadata, surah: int, verse: int): seq<string>
    requires WellFormed(md)
  {
    var surahKey := IntToString(surah);
    if surahKey !in md then [] else ScanThemes(md[surahKey], verse)
  }

  /** The sentinel means no match; otherwise the bounds are those of the first member holding the verse. */
  lemma FindRangeBoundsForVerseFirst(md: ThemeMetadata, surah: int, verse: int)
    requires WellFormed(md)
    ensures FindRangeBoundsForVerse(md, surah, verse) == (-1, -1) <==> !Matched(md, surah, verse)
    ensures FindRangeBoundsForVerse(md, surah, verse) != (-1, -1) ==>
      exists i :: FirstCovering(md[IntToString(surah)], verse, i) &&
        FindRangeBoundsForVerse(md, surah, verse) ==
          (StartOf(md[IntToString(surah)][i].key), EndOf(md[IntToString(surah)][i].key))
  {
    var key := IntToString(surah);
    if key in md {
      ScanBoundsFirst(md[key], verse);
    }
  }

  /** No match means no themes; otherwise the themes are those of the first member holding the verse. */
  lemma FindRangeForVerseFirst(md: ThemeMetadata, surah: int, verse: int)
    requires WellFormed(md)
    ensures !Matched(md, surah, verse) ==> FindRangeForVerse(md, surah, verse) == []
    ensures Matched(md, surah, verse) ==>
      exists i :: FirstCovering(md[IntToString(surah)], verse, i) &&
        FindRangeForVerse(md, surah, verse) == md[IntToString(surah)][i].themes
  {
    var key := IntToString(surah);
    if key in md {
      ScanThemesFirst(md[key], verse);
    }
  }

  /**
   * The two scans agree: the bounds and the themes come from one and the same
   * member, and an unmatched verse has no themes.
   */
  lemma BoundsAndThemesAgree(md: ThemeMetadata, surah: int, verse: int)
    requires WellFormed(md)
    ensures FindRangeBoundsForVerse(md, surah, verse) == (-1, -1) ==> FindRangeForVerse(md, surah, verse) == []
    ensures FindRangeBoundsForVerse(md, surah, verse) != (-1, -1) ==>
      exists i :: FirstCovering(md[IntToString(surah)], verse, i) &&
        FindRangeBoundsForVerse(md, surah, verse) ==
          (StartOf(md[IntToString(surah)][i].key), EndOf(md[IntToString(surah)][i].key)) &&
        FindRangeForVerse(md, surah, verse) == md[IntToString(surah)][i].themes
  {
    FindRangeBoundsForVerseFirst(md, surah, verse);
    FindRangeForVerseFirst(md, surah, verse);
    var b := FindRangeBoundsForVerse(md, surah, verse);
    if b != (-1, -1) {
      var d := md[IntToString(surah)];
      var i :| FirstCovering(d, verse, i) && b == (StartOf(d[i].key), EndOf(d[i].key));
      var j :| FirstCovering(d, verse, j) && FindRangeForVerse(md, surah, verse) == d[j].themes;
      FirstCoveringUnique(d, verse, i, j);
    }
  }

  /** The union of the theme lists of the verses from..to. */
  ghost function ThemesOver(md: ThemeMetadata, surah: int, fromVerse: int, toVerse: int): set<string>
    requires WellFormed(md)
    decreases toVerse - fromVerse
  {
    if fromVerse > toVerse then {}
    else ThemesOver(md, surah, fromVerse, toVerse - 1) + (set t | t in FindRangeForVerse(md, surah, toVerse))
  }

  lemma {:induction false} ThemesOverMembership(md: ThemeMetadata, surah: int, fromVerse: int, toVerse: int, t: string)
    requires WellFormed(md)
    ensures t in ThemesOver(md, surah, fromVerse, toVerse) <==>
              (exists v :: fromVerse <= v <= toVerse && t in FindRangeForVerse(md, surah, v))
    decreases toVerse - fromVerse
  {
    if fromVerse <= toVerse {
      ThemesOverMembership(md, surah, fromVerse, toVerse - 1, t);
      var last := FindRangeForVerse(md, surah, toVerse);
      assert ThemesOver(md, surah, fromVerse, toVerse) ==
             ThemesOver(md, surah, fromVerse, toVerse - 1) + (set x | x in last);
      if t in last {
        assert fromVerse <= toVerse <= toVerse && t in FindRangeForVerse(md, surah, toVerse);
      } else if v :| fromVerse <= v <= toVerse && t in FindRangeForVerse(md, surah, v) {
        assert v != toVerse;
        assert fromVerse <= v <= toVerse - 1;
      }
    }
  }

  /**
   * getThemesForVerses: the themes of every verse from..to, gathered in a
   * std::set and returned in its order: ascending, each once, and empty
   * when from > to.
   */
  method GetThemesForVerses(md: ThemeMetadata, surah: int, fromVerse: int, toVerse: int) returns (themes: seq<string>)
    requires WellFormed(md)
    ensures forall i, j :: 0 <= i < j < |themes| ==> LexLess(themes[i], themes[j])
    ensures forall t :: t in themes <==> exists v :: fromVerse <= v <= toVerse && t in FindRangeForVerse(md, surah, v)
    ensures forall t :: t in themes <==> t in ThemesOver(md, surah, fromVerse, toVerse)
    ensures fromVerse > toVerse ==> themes == []
  {
    var allThemes: seq<string> := [];
    var verse := fromVerse;
    while verse <= toVerse
      invariant fromVerse <= verse <= toVerse + 1 || verse == fromVerse
      invariant StrictlySorted(allThemes, LexLess)
      invariant forall t :: (t in allThemes <==> t in ThemesOver(md, surah, fromVerse, verse - 1))
      decreases toVerse - verse
    {
      var verseThemes := FindRangeForVerse(md, surah, verse);
      ghost var before := allThemes;
      var k := 0;
      while k < |verseThemes|
        invariant 0 <= k <= |verseThemes|
        invariant StrictlySorted(allThemes, LexLess)
        invariant forall t :: t in allThemes <==> t in before || t in verseThemes[..k]
      {
        assert verseThemes[..k + 1] == verseThemes[..k] + [verseThemes[k]];
        allThemes := InsertTheme(allThemes, verseThemes[k]);
        k := k + 1;
      }
      assert verseThemes[..k] == verseThemes;
      assert ThemesOver(md, surah, fromVerse, verse) ==
             ThemesOver(md, surah, fromVerse, verse - 1) + (set t | t in verseThemes);
      verse := verse + 1;
    }
    assert ThemesOver(md, surah, fromVerse, verse - 1) == ThemesOver(md, surah, fromVerse, toVerse);
    themes := allThemes;
    FirstIsMember(themes);
    GatheredThemes(md, surah, fromVerse, toVerse, themes);
  }

  /** std::set<std::string>::insert on the set's ascending contents. */
  function InsertTheme(themes: seq<string>, t: string): (r: seq<string>)
    requires StrictlySorted(themes, LexLess)
    ensures StrictlySorted(r, LexLess)
    ensures forall y :: y in r <==> y in themes || y == t
  {
    LexLessIsStrictTotal();
    Insert(themes, t, LexLess)
  }

  /** A sequence holding the themes over from..to holds exactly the themes of the verses from..to. */
  lemma GatheredThemes(md: ThemeMetadata, surah: int, fromVerse: int, toVerse: int, themes: seq<string>)
    requires WellFormed(md)
    requires forall t :: t in themes <==> t in ThemesOver(md, surah, fromVerse, toVerse)
    ensures forall t :: t in themes <==> exists v :: fromVerse <= v <= toVerse && t in FindRangeForVerse(md, surah, v)
  {
    forall t
      ensures t in themes <==> exists v :: fromVerse <= v <= toVerse && t in FindRangeForVerse(md, surah, v)
    {
      ThemesOverMembership(md, surah, fromVerse, toVerse, t);
    }
  }

  /** The comma-separated fields of s. */
  function Split(s: string): (fields: seq<string>)
    ensures |fields| >= 1
    ensures forall i :: 0 <= i < |fields| ==> ',' !in fields[i]
    decreases |s|
  {
    var k := Find(s, ',');
    if k == |s| then [s] else [s[..k]] + Split(s[k + 1..])
  }

  function Join(fields: seq<string>): string
    requires |fields| >= 1
  {
    if |fields| == 1 then fields[0] else fields[0] + "," + Join(fields[1..])
  }

  /** Splitting at the commas loses nothing: joining the fields back gives the text. */
  lemma {:induction false} JoinSplit(s: string)
    ensures Join(Split(s)) == s
    decreases |s|
  {
    var k := Find(s, ',');
    if k < |s| {
      var head, rest := s[..k], s[k + 1..];
      SplitCons(s, k);
      JoinSplit(rest);
      JoinCons(head, Split(rest));
    }
  }

  lemma SplitCons(s: string, k: int)
    requires k == Find(s, ',') < |s|
    ensures Split(s) == [s[..k]] + Split(s[k + 1..])
    ensures s == s[..k] + "," + s[k + 1..]
  {
    Around(s, k);
  }

  lemma Around(s: string, k: int)
    requires 0 <= k < |s|
    ensures s == s[..k] + [s[k]] + s[k + 1..]
  {
  }

  lemma JoinCons(head: string, fields: seq<string>)
    requires |fields| >= 1
    ensures Join([head] + fields) == head + "," + Join(fields)
  {
    assert ([head] + fields)[1..] == fields;
  }

  /** What successive std::getline(iss, part, ',') calls extract: the fields, less a final empty one. */
  function Parts(s: string): seq<string>
  {
    var fields := Split(s);
    if fields[|fields| - 1] == "" then fields[..|fields| - 1] else fields
  }

  /** A part of a verse list: a numeral, or "<start>-<end>" with numerals on both sides. */
  predicate WellFormedPart(part: string)
  {
    if HasDash(part) then WellFormedKey(part) else IsNumeral(part)
  }

  /** The verses a part names: start..end inclusive (nothing when start > end), or the one number. */
  ghost function PartVerses(part: string): set<int>
    requires WellFormedPart(part)
  {
    if HasDash(part) then Interval(StartOf(part), EndOf(part)) else {ParseNat(part)}
  }

  /** The integers lo..hi inclusive. */
  ghost function Interval(lo: int, hi: int): (s: set<int>)
    ensures forall v :: v in s <==> lo <= v <= hi
    decreases hi - lo
  {
    if lo > hi then {} else Interval(lo, hi - 1) + {hi}
  }

  ghost function VersesOf(parts: seq<string>): set<int>
    requires forall p :: p in parts ==> WellFormedPart(p)
  {
    if parts == [] then {} else VersesOf(parts[..|parts| - 1]) + PartVerses(parts[|parts| - 1])
  }

  lemma {:induction false} VersesOfMembership(parts: seq<string>, v: int)
    requires forall p :: p in parts ==> WellFormedPart(p)
    ensures v in VersesOf(parts) <==> exists p :: p in parts && v in PartVerses(p)
  {
    if parts != [] {
      var init, last := parts[..|parts| - 1], parts[|parts| - 1];
      assert parts == init + [last];
      VersesOfMembership(init, v);
    }
  }

  /**
   * parseVerseRange: every verse the comma-separated parts name, ascending
   * and each once.
   */
  method ParseVerseRange(rangeStr: string) returns (verses: seq<int>)
    requires forall p :: p in Parts(rangeStr) ==> WellFormedPart(p)
    ensures forall i, j :: 0 <= i < j < |verses| ==> verses[i] < verses[j]
    ensures forall v :: v in verses <==> exists p :: p in Parts(rangeStr) && v in PartVerses(p)
  {
    var parts := Parts(rangeStr);
    var collected: seq<int> := [];
    var n := 0;
    while n < |parts|
      invariant 0 <= n <= |parts|
      invariant forall v :: v in collected <==> v in VersesOf(parts[..n])
    {
      var part := parts[n];
      assert part in parts;
      VersesOfStep(parts, n);
      ghost var before := collected;
      var dashPos := Find(part, '-');
      if dashPos < |part| {
        var start := ParseNat(part[..dashPos]);
        var end := ParseNat(part[dashPos + 1..]);
        var i: int := start;
        while i <= end
          invariant start <= i <= end + 1 || i == start
          invariant forall v :: v in collected <==> v in before || start <= v < i
          decreases end - i
        {
          collected := collected + [i];
          i := i + 1;
        }
      } else {
        collected := collected + [ParseNat(part)];
      }
      PartCollected(part, before, collected);
      n := n + 1;
    }
    assert parts[..n] == parts;
    IntLessIsStrictTotal();
    verses := SortUnique(collected, IntLess);
    GatheredVerses(parts, verses);
  }

  /** What one turn of the parts loop appends: the interval of a dashed part, or the single number. */
  lemma PartCollected(part: string, before: seq<int>, collected: seq<int>)
    requires WellFormedPart(part)
    requires HasDash(part) ==> forall v :: v in collected <==> v in before || StartOf(part) <= v <= EndOf(part)
    requires !HasDash(part) ==> collected == before + [ParseNat(part)]
    ensures forall v :: v in collected <==> v in before || v in PartVerses(part)
  {
  }

  /** The verses of the first n + 1 parts: those of the first n and those of part n. */
  lemma VersesOfStep(parts: seq<string>, n: int)
    requires forall p :: p in parts ==> WellFormedPart(p)
    requires 0 <= n < |parts|
    ensures VersesOf(parts[..n + 1]) == VersesOf(parts[..n]) + PartVerses(parts[n])
  {
    assert parts[..n + 1][..n] == parts[..n];
  }

  /** A sequence holding the verses of the parts holds exactly the verses some part names. */
  lemma GatheredVerses(parts: seq<string>, verses: seq<int>)
    requires forall p :: p in parts ==> WellFormedPart(p)
    requires forall v :: v in verses <==> v in VersesOf(parts)
    ensures forall v :: v in verses <==> exists p :: p in parts && v in PartVerses(p)
  {
    forall v
      ensures v in verses <==> exists p :: p in parts && v in PartVerses(p)
    {
      VersesOfMembership(parts, v);
    }
  }
}
