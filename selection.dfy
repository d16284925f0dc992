/**
 * The no-repeat-until-exhausted selectors. Each filters its candidates
 * against a set kept per key in the SelectionState, clears that set when
 * nothing is left, and picks with the seeded chooser.
 */
module Selection {
  import opened Outcomes
  import opened Chooser
  import opened Metadata
  import opened Segments

  /** The seed a Selector uses when none is given. */
  const DefaultSeed: nat := 99

  /** The set std::map::operator[] yields: the stored one, or a new empty one. */
  function Get(m: map<string, set<string>>, k: string): set<string>
  {
    if k in m then m[k] else {}
  }

  /** operator[] on its own: the key gets an (empty) entry if it had none; no set changes. */
  function Touch(m: map<string, set<string>>, k: string): (r: map<string, set<string>>)
    ensures r.Keys == m.Keys + {k}
    ensures forall j :: Get(r, j) == Get(m, j)
  {
    m[k := Get(m, k)]
  }

  /** The candidates not in s, in their order. */
  function NotIn(xs: seq<string>, s: set<string>): (r: seq<string>)
    ensures forall x :: x in r <==> x in xs && x !in s
  {
    if xs == [] then []
    else
      var init, last := xs[..|xs| - 1], xs[|xs| - 1];
      assert forall x :: x in xs <==> x in init || x == last by {
        assert xs == init + [last];
      }
      NotIn(init, s) + (if last in s then [] else [last])
  }

  /** The theme has a cached listing and it is not empty. */
  predicate HasVideos(cache: map<string, seq<string>>, theme: string)
  {
    theme in cache && cache[theme] != []
  }

  /** The themes with videos, in their order. */
  function WithVideos(themes: seq<string>, cache: map<string, seq<string>>): (r: seq<string>)
    ensures forall t :: t in r <==> t in themes && HasVideos(cache, t)
  {
    if themes == [] then []
    else
      var init, last := themes[..|themes| - 1], themes[|themes| - 1];
      assert forall t :: t in themes <==> t in init || t == last by {
        assert themes == init + [last];
      }
      WithVideos(init, cache) + (if HasVideos(cache, last) then [last] else [])
  }

  /** The themes with videos that are not exhausted, in their order. */
  function Available(themes: seq<string>, cache: map<string, seq<string>>, exhausted: set<string>): (r: seq<string>)
    ensures forall t :: t in r <==> t in themes && HasVideos(cache, t) && t !in exhausted
  {
    if themes == [] then []
    else
      var init, last := themes[..|themes| - 1], themes[|themes| - 1];
      assert forall t :: t in themes <==> t in init || t == last by {
        assert themes == init + [last];
      }
      Available(init, cache, exhausted) + (if HasVideos(cache, last) && last !in exhausted then [last] else [])
  }

  /** One more candidate considered: the filters grow by it or not at all. */
  lemma NotInStep(xs: seq<string>, i: int, s: set<string>)
    requires 0 <= i < |xs|
    ensures NotIn(xs[..i + 1], s) == NotIn(xs[..i], s) + (if xs[i] in s then [] else [xs[i]])
  {
    assert xs[..i + 1][..i] == xs[..i];
  }

  lemma WithVideosStep(themes: seq<string>, i: int, cache: map<string, seq<string>>)
    requires 0 <= i < |themes|
    ensures WithVideos(themes[..i + 1], cache) ==
            WithVideos(themes[..i], cache) + (if HasVideos(cache, themes[i]) then [themes[i]] else [])
  {
    assert themes[..i + 1][..i] == themes[..i];
  }

  lemma AvailableStep(themes: seq<string>, i: int, cache: map<string, seq<string>>, exhausted: set<string>)
    requires 0 <= i < |themes|
    ensures Available(themes[..i + 1], cache, exhausted) ==
            Available(themes[..i], cache, exhausted) +
            (if HasVideos(cache, themes[i]) && themes[i] !in exhausted then [themes[i]] else [])
  {
    assert themes[..i + 1][..i] == themes[..i];
  }

  /** What selectTheme chooses from: the themes not exhausted, or all of them once none is left. */
  function ThemePool(themes: seq<string>, exhausted: set<string>): seq<string>
  {
    var available := NotIn(themes, exhausted);
    if available != [] then available else themes
  }

  /** What selectThemeForRange chooses from: the available themes, or every theme with videos once none is left. */
  function RangeThemePool(themes: seq<string>, cache: map<string, seq<string>>, exhausted: set<string>): seq<string>
  {
    var available := Available(themes, cache, exhausted);
    if available != [] then available else WithVideos(themes, cache)
  }

  /** What selectVideoFromTheme chooses from: the unused videos, or all of them once every one is used. */
  function VideoPool(videos: seq<string>, used: set<string>): seq<string>
  {
    var unused := NotIn(videos, used);
    if unused != [] then unused else videos
  }

  /** The theme's used set after video v is chosen: v is added, to an emptied set if every video had been used. */
  function NextUsed(videos: seq<string>, used: set<string>, v: string): set<string>
  {
    (if NotIn(videos, used) == [] then {} else used) + {v}
  }

  /**
   * Whatever selectTheme picks is one of the themes, and one not exhausted
   * whenever such a theme remains; only when none remains is every theme a
   * candidate again.
   */
  lemma ThemePoolChoice(themes: seq<string>, exhausted: set<string>)
    ensures themes != [] ==> ThemePool(themes, exhausted) != []
    ensures forall t :: t in ThemePool(themes, exhausted) ==> t in themes
    ensures (exists t :: t in themes && t !in exhausted) ==>
              forall t :: t in ThemePool(themes, exhausted) ==> t !in exhausted
    ensures (forall t :: t in themes ==> t in exhausted) ==> ThemePool(themes, exhausted) == themes
  {
    var available := NotIn(themes, exhausted);
    if t :| t in themes && t !in exhausted {
      assert t in available;
    }
    if available != [] {
      var t := available[0];
      assert t in available;
    }
  }

  /**
   * Whatever selectThemeForRange picks is one of the range's themes with
   * videos, one not exhausted for the range whenever such a theme remains;
   * there is nothing to pick exactly when no theme of the range has videos.
   */
  lemma RangeThemePoolChoice(themes: seq<string>, cache: map<string, seq<string>>, exhausted: set<string>)
    ensures forall t :: t in RangeThemePool(themes, cache, exhausted) ==> t in themes && HasVideos(cache, t)
    ensures (exists t :: t in themes && HasVideos(cache, t) && t !in exhausted) ==>
              forall t :: t in RangeThemePool(themes, cache, exhausted) ==> t !in exhausted
    ensures RangeThemePool(themes, cache, exhausted) == [] <==> forall t :: t in themes ==> !HasVideos(cache, t)
  {
    var available := Available(themes, cache, exhausted);
    if t :| t in themes && HasVideos(cache, t) && t !in exhausted {
      assert t in available;
    }
    if available != [] {
      assert available[0] in available;
    }
    var withVideos := WithVideos(themes, cache);
    if t :| t in themes && HasVideos(cache, t) {
      assert t in withVideos;
    }
    if withVideos != [] {
      assert withVideos[0] in withVideos;
    }
  }

  /**
   * A video selectVideoFromTheme picks is one of the videos; it is unused
   * whenever some video is unused, and then the used set grows by exactly
   * that video; when every video is used the set restarts as just the pick.
   */
  lemma VideoPoolChoice(videos: seq<string>, used: set<string>, v: string)
    requires v in VideoPool(videos, used)
    ensures v in videos
    ensures (exists w :: w in videos && w !in used) ==>
              v !in used && NextUsed(videos, used, v) == used + {v} && |NextUsed(videos, used, v)| == |used| + 1
    ensures (forall w :: w in videos ==> w in used) ==> NextUsed(videos, used, v) == {v}
  {
    if w :| w in videos && w !in used {
      assert w in NotIn(videos, used);
    }
    var unused := NotIn(videos, used);
    if unused != [] {
      assert unused[0] in unused;
    }
  }

  /** The picks of successive selectVideoFromTheme calls on one theme, starting from the used set `used`. */
  ghost predicate ValidDraws(videos: seq<string>, used: set<string>, picks: seq<string>)
    decreases |picks|
  {
    picks != [] ==>
      picks[0] in VideoPool(videos, used) && ValidDraws(videos, NextUsed(videos, used, picks[0]), picks[1..])
  }

  /** A set of fewer elements than the videos' misses one of them. */
  lemma SomeUnused(videos: seq<string>, used: set<string>)
    requires |used| < |set w | w in videos|
    ensures exists w :: w in videos && w !in used
  {
    var all := set w | w in videos;
    if forall w :: w in videos ==> w in used {
      SubsetSize(all, used);
    }
  }

  lemma {:induction false} SubsetSize(a: set<string>, b: set<string>)
    requires a <= b
    ensures |a| <= |b|
    decreases |a|
  {
    if a != {} {
      var x :| x in a;
      SubsetSize(a - {x}, b - {x});
    }
  }

  /**
   * No repeat until exhausted: from a used set of videos of the theme,
   * as long as the picks do not outnumber the videos not yet used, every
   * pick is new and no two picks are equal.
   */
  lemma {:induction false} NoRepeatUntilExhausted(videos: seq<string>, used: set<string>, picks: seq<string>)
    requires ValidDraws(videos, used, picks)
    requires forall w :: w in used ==> w in videos
    requires |used| + |picks| <= |set w | w in videos|
    ensures forall i :: 0 <= i < |picks| ==> picks[i] !in used
    ensures forall i, j :: 0 <= i < j < |picks| ==> picks[i] != picks[j]
    decreases |picks|
  {
    if picks != [] {
      var v := picks[0];
      SomeUnused(videos, used);
      VideoPoolChoice(videos, used, v);
      var next := used + {v};
      assert NextUsed(videos, used, v) == next;
      NoRepeatUntilExhausted(videos, next, picks[1..]);
      forall i | 0 <= i < |picks|
        ensures picks[i] !in used
      {
        if i > 0 {
          assert picks[i] == picks[1..][i - 1];
        }
      }
      forall i, j | 0 <= i < j < |picks|
        ensures picks[i] != picks[j]
      {
        assert picks[j] == picks[1..][j - 1];
        if i > 0 {
          assert picks[i] == picks[1..][i - 1];
        }
      }
    }
  }

  /** The candidate loop of selectTheme and selectVideoFromTheme: those not in s, in their order. */
  method FilterNotIn(xs: seq<string>, s: set<string>) returns (r: seq<string>)
    ensures r == NotIn(xs, s)
  {
    r := [];
    var i := 0;
    while i < |xs|
      invariant 0 <= i <= |xs|
      invariant r == NotIn(xs[..i], s)
    {
      NotInStep(xs, i, s);
      if xs[i] !in s {
        r := r + [xs[i]];
      }
      i := i + 1;
    }
    assert xs[..i] == xs;
  }

  /** The first loop of selectThemeForRange: themes with videos, not exhausted, in their order. */
  method FilterAvailable(themes: seq<string>, cache: map<string, seq<string>>, exhausted: set<string>)
      returns (available: seq<string>)
    ensures available == Available(themes, cache, exhausted)
  {
    available := [];
    var i := 0;
    while i < |themes|
      invariant 0 <= i <= |themes|
      invariant available == Available(themes[..i], cache, exhausted)
    {
      AvailableStep(themes, i, cache, exhausted);
      var theme := themes[i];
      if HasVideos(cache, theme) && theme !in exhausted {
        available := available + [theme];
      }
      i := i + 1;
    }
    assert themes[..i] == themes;
  }

  /** The rebuilding loop of selectThemeForRange: themes with videos, in their order. */
  method FilterWithVideos(themes: seq<string>, cache: map<string, seq<string>>) returns (withVideos: seq<string>)
    ensures withVideos == WithVideos(themes, cache)
  {
    withVideos := [];
    var i := 0;
    while i < |themes|
      invariant 0 <= i <= |themes|
      invariant withVideos == WithVideos(themes[..i], cache)
    {
      WithVideosStep(themes, i, cache);
      var theme := themes[i];
      if HasVideos(cache, theme) {
        withVideos := withVideos + [theme];
      }
      i := i + 1;
    }
    assert themes[..i] == themes;
  }

  /** SelectionState: per theme the videos used so far, per range key the themes exhausted. */
  class SelectionState {
    var usedVideos: map<string, set<string>>
    var exhaustedThemesPerRange: map<string, set<string>>

    constructor ()
      ensures usedVideos == map[] && exhaustedThemesPerRange == map[]
    {
      usedVideos := map[];
      exhaustedThemesPerRange := map[];
    }
  }

  class Selector {
    const metadata: ThemeMetadata
    const random: SeededRandom

    /** The metadata comes already parsed; the chooser starts from the seed, 99 unless given. */
    constructor (metadata: ThemeMetadata, oracle: Oracle, seed: nat := DefaultSeed)
      ensures this.metadata == metadata
      ensures fresh(random) && random.seed == seed && random.oracle == oracle && random.history == []
    {
      this.metadata := metadata;
      random := new SeededRandom(seed, oracle);
    }

    /**
     * selectThemeForRange: a theme of the range that has videos and is not
     * exhausted for the range; when none is left, the range's exhausted set
     * is cleared and any theme of the range with videos may be chosen.
     */
    method SelectThemeForRange(range: VerseRangeSegment, cache: map<string, seq<string>>, state: SelectionState)
        returns (r: Result<string>)
      modifies state, random
      ensures state.usedVideos == old(state.usedVideos)
      ensures range.themes == [] ==>
        && r == Err(NoThemesForRange(range.rangeKey))
        && state.exhaustedThemesPerRange == old(state.exhaustedThemesPerRange)
        && random.history == old(random.history)
      ensures
        var exhausted := Get(old(state.exhaustedThemesPerRange), range.rangeKey);
        range.themes != [] ==>
          state.exhaustedThemesPerRange == old(state.exhaustedThemesPerRange)[range.rangeKey :=
            if Available(range.themes, cache, exhausted) == [] then {} else exhausted]
      ensures
        var pool := RangeThemePool(range.themes, cache, Get(old(state.exhaustedThemesPerRange), range.rangeKey));
        && (range.themes != [] && pool == [] ==>
              r == Err(NoThemesWithVideos(range.rangeKey)) && random.history == old(random.history))
        && (range.themes != [] && pool != [] ==>
              && r == Ok(pool[old(random.Peek(0, |pool|))])
              && random.history == old(random.history) + [|pool|])
    {
      if range.themes == [] {
        return Err(NoThemesForRange(range.rangeKey));
      }
      var exhausted := Get(state.exhaustedThemesPerRange, range.rangeKey);
      state.exhaustedThemesPerRange := Touch(state.exhaustedThemesPerRange, range.rangeKey);
      var available := FilterAvailable(range.themes, cache, exhausted);
      if available == [] {
        state.exhaustedThemesPerRange := state.exhaustedThemesPerRange[range.rangeKey := {}];
        available := FilterWithVideos(range.themes, cache);
        if available == [] {
          return Err(NoThemesWithVideos(range.rangeKey));
        }
      }
      r := random.Choice(available);
    }

    /**
     * selectTheme: a theme not exhausted under the key verseRange; when every
     * theme is exhausted, that key's set is cleared and any theme may be chosen.
     */
    method SelectTheme(themes: seq<string>, verseRange: string, state: SelectionState) returns (r: Result<string>)
      modifies state, random
      ensures state.usedVideos == old(state.usedVideos)
      ensures themes == [] ==>
        && r == Err(NoThemesForSelection)
        && state.exhaustedThemesPerRange == old(state.exhaustedThemesPerRange)
        && random.history == old(random.history)
      ensures
        var exhausted := Get(old(state.exhaustedThemesPerRange), verseRange);
        var pool := ThemePool(themes, exhausted);
        themes != [] ==>
          && state.exhaustedThemesPerRange == old(state.exhaustedThemesPerRange)[verseRange :=
               if NotIn(themes, exhausted) == [] then {} else exhausted]
          && r == Ok(pool[old(random.Peek(0, |pool|))])
          && random.history == old(random.history) + [|pool|]
    {
      if themes == [] {
        return Err(NoThemesForSelection);
      }
      var exhausted := Get(state.exhaustedThemesPerRange, verseRange);
      state.exhaustedThemesPerRange := Touch(state.exhaustedThemesPerRange, verseRange);
      var available := FilterNotIn(themes, exhausted);
      if available == [] {
        state.exhaustedThemesPerRange := state.exhaustedThemesPerRange[verseRange := {}];
        available := themes;
      }
      r := random.Choice(available);
    }

    /**
     * selectVideoFromTheme: an unused video of the theme, recorded as used;
     * when every video is used, the theme's set is cleared first and any
     * video may be chosen.
     */
    method SelectVideoFromTheme(theme: string, availableVideos: seq<string>, state: SelectionState)
        returns (r: Result<string>)
      modifies state, random
      ensures state.exhaustedThemesPerRange == old(state.exhaustedThemesPerRange)
      ensures availableVideos == [] ==>
        && r == Err(NoVideosInTheme(theme))
        && state.usedVideos == old(state.usedVideos)
        && random.history == old(random.history)
      ensures
        var used := Get(old(state.usedVideos), theme);
        var pool := VideoPool(availableVideos, used);
        availableVideos != [] ==>
          && r == Ok(pool[old(random.Peek(0, |pool|))])
          && state.usedVideos == old(state.usedVideos)[theme := NextUsed(availableVideos, used, r.value)]
          && random.history == old(random.history) + [|pool|]
    {
      if availableVideos == [] {
        return Err(NoVideosInTheme(theme));
      }
      var used := Get(state.usedVideos, theme);
      state.usedVideos := Touch(state.usedVideos, theme);
      var unused := FilterNotIn(availableVideos, used);
      var pool := unused;
      if unused == [] {
        used := {};
        state.usedVideos := state.usedVideos[theme := {}];
        pool := availableVideos;
      }
      r := random.Choice(pool);
      var selected := r.value;
      state.usedVideos := state.usedVideos[theme := used + {selected}];
    }
  }
}
