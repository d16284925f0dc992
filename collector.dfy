/**
 * collectVideoSegments: keeps choosing a theme for the requested verses and
 * a video of that theme, downloading it and measuring it, until the videos
 * kept add up to the target duration. The object store and the media probe
 * are parameters of the model.
 */
module Collector {
  import opened Text
  import opened Outcomes
  import opened Chooser
  import opened Metadata
  import opened Segments
  import opened Selection

  /** VideoSegment: a downloaded clip, its theme and its length in seconds. */
  datatype VideoSegment = VideoSegment(path: string, theme: string, duration: real, isLocal: bool)

  /**
   * The outside world the loop talks to: the object store's listing of a
   * theme, its download of a video (given the clip's position in the loop,
   * which names the local file; None when the download throws), and the
   * probe that measures a downloaded file (0 when it cannot be read).
   */
  datatype Collaborators = Collaborators(
    listVideosInTheme: string -> seq<string>,
    downloadVideo: (string, int) -> Option<string>,
    videoDuration: string -> real)

  /** The total length of the segments. */
  function Sum(segs: seq<VideoSegment>): real
  {
    if segs == [] then 0.0 else Sum(segs[..|segs| - 1]) + segs[|segs| - 1].duration
  }

  lemma SumAppend(segs: seq<VideoSegment>, s: VideoSegment)
    ensures Sum(segs + [s]) == Sum(segs) + s.duration
  {
    assert (segs + [s])[..|segs|] == segs;
  }

  /** Every theme with a non-empty cached listing has had at least as many videos used as it lists. */
  predicate AllExhausted(themes: seq<string>, cache: map<string, seq<string>>, used: map<string, set<string>>)
  {
    forall k :: 0 <= k < |themes| && HasVideos(cache, themes[k]) ==> |Get(used, themes[k])| >= |cache[themes[k]]|
  }

  /**
   * The used-videos map after the exhaustion check: operator[] creates an
   * empty entry for every theme with videos it looks at, up to the first
   * theme found not exhausted. No set gains or loses a video.
   */
  function Touched(themes: seq<string>, cache: map<string, seq<string>>, used: map<string, set<string>>)
      : (r: map<string, set<string>>)
    ensures forall t :: Get(r, t) == Get(used, t)
    ensures used.Keys <= r.Keys
    ensures forall t :: t in r && t !in used ==> t in themes && HasVideos(cache, t)
  {
    if themes == [] then used
    else
      var t := themes[0];
      if HasVideos(cache, t) then
        var u := Touch(used, t);
        if |Get(u, t)| < |cache[t]| then u else Touched(themes[1..], cache, u)
      else Touched(themes[1..], cache, used)
  }

  /** Lines 146-156: whether every theme with videos has been used up, touching the entries it reads. */
  method CheckAllExhausted(themes: seq<string>, cache: map<string, seq<string>>, state: SelectionState)
      returns (allExhausted: bool)
    modifies state
    ensures allExhausted == AllExhausted(themes, cache, old(state.usedVideos))
    ensures state.usedVideos == Touched(themes, cache, old(state.usedVideos))
    ensures state.exhaustedThemesPerRange == old(state.exhaustedThemesPerRange)
  {
    allExhausted := true;
    var i := 0;
    while i < |themes|
      invariant 0 <= i <= |themes|
      invariant Touched(themes, cache, old(state.usedVideos)) == Touched(themes[i..], cache, state.usedVideos)
      invariant forall t :: Get(state.usedVideos, t) == Get(old(state.usedVideos), t)
      invariant forall k :: 0 <= k < i && HasVideos(cache, themes[k]) ==>
        |Get(old(state.usedVideos), themes[k])| >= |cache[themes[k]]|
      invariant state.exhaustedThemesPerRange == old(state.exhaustedThemesPerRange)
    {
      assert themes[i..][1..] == themes[i + 1..];
      var theme := themes[i];
      if theme in cache {
        var videos := cache[theme];
        if videos != [] {
          state.usedVideos := Touch(state.usedVideos, theme);
          if |state.usedVideos[theme]| < |videos| {
            allExhausted := false;
            break;
          }
        }
      }
      i := i + 1;
    }
  }

  /** What the loop keeps true of the segments it has kept. */
  ghost predicate Kept(segments: seq<VideoSegment>, themes: set<string>)
  {
    forall k :: 0 <= k < |segments| ==>
      segments[k].duration > 0.0 && segments[k].isLocal && segments[k].theme in themes
  }

  lemma KeptAppend(segments: seq<VideoSegment>, themes: set<string>, s: VideoSegment)
    requires Kept(segments, themes) && s.duration > 0.0 && s.isLocal && s.theme in themes
    ensures Kept(segments + [s], themes)
  {
  }

  /** No theme appears twice. */
  ghost predicate Distinct(xs: seq<string>)
  {
    forall i, j :: 0 <= i < j < |xs| ==> xs[i] != xs[j]
  }

  lemma DistinctAppend(xs: seq<string>, x: string)
    requires Distinct(xs) && x !in xs
    ensures Distinct(xs + [x])
  {
  }

  /** How one turn of the loop ended. */
  datatype Turn = Added(segment: VideoSegment) | Skipped | Failed(error: Error)

  /**
   * Collaborators under which no turn keeps a video: every theme lists
   * videos and every download succeeds, but every file measures 0 seconds.
   */
  ghost predicate Stalls(io: Collaborators)
  {
    && (forall p :: io.videoDuration(p) <= 0.0)
    && (forall t :: io.listVideosInTheme(t) != [])
    && (forall v, n :: io.downloadVideo(v, n).Some?)
  }

  /** The cache grew by the store's listing of the fetched theme, if one was fetched. */
  ghost predicate Fetched(cache: map<string, seq<string>>, newCache: map<string, seq<string>>, fetched: seq<string>,
                          io: Collaborators)
  {
    || (fetched == [] && newCache == cache)
    || (|fetched| == 1 && fetched[0] !in cache && newCache == cache[fetched[0] := io.listVideosInTheme(fetched[0])])
  }

  /** The themes listed so far are distinct and are exactly those the cache holds. */
  ghost predicate Tracks(cache: map<string, seq<string>>, listed: seq<string>)
  {
    Distinct(listed) && forall t :: t in cache <==> t in listed
  }

  lemma TracksFetched(cache: map<string, seq<string>>, newCache: map<string, seq<string>>, fetched: seq<string>,
                      io: Collaborators, listed: seq<string>)
    requires Tracks(cache, listed) && Fetched(cache, newCache, fetched, io)
    ensures Tracks(newCache, listed + fetched)
  {
    if fetched != [] {
      DistinctAppend(listed, fetched[0]);
    }
  }

  /** The cache holds the store's listings. */
  ghost predicate Listings(cache: map<string, seq<string>>, io: Collaborators)
  {
    forall t :: t in cache ==> cache[t] == io.listVideosInTheme(t)
  }

  /** Every used-video set of a theme holds only videos of its listing in the store. */
  ghost predicate UsedWithin(used: map<string, set<string>>, io: Collaborators)
  {
    forall t, v :: v in Get(used, t) ==> v in io.listVideosInTheme(t)
  }

  /**
   * theme is the one the chooser draws, at the given seed and draw history,
   * from the themes not exhausted for the request (all of them when none is
   * left), and so a theme not exhausted whenever one is left.
   */
  ghost predicate ThemeDrawn(availableThemes: seq<string>, exhausted: set<string>, oracle: Oracle, seed: nat,
                             history: seq<nat>, theme: string)
  {
    var pool := ThemePool(availableThemes, exhausted);
    && |pool| > 0 && theme == pool[oracle(seed, history, |pool|)]
    && ((exists t :: t in availableThemes && t !in exhausted) ==> theme !in exhausted)
  }

  /**
   * video is the one the chooser draws, at the given seed and draw history,
   * from the listed videos not yet used (all of them when every one is used),
   * and so an unused one whenever one is left.
   */
  ghost predicate VideoDrawn(videos: seq<string>, used: set<string>, oracle: Oracle, seed: nat, history: seq<nat>,
                             video: string)
  {
    var pool := VideoPool(videos, used);
    && |pool| > 0 && video == pool[oracle(seed, history, |pool|)]
    && video in videos && ((exists w :: w in videos && w !in used) ==> video !in used)
  }

  /** The used-video sets after a turn that chose video, if any, from the theme's listing. */
  function AfterTurn(used: map<string, set<string>>, cache: map<string, seq<string>>, theme: string,
                     video: Option<string>): map<string, set<string>>
  {
    if video.Some? && theme in cache then used[theme := NextUsed(cache[theme], Get(used, theme), video.value)]
    else used
  }

  /**
   * What the collection loop keeps true: the total is the kept segments'
   * length, each kept segment is a real local clip of a requested theme
   * whose listing was fetched, the fetched themes are distinct themes of
   * the request, and the cache holds exactly their listings.
   */
  ghost predicate Progress(segments: seq<VideoSegment>, totalDuration: real, cache: map<string, seq<string>>,
                           listed: seq<string>, themes: set<string>, io: Collaborators)
  {
    && totalDuration == Sum(segments)
    && Kept(segments, themes)
    && Tracks(cache, listed)
    && Listings(cache, io)
    && (forall k :: 0 <= k < |segments| ==> segments[k].theme in listed)
    && (forall t :: t in listed ==> t in themes)
  }

  /** Lines 137-144: the segment joins the kept ones and its length the total. */
  method Keep(segments: seq<VideoSegment>, totalDuration: real, segment: VideoSegment, ghost themes: set<string>)
      returns (newSegments: seq<VideoSegment>, newTotal: real)
    requires totalDuration == Sum(segments) && Kept(segments, themes)
    requires segment.duration > 0.0 && segment.isLocal && segment.theme in themes
    ensures newSegments == segments + [segment] && newTotal == totalDuration + segment.duration
    ensures newTotal == Sum(newSegments) && Kept(newSegments, themes)
  {
    SumAppend(segments, segment);
    KeptAppend(segments, themes, segment);
    newSegments := segments + [segment];
    newTotal := totalDuration + segment.duration;
  }

  /**
   * The exhausted-themes map after selectTheme under the key verseRange: the
   * key gets an entry, and its set is emptied when no theme was left.
   */
  function Cleared(themes: seq<string>, verseRange: string, exhausted: map<string, set<string>>)
      : map<string, set<string>>
  {
    var e := Get(exhausted, verseRange);
    exhausted[verseRange := if NotIn(themes, e) == [] then {} else e]
  }

  class Manager {
    const metadata: ThemeMetadata
    const surah: int
    const fromVerse: int
    const toVerse: int
    const seed: nat
    const oracle: Oracle
    const io: Collaborators
    /** selectionState_: kept across calls. */
    const selectionState: SelectionState

    /** The configuration and options the manager reads; the selection state starts empty. */
    constructor (metadata: ThemeMetadata, surah: int, fromVerse: int, toVerse: int, seed: nat, oracle: Oracle,
                 io: Collaborators)
      ensures this.metadata == metadata && this.surah == surah
      ensures this.fromVerse == fromVerse && this.toVerse == toVerse
      ensures this.seed == seed && this.oracle == oracle && this.io == io
      ensures fresh(selectionState)
      ensures selectionState.usedVideos == map[] && selectionState.exhaustedThemesPerRange == map[]
    {
      this.metadata := metadata;
      this.surah := surah;
      this.fromVerse := fromVerse;
      this.toVerse := toVerse;
      this.seed := seed;
      this.oracle := oracle;
      this.io := io;
      selectionState := new SelectionState();
    }

    /** Lines 51-60: the themes of the requested verses, which must not be empty. */
    method ThemesOfRequest() returns (availableThemes: seq<string>, ghost themes: set<string>)
      requires WellFormed(metadata)
      ensures themes == ThemesOver(metadata, surah, fromVerse, toVerse)
      ensures availableThemes == [] <==> themes == {}
      ensures forall k :: 0 <= k < |availableThemes| ==> availableThemes[k] in themes
      ensures forall t :: t in themes ==> t in availableThemes
      ensures forall i, j :: 0 <= i < j < |availableThemes| ==> LexLess(availableThemes[i], availableThemes[j])
    {
      availableThemes := GetThemesForVerses(metadata, surah, fromVerse, toVerse);
      themes := ThemesOver(metadata, surah, fromVerse, toVerse);
      if availableThemes == [] {
        assert forall t :: t !in themes;
      } else {
        assert availableThemes[0] in themes;
      }
    }

    /**
     * Lines 91-109: a theme for the request and its listing, fetched once and
     * cached; an empty listing marks the theme exhausted for the request and
     * skips the turn. fetched is the theme whose listing was fetched, if any.
     */
    method PickTheme(selector: Selector, availableThemes: seq<string>, verseRange: string,
                     cache: map<string, seq<string>>, ghost themes: set<string>)
        returns (selectedTheme: string, skip: bool, newCache: map<string, seq<string>>, ghost fetched: seq<string>)
      requires availableThemes != [] && forall k :: 0 <= k < |availableThemes| ==> availableThemes[k] in themes
      requires Listings(cache, io)
      modifies selectionState, selector.random
      ensures Listings(newCache, io) && Fetched(cache, newCache, fetched, io)
      ensures selectedTheme in themes && selectedTheme in availableThemes && selectedTheme in newCache
      ensures (exists t :: t in availableThemes && t !in Get(old(selectionState.exhaustedThemesPerRange), verseRange)) ==>
        selectedTheme !in Get(old(selectionState.exhaustedThemesPerRange), verseRange)
      ensures fetched == [] || fetched == [selectedTheme]
      ensures
        var pool := ThemePool(availableThemes, Get(old(selectionState.exhaustedThemesPerRange), verseRange));
        && selectedTheme == pool[old(selector.random.Peek(0, |pool|))]
        && selector.random.history == old(selector.random.history) + [|pool|]
      ensures skip <==> selectedTheme !in cache && io.listVideosInTheme(selectedTheme) == []
      ensures
        var cleared := Cleared(availableThemes, verseRange, old(selectionState.exhaustedThemesPerRange));
        selectionState.exhaustedThemesPerRange ==
          if skip then cleared[verseRange := Get(cleared, verseRange) + {selectedTheme}] else cleared
      ensures selectionState.usedVideos == old(selectionState.usedVideos)
    {
      newCache, fetched, skip := cache, [], false;
      ghost var exhausted := Get(selectionState.exhaustedThemesPerRange, verseRange);
      var chosen := selector.SelectTheme(availableThemes, verseRange, selectionState);
      ThemePoolChoice(availableThemes, exhausted);
      selectedTheme := chosen.value;
      assert selectedTheme in availableThemes;

      if selectedTheme !in newCache {
        newCache := newCache[selectedTheme := io.listVideosInTheme(selectedTheme)];
        fetched := [selectedTheme];
        if newCache[selectedTheme] == [] {
          // Line 106: the theme is recorded as exhausted for the whole request.
          selectionState.exhaustedThemesPerRange := selectionState.exhaustedThemesPerRange[verseRange :=
            Get(selectionState.exhaustedThemesPerRange, verseRange) + {selectedTheme}];
          skip := true;
        }
      }
    }

    /**
     * Lines 91-142, one turn of the loop: a theme and its listing, a video,
     * its download and its length (0 or less skips the turn). fetched is the
     * theme whose listing was fetched, if any.
     */
    method TakeTurn(selector: Selector, availableThemes: seq<string>, verseRange: string,
                    cache: map<string, seq<string>>, segmentCount: int, ghost themes: set<string>)
        returns (turn: Turn, newCache: map<string, seq<string>>, ghost fetched: seq<string>,
                 ghost theme: string, ghost video: Option<string>)
      requires availableThemes != [] && forall k :: 0 <= k < |availableThemes| ==> availableThemes[k] in themes
      requires Listings(cache, io)
      modifies selectionState, selector.random
      ensures Listings(newCache, io) && Fetched(cache, newCache, fetched, io)
      ensures theme in themes && theme in newCache && (fetched == [] || fetched == [theme])
      ensures turn.Added? ==> turn.segment.duration > 0.0 && turn.segment.isLocal && turn.segment.theme in themes
      ensures turn.Added? ==>
        && video.Some? && turn.segment.theme == theme
        && io.downloadVideo(video.value, segmentCount) == Some(turn.segment.path)
        && turn.segment.duration == io.videoDuration(turn.segment.path)
      ensures turn.Failed? ==> turn.error.NoVideosInTheme? || turn.error.DownloadFailed?
      ensures theme in cache && cache[theme] == [] ==> turn == Failed(NoVideosInTheme(theme))
      ensures video.Some? ==>
        && video.value in newCache[theme]
        && selectionState.usedVideos ==
             old(selectionState.usedVideos)[theme := NextUsed(newCache[theme], Get(old(selectionState.usedVideos), theme),
                                                             video.value)]
      ensures video.None? ==> selectionState.usedVideos == old(selectionState.usedVideos)
      ensures turn.Skipped? && video.None? ==> theme !in cache && io.listVideosInTheme(theme) == []
      ensures
        var cleared := Cleared(availableThemes, verseRange, old(selectionState.exhaustedThemesPerRange));
        selectionState.exhaustedThemesPerRange ==
          if turn.Skipped? && video.None? then cleared[verseRange := Get(cleared, verseRange) + {theme}] else cleared
      ensures turn.Skipped? && video.Some? ==>
        && io.downloadVideo(video.value, segmentCount).Some?
        && io.videoDuration(io.downloadVideo(video.value, segmentCount).value) <= 0.0
      ensures Stalls(io) ==> turn == Skipped
      ensures
        var themePool := ThemePool(availableThemes, Get(old(selectionState.exhaustedThemesPerRange), verseRange));
        && theme == themePool[old(selector.random.Peek(0, |themePool|))]
        && ((exists t :: t in availableThemes && t !in Get(old(selectionState.exhaustedThemesPerRange), verseRange)) ==>
              theme !in Get(old(selectionState.exhaustedThemesPerRange), verseRange))
      ensures video.Some? ==>
        var used := Get(old(selectionState.usedVideos), theme);
        var videoPool := VideoPool(newCache[theme], used);
        var themePool := ThemePool(availableThemes, Get(old(selectionState.exhaustedThemesPerRange), verseRange));
        && |videoPool| > 0
        && video.value ==
             videoPool[selector.random.oracle(selector.random.seed, old(selector.random.history) + [|themePool|], |videoPool|)]
        && ((exists w :: w in newCache[theme] && w !in used) ==> video.value !in used)
      ensures
        var themePool := ThemePool(availableThemes, Get(old(selectionState.exhaustedThemesPerRange), verseRange));
        selector.random.history == old(selector.random.history) + [|themePool|] +
          if video.Some? then [|VideoPool(newCache[theme], Get(old(selectionState.usedVideos), theme))|] else []
      ensures UsedWithin(old(selectionState.usedVideos), io) ==> UsedWithin(selectionState.usedVideos, io)
    {
      var selectedTheme, skip;
      selectedTheme, skip, newCache, fetched := PickTheme(selector, availableThemes, verseRange, cache, themes);
      theme, video := selectedTheme, None;
      if skip {
        return Skipped, newCache, fetched, theme, video;
      }
      turn, video := TakeClip(selector, selectedTheme, newCache[selectedTheme], segmentCount, themes);
    }

    /**
     * Lines 111-142, the second half of a turn: a video of the theme's
     * cached listing, its download and its length (0 or less skips the
     * turn). video is the video chosen, if the listing has one.
     */
    method TakeClip(selector: Selector, theme: string, availableVideos: seq<string>, segmentCount: int,
                    ghost themes: set<string>)
        returns (turn: Turn, ghost video: Option<string>)
      requires theme in themes && availableVideos == io.listVideosInTheme(theme)
      modifies selectionState, selector.random
      ensures selectionState.exhaustedThemesPerRange == old(selectionState.exhaustedThemesPerRange)
      ensures turn.Added? ==>
        && turn.segment.duration > 0.0 && turn.segment.isLocal && turn.segment.theme == theme
        && video.Some? && io.downloadVideo(video.value, segmentCount) == Some(turn.segment.path)
        && turn.segment.duration == io.videoDuration(turn.segment.path)
      ensures turn.Failed? ==> turn.error.NoVideosInTheme? || turn.error.DownloadFailed?
      ensures video.None? <==> availableVideos == []
      ensures video.None? ==>
        && turn == Failed(NoVideosInTheme(theme))
        && selectionState.usedVideos == old(selectionState.usedVideos)
        && selector.random.history == old(selector.random.history)
      ensures video.Some? ==>
        var used := Get(old(selectionState.usedVideos), theme);
        var videoPool := VideoPool(availableVideos, used);
        && |videoPool| > 0
        && video.value == videoPool[old(selector.random.Peek(0, |videoPool|))]
        && video.value in availableVideos
        && ((exists w :: w in availableVideos && w !in used) ==> video.value !in used)
        && selectionState.usedVideos == old(selectionState.usedVideos)[theme := NextUsed(availableVideos, used, video.value)]
        && selector.random.history == old(selector.random.history) + [|videoPool|]
      ensures turn.Skipped? ==>
        && video.Some? && io.downloadVideo(video.value, segmentCount).Some?
        && io.videoDuration(io.downloadVideo(video.value, segmentCount).value) <= 0.0
      ensures Stalls(io) ==> turn == Skipped
      ensures UsedWithin(old(selectionState.usedVideos), io) ==> UsedWithin(selectionState.usedVideos, io)
    {
      video := None;
      ghost var used := Get(selectionState.usedVideos, theme);
      var picked := selector.SelectVideoFromTheme(theme, availableVideos, selectionState);
      if picked.Err? {
        return Failed(picked.error), video;
      }
      var selectedVideo := picked.value;
      VideoPoolChoice(availableVideos, used, selectedVideo);
      video := Some(selectedVideo);

      var downloaded := io.downloadVideo(selectedVideo, segmentCount);
      if downloaded.None? {
        return Failed(DownloadFailed(selectedVideo)), video;
      }
      var downloadedPath := downloaded.value;

      var videoDuration := io.videoDuration(downloadedPath);
      if videoDuration <= 0.0 {
        return Skipped, video;
      }
      turn := Added(VideoSegment(downloadedPath, theme, videoDuration, true));
    }

    /**
     * Lines 91-162, one pass of the loop body: a turn and, when it yields a
     * clip, the clip kept and the exhaustion check with its reset (reset
     * tells whether it fired). theme and video are what the turn chose.
     */
    method Round(selector: Selector, availableThemes: seq<string>, verseRange: string, targetDuration: real,
                 segmentCount: int, segments: seq<VideoSegment>, totalDuration: real,
                 cache: map<string, seq<string>>, ghost listed: seq<string>, ghost themes: set<string>)
        returns (turn: Turn, newSegments: seq<VideoSegment>, newTotal: real, newCache: map<string, seq<string>>,
                 ghost newListed: seq<string>, ghost reset: bool, ghost theme: string, ghost video: Option<string>)
      requires availableThemes != [] && forall k :: 0 <= k < |availableThemes| ==> availableThemes[k] in themes
      requires Progress(segments, totalDuration, cache, listed, themes, io)
      modifies selectionState, selector.random
      ensures Progress(newSegments, newTotal, newCache, newListed, themes, io)
      ensures newSegments == if turn.Added? then segments + [turn.segment] else segments
      ensures turn.Failed? ==> turn.error.NoVideosInTheme? || turn.error.DownloadFailed?
      ensures Stalls(io) ==> turn == Skipped
      ensures theme in themes && theme in newCache
      ensures turn.Added? ==> video.Some? && turn.segment.theme == theme
      ensures reset <==> turn.Added? && newTotal < targetDuration &&
                         AllExhausted(availableThemes, newCache, AfterTurn(old(selectionState.usedVideos), newCache, theme, video))
      ensures
        var themePool := ThemePool(availableThemes, Get(old(selectionState.exhaustedThemesPerRange), verseRange));
        && ThemeDrawn(availableThemes, Get(old(selectionState.exhaustedThemesPerRange), verseRange),
                      selector.random.oracle, selector.random.seed, old(selector.random.history), theme)
        && (video.Some? ==>
              VideoDrawn(newCache[theme], Get(old(selectionState.usedVideos), theme), selector.random.oracle,
                         selector.random.seed, old(selector.random.history) + [|themePool|], video.value))
        && selector.random.history == old(selector.random.history) + [|themePool|] +
             if video.Some? then [|VideoPool(newCache[theme], Get(old(selectionState.usedVideos), theme))|] else []
      ensures
        var afterTurn := AfterTurn(old(selectionState.usedVideos), newCache, theme, video);
        selectionState.usedVideos ==
          if reset then map[] else if turn.Added? then Touched(availableThemes, newCache, afterTurn) else afterTurn
      ensures
        var cleared := Cleared(availableThemes, verseRange, old(selectionState.exhaustedThemesPerRange));
        var afterTurn := if turn.Skipped? && video.None? then cleared[verseRange := Get(cleared, verseRange) + {theme}]
                         else cleared;
        selectionState.exhaustedThemesPerRange == if reset then afterTurn[verseRange := {}] else afterTurn
      ensures UsedWithin(old(selectionState.usedVideos), io) ==> UsedWithin(selectionState.usedVideos, io)
    {
      ghost var fetched;
      turn, newCache, fetched, theme, video := TakeTurn(selector, availableThemes, verseRange, cache, segmentCount, themes);
      newSegments, newTotal, newListed, reset :=
        Absorb(availableThemes, verseRange, targetDuration, turn, segments, totalDuration, cache, newCache,
               fetched, theme, listed, themes);
    }

    /**
     * Lines 137-162, what follows a turn: the fetched listing is logged and,
     * when the turn yields a clip, the clip is kept and the exhaustion check
     * runs with its reset.
     */
    method Absorb(availableThemes: seq<string>, verseRange: string, targetDuration: real, turn: Turn,
                  segments: seq<VideoSegment>, totalDuration: real,
                  cache: map<string, seq<string>>, newCache: map<string, seq<string>>,
                  ghost fetched: seq<string>, ghost theme: string, ghost listed: seq<string>, ghost themes: set<string>)
        returns (newSegments: seq<VideoSegment>, newTotal: real, ghost newListed: seq<string>, ghost reset: bool)
      requires Progress(segments, totalDuration, cache, listed, themes, io)
      requires Listings(newCache, io) && Fetched(cache, newCache, fetched, io)
      requires theme in themes && theme in newCache && (fetched == [] || fetched == [theme])
      requires turn.Added? ==>
        turn.segment.duration > 0.0 && turn.segment.isLocal && turn.segment.theme == theme
      modifies selectionState
      ensures Progress(newSegments, newTotal, newCache, newListed, themes, io)
      ensures newSegments == if turn.Added? then segments + [turn.segment] else segments
      ensures reset <==> turn.Added? && newTotal < targetDuration &&
                         AllExhausted(availableThemes, newCache, old(selectionState.usedVideos))
      ensures selectionState.usedVideos ==
        if reset then map[]
        else if turn.Added? then Touched(availableThemes, newCache, old(selectionState.usedVideos))
        else old(selectionState.usedVideos)
      ensures selectionState.exhaustedThemesPerRange ==
        if reset then old(selectionState.exhaustedThemesPerRange)[verseRange := {}]
        else old(selectionState.exhaustedThemesPerRange)
      ensures UsedWithin(old(selectionState.usedVideos), io) ==> UsedWithin(selectionState.usedVideos, io)
    {
      TracksFetched(cache, newCache, fetched, io, listed);
      newListed := listed + fetched;
      newSegments, newTotal, reset := segments, totalDuration, false;
      if turn.Added? {
        newSegments, newTotal := Keep(segments, totalDuration, turn.segment, themes);
        reset := ResetIfExhausted(availableThemes, newCache, verseRange, newTotal, targetDuration);
      }
    }

    /**
     * Lines 146-162, after a video is kept: when every theme with videos has
     * used all of them and the target is not yet met, every used-video set
     * is dropped and the request's exhausted themes are cleared; otherwise
     * only the entries the check looked at are created.
     */
    method ResetIfExhausted(availableThemes: seq<string>, cache: map<string, seq<string>>, verseRange: string,
                            totalDuration: real, targetDuration: real) returns (reset: bool)
      modifies selectionState
      ensures reset == (AllExhausted(availableThemes, cache, old(selectionState.usedVideos)) &&
                        totalDuration < targetDuration)
      ensures selectionState.usedVideos ==
        if reset then map[] else Touched(availableThemes, cache, old(selectionState.usedVideos))
      ensures selectionState.exhaustedThemesPerRange ==
        if reset then old(selectionState.exhaustedThemesPerRange)[verseRange := {}]
        else old(selectionState.exhaustedThemesPerRange)
    {
      var allExhausted := CheckAllExhausted(availableThemes, cache, selectionState);
      reset := allExhausted && totalDuration < targetDuration;
      if reset {
        selectionState.usedVideos := map[];
        selectionState.exhaustedThemesPerRange := selectionState.exhaustedThemesPerRange[verseRange := {}];
      }
    }

    /**
     * Lines 38-175. The loop runs at most fuel times (see README); on return
     * the segments all have a positive duration, are local, and carry a theme
     * of the requested verses; they reach the target unless the safety break
     * after the 101st turn ended the loop. A skipped turn bypasses that break:
     * under collaborators that stall, the loop runs out of any fuel. The
     * outputs besides the result are the number of turns taken and (ghost)
     * the themes whose listing was fetched, in order.
     */
    method CollectVideoSegments(targetDuration: real, fuel: nat)
        returns (r: Result<seq<VideoSegment>>, segmentCount: int, ghost listed: seq<string>)
      requires WellFormed(metadata)
      modifies selectionState
      ensures ThemesOver(metadata, surah, fromVerse, toVerse) == {} ==>
        r == Err(NoThemesForVerses) && unchanged(selectionState)
      ensures r.Ok? ==> Kept(r.value, ThemesOver(metadata, surah, fromVerse, toVerse))
      ensures r.Ok? && segmentCount <= 100 ==> Sum(r.value) >= targetDuration
      ensures r.Err? ==>
        || r.error == NoThemesForVerses || r.error.NoVideosInTheme? || r.error.DownloadFailed? || r.error == OutOfFuel
      ensures Stalls(io) && targetDuration > 0.0 && ThemesOver(metadata, surah, fromVerse, toVerse) != {} ==>
        r == Err(OutOfFuel)
      ensures Distinct(listed) && forall t :: t in listed ==> t in ThemesOver(metadata, surah, fromVerse, toVerse)
      ensures r.Ok? ==> forall k :: 0 <= k < |r.value| ==> r.value[k].theme in listed
      ensures UsedWithin(old(selectionState.usedVideos), io) ==> UsedWithin(selectionState.usedVideos, io)
    {
      var selector := new Selector(metadata, oracle, seed);
      var availableThemes, themes := ThemesOfRequest();
      segmentCount, listed := 0, [];
      if availableThemes == [] {
        return Err(NoThemesForVerses), segmentCount, listed;
      }
      var segments: seq<VideoSegment> := [];
      var totalDuration := 0.0;
      var themeVideosCache: map<string, seq<string>> := map[];
      var verseRange := RangeKey(surah, fromVerse, toVerse);
      var fuelLeft := fuel;
      while totalDuration < targetDuration
        invariant Progress(segments, totalDuration, themeVideosCache, listed, themes, io)
        invariant Stalls(io) ==> segments == []
        invariant UsedWithin(old(selectionState.usedVideos), io) ==> UsedWithin(selectionState.usedVideos, io)
        decreases fuelLeft
      {
        if fuelLeft == 0 {
          return Err(OutOfFuel), segmentCount, listed;
        }
        fuelLeft := fuelLeft - 1;
        segmentCount := segmentCount + 1;

        var turn;
        ghost var reset, theme, video;
        turn, segments, totalDuration, themeVideosCache, listed, reset, theme, video :=
          Round(selector, availableThemes, verseRange, targetDuration, segmentCount,
                segments, totalDuration, themeVideosCache, listed, themes);
        if turn.Failed? {
          return Err(turn.error), segmentCount, listed;
        } else if turn.Skipped? {
          continue;
        }

        if segmentCount > 100 {
          break;
        }
      }
      return Ok(segments), segmentCount, listed;
    }

    /**
     * The loop of lines 88-169 with the safety limit counting every turn,
     * skipped ones included, as its comment intends: it takes at most 101
     * turns and so ends without fuel; otherwise it behaves as
     * CollectVideoSegments.
     */
    method CollectVideoSegmentsCapped(targetDuration: real)
        returns (r: Result<seq<VideoSegment>>, segmentCount: int, ghost listed: seq<string>)
      requires WellFormed(metadata)
      modifies selectionState
      ensures ThemesOver(metadata, surah, fromVerse, toVerse) == {} ==>
        r == Err(NoThemesForVerses) && unchanged(selectionState)
      ensures r.Ok? ==> Kept(r.value, ThemesOver(metadata, surah, fromVerse, toVerse))
      ensures r.Ok? && segmentCount <= 100 ==> Sum(r.value) >= targetDuration
      ensures r.Err? ==> r.error == NoThemesForVerses || r.error.NoVideosInTheme? || r.error.DownloadFailed?
      ensures 0 <= segmentCount <= 101
      ensures Distinct(listed) && forall t :: t in listed ==> t in ThemesOver(metadata, surah, fromVerse, toVerse)
      ensures r.Ok? ==> forall k :: 0 <= k < |r.value| ==> r.value[k].theme in listed
      ensures UsedWithin(old(selectionState.usedVideos), io) ==> UsedWithin(selectionState.usedVideos, io)
    {
      var selector := new Selector(metadata, oracle, seed);
      var availableThemes, themes := ThemesOfRequest();
      segmentCount, listed := 0, [];
      if availableThemes == [] {
        return Err(NoThemesForVerses), segmentCount, listed;
      }
      var segments: seq<VideoSegment> := [];
      var totalDuration := 0.0;
      var themeVideosCache: map<string, seq<string>> := map[];
      var verseRange := RangeKey(surah, fromVerse, toVerse);
      while totalDuration < targetDuration && segmentCount <= 100
        invariant 0 <= segmentCount <= 101
        invariant Progress(segments, totalDuration, themeVideosCache, listed, themes, io)
        invariant UsedWithin(old(selectionState.usedVideos), io) ==> UsedWithin(selectionState.usedVideos, io)
        decreases 101 - segmentCount
      {
        segmentCount := segmentCount + 1;

        var turn;
        ghost var reset, theme, video;
        turn, segments, totalDuration, themeVideosCache, listed, reset, theme, video :=
          Round(selector, availableThemes, verseRange, targetDuration, segmentCount,
                segments, totalDuration, themeVideosCache, listed, themes);
        if turn.Failed? {
          return Err(turn.error), segmentCount, listed;
        }
      }
      return Ok(segments), segmentCount, listed;
    }
  }
}
