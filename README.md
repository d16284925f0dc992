# Quran video maker: background-video selection, verified in Dafny

This project models the part of the Quran video maker that picks background
footage for a recitation. Given a surah and a range of verses, it decides
which themes and which stock videos to show, and when.

- **Theme metadata.** The metadata maps each surah to its ranges of verses,
  keyed `"<start>-<end>"`, and each range to a list of themes. A JSON object
  iterates its keys in `std::map` order, so each surah's ranges are a
  sequence of entries with strictly ascending keys (`Metadata.WellFormed`).
- **Lookups.** `findRangeBoundsForVerse` and `findRangeForVerse` return the
  first range, in that key order, that holds a verse.
  `getThemesForVerses` gathers the themes of a whole request.
  `parseVerseRange` turns `"1-3,7"` into `[1, 2, 3, 7]`.
- **Segmentation.** `getVerseRangeSegments` cuts a request into segments:
  - one segment per metadata range that a requested verse falls in;
  - each clamped to the request;
  - keyed `"<surah>:<start>-<end>"`;
  - sorted by first verse;
  - each given a window of time in proportion to its verse count.

  `getRangeForTimePosition` maps a point in time back to a segment.
- **Selection with no repeats until exhausted.** `selectTheme`,
  `selectThemeForRange` and `selectVideoFromTheme` keep a set per key in
  `SelectionState`. They choose, with a seeded chooser, among the candidates
  not yet in that set. They clear the set once every candidate is in it.
- **Collection.** `Manager::collectVideoSegments` loops:
  1. choose a theme for the request;
  2. list the theme's videos once and cache the listing;
  3. pick a video, download it and measure it;
  4. keep it when its length is positive.

  It stops when the kept videos reach the target duration.

Modules, in dependency order:

- `Text`: `std::string` order, `std::to_string`, `std::stoi` on numerals,
  `find`.
- `Ordered`: `std::set` insertion, and `std::sort` followed by `std::unique`.
- `Outcomes`: `Option`, `Result`, and the exceptions as `Error` values.
- `Chooser`: `SeededRandom` over an abstract oracle.
- `Metadata`: the lookups, `getThemesForVerses` and `parseVerseRange`.
- `Segments`: `getVerseRangeSegments` and `getRangeForTimePosition`.
- `Tiling`: when the segment windows tile `[0, 1]`.
- `Selection`: `SelectionState` and `Selector`.
- `Collector`: `Manager::collectVideoSegments`.

The exceptions the modelled selectors throw (no themes, no themes with
videos, no videos in a theme, an empty choice) and a failed download become
an `Err` of `Result`. The `std::stoi`, file-open and JSON exceptions are not
modelled (see "Left out").

In the source, the random engine is `std::mt19937`. This model replaces it
with an `Oracle`: a function of the seed, the sizes of all earlier draws and
the size of this draw. The oracle only promises an index below that size. Two
choosers with the same seed and oracle therefore make the same choices.

The store's listing, the download and the media probe are fields of the
`Collaborators` parameter.

## Model

| member | source | states |
|---|---|---|
| Text.LexLessIrreflexive | src/video_selector.cpp:110-117 | no string is below itself in `std::string` order, the order the theme set and the metadata maps sort by |
| Text.LexLessTransitive | src/video_selector.cpp:110-117 | `std::string` order is transitive |
| Text.LexLessTotal | src/video_selector.cpp:110-117 | of two different strings, one is below the other |
| Text.ParseNat | src/video_selector.cpp:75-76 | `std::stoi` on a numeral: its decimal value, read digit by digit (its round trip is Text.ParseNatToString) |
| Text.IntToString | src/video_selector.cpp:64 | `std::to_string` of an int: a minus sign before the numeral of a negative number, the numeral of any other (the surah key of the lookups) |
| Text.NatToString | src/video_selector.cpp:130-132 | `std::to_string` of a non-negative number is a non-empty string of digits |
| Text.ParseNatToString | src/video_selector.cpp:75-76 | `std::stoi` reads back the number `std::to_string` wrote |
| Text.NatToStringInjective | src/video_selector.cpp:130-132 | different numbers are written as different numerals |
| Text.Find | src/video_selector.cpp:72 | `find('-')` returns the first position of the character, or npos (the length) when it is absent |
| Text.FindAfter | src/video_selector.cpp:72 | in `x + "-" + y`, where `x` has no dash, the first dash is at position `|x|` |
| Ordered.Insert | src/video_selector.cpp:114 | `std::set::insert` keeps the contents strictly ascending; the members are the old ones plus the new element |
| Ordered.SortUnique | src/video_selector.cpp:58-59 | sort then unique: the same elements, strictly ascending |
| Ordered.SortedUnique | src/video_selector.cpp:58-59 | two strictly ascending sequences with the same members are equal, so any sort-and-dedupe gives one answer |
| Ordered.HeadIsLeast | src/video_selector.cpp:117 | the first element of a strictly ascending sequence is below every other member |
| Ordered.IntLessIsStrictTotal | src/video_selector.cpp:58 | `<` on ints is a strict total order |
| Ordered.LexLessIsStrictTotal | src/video_selector.cpp:110 | `std::string`'s `<` is a strict total order, which `std::set` needs |
| Chooser.SeededRandom.constructor | src/video_selector.cpp:12 | a new chooser holds its seed and has made no draws |
| Chooser.SeededRandom.Peek | src/video_selector.cpp:14-17 | `nextInt(min, max)` gives `min` when `min >= max`, otherwise a value in `[min, max - 1]` |
| Chooser.SeededRandom.NextInt | src/video_selector.cpp:14-18 | `nextInt` returns the peeked value; an empty interval consumes no draw, otherwise one draw of size `max - min` is recorded |
| Chooser.SeededRandom.Choice | src/video_selector.cpp:20-26 | `choice` fails on an empty vector with no draw; otherwise it returns `items[i]` for the drawn index `0 <= i < size` |
| Metadata.FirstCoveringUnique | src/video_selector.cpp:70-80 | the first member whose range holds a verse is unique |
| Metadata.ScanBounds | src/video_selector.cpp:70-83 | the scan gives `(-1, -1)`, or bounds `0 <= start <= verse <= end` |
| Metadata.ScanBoundsFirst | src/video_selector.cpp:70-83 | the bounds scan gives `(-1, -1)` exactly when no dashed key holds the verse; otherwise it gives the bounds of the first key, in iteration order, that does |
| Metadata.ScanThemesFirst | src/video_selector.cpp:93-106 | the themes scan gives `[]` when no key holds the verse; otherwise it gives the theme list of that same first key |
| Metadata.ScanThemes | src/video_selector.cpp:93-106 | the scan of one surah's members in key order: members without a dash are skipped; the themes of the first member whose range holds the verse, or none (stated by Metadata.ScanThemesFirst) |
| Metadata.FindRangeForVerse | src/video_selector.cpp:86-107 | no themes when the surah is missing; otherwise the scan's themes (stated by Metadata.FindRangeForVerseFirst) |
| Metadata.FindRangeBoundsForVerse | src/video_selector.cpp:63-84 | the result is the sentinel or bounds holding the verse |
| Metadata.FindRangeBoundsForVerseFirst | src/video_selector.cpp:63-84 | `(-1, -1)` exactly when the surah is missing or none of its ranges holds the verse; otherwise the bounds of the first range that does |
| Metadata.FindRangeForVerseFirst | src/video_selector.cpp:86-107 | `[]` when no range holds the verse; otherwise the theme list of the first range that does |
| Metadata.BoundsAndThemesAgree | src/video_selector.cpp:63-107 | both lookups stop at the same entry; the sentinel goes with no themes |
| Metadata.ThemesOverMembership | src/video_selector.cpp:109-118 | a theme is gathered over `from..to` exactly when some verse in `from..to` lists it |
| Metadata.GetThemesForVerses | src/video_selector.cpp:109-118 | `getThemesForVerses` is strictly ascending (so has no duplicates) and holds exactly the themes of the verses `from..to`; it is empty when `from > to` |
| Metadata.InsertTheme | src/video_selector.cpp:114 | inserting a theme into the ascending set keeps it ascending; the members are the old ones plus the theme |
| Metadata.GatheredThemes | src/video_selector.cpp:109-118 | a sequence holding the gathered set holds exactly the themes some requested verse lists |
| Metadata.Parts | src/video_selector.cpp:45 | the parts `getline` yields: the comma-separated fields, without the empty one a trailing comma leaves |
| Metadata.Split | src/video_selector.cpp:45 | splitting at the commas gives at least one field, and no field holds a comma |
| Metadata.JoinSplit | src/video_selector.cpp:42-45 | joining the fields again with commas gives back the original text |
| Metadata.Interval | src/video_selector.cpp:50-52 | the loop `for i = start..end` covers exactly the integers `start <= v <= end` |
| Metadata.VersesOfMembership | src/video_selector.cpp:45-56 | a verse is named by the parts exactly when one part names it |
| Metadata.ParseVerseRange | src/video_selector.cpp:40-61 | the result is strictly ascending; it holds every `a <= v <= b` of each `a-b` part (none when `a > b`) and each bare number, and nothing else |
| Metadata.PartCollected | src/video_selector.cpp:46-55 | one part adds exactly the verses it names |
| Metadata.VersesOfStep | src/video_selector.cpp:45-56 | the verses of one more part are the earlier ones plus that part's verses |
| Metadata.GatheredVerses | src/video_selector.cpp:58-60 | sorting and deduplicating the collected verses keeps exactly the named verses |
| Segments.RangeKey | src/video_selector.cpp:130-132 | the key `"<surah>:<start>-<end>"` of a range, also the `verseRange` key `collectVideoSegments` builds for the request; keys are injective (Segments.RangeKeyInjective) |
| Segments.RangeKeyInjective | src/video_selector.cpp:130-134 | in one surah, two ranges with the same `"<surah>:<start>-<end>"` key have the same bounds |
| Segments.KeyShape | src/video_selector.h:35 | the key is the surah numeral, `":"`, the start numeral, `"-"` and the end numeral, as in `"19:10-15"` |
| Segments.CollectSkip | src/video_selector.cpp:127-128 | a verse with no range leaves the recorded map as it was |
| Segments.CollectNew | src/video_selector.cpp:134-141 | a verse whose key is new records the range clamped to `from..to`, with that verse's themes, under the key of the unclamped bounds |
| Segments.CollectKnown | src/video_selector.cpp:142-146 | a verse whose key is already recorded needs no new entry |
| Segments.SameKeySameBounds | src/video_selector.cpp:130-134 | two verses whose segments share a key were matched to the same bounds |
| Segments.CollectAgain | src/video_selector.cpp:142-146 | for an already recorded key, the update `max(end, min(bounds.second, to))` leaves the end verse where it is |
| Segments.CollectRanges | src/video_selector.cpp:126-147 | after the pass, every entry is the segment of the verse that first met its key, and every matched verse in `from..to` has its key recorded |
| Segments.InsertByStart | src/video_selector.cpp:154-157 | placing a segment by its start verse keeps the list sorted with distinct keys and adds exactly that segment |
| Segments.SortByStart | src/video_selector.cpp:150-157 | the map's values, each once, sorted by start verse |
| Segments.VersesBeforeSameSpans | src/video_selector.cpp:163-164 | the verse counts depend only on the segments' verse bounds |
| Segments.ShareAdd | src/video_selector.cpp:165-169 | the shares of `m` and of `n` verses add up to the share of `m + n` verses |
| Segments.FractionStep | src/video_selector.cpp:163-170 | each turn of the loop starts the segment at the running fraction, ends it one share later, and advances the running fraction to that end |
| Segments.FractionsFinish | src/video_selector.cpp:172-175 | after the loop, the last segment's end is forced to 1.0 |
| Segments.AssignTimeFractions | src/video_selector.cpp:159-175 | segment `i` starts at the share of the verses before it; a non-last segment ends at the share of the verses up to it; the last ends at 1.0 |
| Segments.CollectedSpans | src/video_selector.cpp:126-157 | the sorted segments lie in `from..to`, each is the clamped range of a matched verse, every matched verse's range has one, and there are none exactly when no verse matches |
| Segments.SpansForSameSpans | src/video_selector.cpp:163-175 | writing the fractions changes no verse span, theme list or key |
| Segments.AssignedIsTimed | src/video_selector.cpp:159-175 | the first segment starts at 0 and each starts at the share of the verses before it; each non-last segment is `(end - start + 1) / (to - from + 1)` wide and ends where the next starts; the last ends at exactly 1.0, so its width is `1.0 - start` |
| Segments.GetVerseRangeSegments | src/video_selector.cpp:120-178 | `getVerseRangeSegments` gives both the spans above and the fractions above |
| Segments.FirstWindow | src/video_selector.cpp:184-189 | the index of the first segment with `start <= f < end`, or none when no segment has one |
| Segments.RangeForTimePosition | src/video_selector.cpp:180-197 | the first segment whose window holds `f`; failing that, the last segment when `f` is at or past its start; otherwise none; always none for no segments; a result is an index into the segments |
| Segments.TiledOrdered | src/video_selector.h:33-34 | when the windows tile `[0, 1]`, an earlier window closes no later than a later one opens |
| Segments.WindowSelects | src/video_selector.cpp:180-197 | when the windows tile `[0, 1]`, a fraction inside a segment's window selects that segment |
| Segments.EndpointsSelect | src/video_selector.cpp:191-194 | when the windows tile `[0, 1]`, 0 selects the first segment and 1.0 the last |
| Tiling.BoundsEqualOrApart | src/video_selector.cpp:63-84 | when a surah's ranges do not overlap, two matched verses have equal bounds or disjoint bounds |
| Tiling.SegmentsApart | src/video_selector.cpp:126-157 | when ranges do not overlap, each segment ends before the next begins |
| Tiling.VersesBeforeBound | src/video_selector.cpp:160-169 | the verses counted before a segment are no more than the verses from `from` up to its start |
| Tiling.ShareBelowOne | src/video_selector.cpp:165 | the share of fewer verses than the request holds is in `[0, 1)` |
| Tiling.SharePositive | src/video_selector.cpp:165 | a positive verse count has a positive share |
| Tiling.StartsBelowOne | src/video_selector.h:33 | disjoint timed segments start within `[0, 1)` |
| Tiling.ApartTimedTile | src/video_selector.h:33-34 | disjoint timed segments tile `[0, 1]`: non-empty windows, each fraction in `[0, 1]` |
| Tiling.TimedSpansTile | src/video_selector.cpp:120-178 | when ranges do not overlap, the segments `getVerseRangeSegments` returns tile `[0, 1]`, as the header documents |
| Tiling.ThreeSpansTimes | src/video_selector.cpp:160-175 | three timed segments over verses 1..10 spanning 1-3 and 2-9 first: the second ends at 1.1 and the last window runs backwards to 1.0 |
| Tiling.OverlapBounds | src/video_selector.cpp:63-84 | on the surah with members `"1-3"`, `"10-10"`, `"2-9"` (well formed, in key order), verses 1..3 match 1-3, verses 4..9 match 2-9 and verse 10 matches 10-10 |
| Tiling.OverlapSpans | src/video_selector.cpp:126-157 | on that surah, every segment for verses 1..10 is one of the three clamped ranges, and each of the three keys is present |
| Tiling.OverlapOrder | src/video_selector.cpp:150-157 | sorted by start under distinct keys, those segments are exactly 1-3, 2-9, 10-10 in that order |
| Tiling.OverlapLeavesUnitInterval | src/video_selector.cpp:120-178 | on that surah, whatever `getVerseRangeSegments` returns for verses 1..10 has three segments, the second ending at 1.1 and the last window running backwards |
| Tiling.OverlapExample | src/video_selector.cpp:120-178 | `getVerseRangeSegments(1, 1, 10)` on that surah yields the reversed last window |
| Tiling.SomeWindow | src/video_selector.cpp:184-189 | over a tiling, a fraction below 1 at or after segment `i`'s start is in some window from `i` on |
| Tiling.UnitIntervalSelects | src/video_selector.cpp:180-197 | over a tiling, every fraction in `[0, 1)` selects a segment whose window holds it |
| Selection.Touch | src/video_selector.cpp:254 | `operator[]` adds a key with an empty set if the key is missing, and changes no set |
| Selection.NotIn | src/video_selector.cpp:257-261 | the candidates not in the set, and only those |
| Selection.WithVideos | src/video_selector.cpp:230-235 | the themes whose cached listing exists and is not empty, and only those |
| Selection.Available | src/video_selector.cpp:213-222 | the themes with videos that are not exhausted, and only those |
| Selection.ThemePool | src/video_selector.cpp:254-266 | `selectTheme`'s candidates: the themes not exhausted under the key, in order, or all themes when none is left (stated by Selection.ThemePoolChoice) |
| Selection.RangeThemePool | src/video_selector.cpp:209-240 | `selectThemeForRange`'s candidates: the range's themes with videos not exhausted, or all its themes with videos when none is left (stated by Selection.RangeThemePoolChoice) |
| Selection.VideoPool | src/video_selector.cpp:278-293 | `selectVideoFromTheme`'s candidates: the unused videos, in order, or all videos when every one is used (stated by Selection.VideoPoolChoice) |
| Selection.NextUsed | src/video_selector.cpp:288-297 | the theme's used set after the pick: the pick added, to an emptied set when every video was used (stated by Selection.VideoPoolChoice) |
| Selection.ThemePoolChoice | src/video_selector.cpp:246-269 | `selectTheme`'s candidates are non-empty for non-empty input; they are input themes; they are not exhausted whenever such a theme exists; they are all themes once every theme is exhausted |
| Selection.RangeThemePoolChoice | src/video_selector.cpp:199-244 | `selectThemeForRange`'s candidates are range themes with videos; they are not exhausted whenever such a theme exists; there are none exactly when no range theme has videos |
| Selection.VideoPoolChoice | src/video_selector.cpp:271-300 | the pick is one of the videos; if some video was unused, the pick was unused and the used set grows by exactly that video; if all were used, the set becomes exactly `{pick}` |
| Selection.NoRepeatUntilExhausted | src/video_selector.cpp:271-300 | successive picks of one theme repeat no video and reuse none already used, as long as they do not outnumber the unused videos (so N calls over N distinct videos from an empty set give N distinct videos) |
| Selection.FilterNotIn | src/video_selector.cpp:279-286 | the filtering loop keeps the candidates not in the set, in order |
| Selection.FilterAvailable | src/video_selector.cpp:212-222 | the first loop of `selectThemeForRange` keeps the themes with videos that are not exhausted, in order |
| Selection.FilterWithVideos | src/video_selector.cpp:229-235 | the rebuilding loop keeps the themes with videos, in order |
| Selection.SelectionState.constructor | src/video_selector.h:23-26 | both maps start empty |
| Selection.Selector.constructor | src/video_selector.h:40 | the chooser starts with no draws, from the seed given or 99 by default |
| Selection.Selector.SelectThemeForRange | src/video_selector.cpp:199-244 | no themes: fails, state unchanged. Otherwise the range's key gets an entry; it is cleared when no theme is available. Fails when no theme has videos; otherwise picks from the candidates. `usedVideos` never changes |
| Selection.Selector.SelectTheme | src/video_selector.cpp:246-269 | no themes: fails, state unchanged. Otherwise it picks from the themes not exhausted under the key, or all of them after clearing that key alone. It does not record the pick and does not touch `usedVideos` |
| Selection.Selector.SelectVideoFromTheme | src/video_selector.cpp:271-300 | no videos: fails, state unchanged. Otherwise it picks an unused video, or any video after clearing the theme's set, and records the pick. Other themes and `exhaustedThemesPerRange` are unchanged |
| Collector.SumAppend | src/background_video_manager.cpp:142-144 | appending a segment adds its duration to the total |
| Collector.Touched | src/background_video_manager.cpp:146-156 | the scan's `operator[]` only adds empty entries, for themes with videos, and changes no set |
| Collector.CheckAllExhausted | src/background_video_manager.cpp:146-156 | true exactly when every theme with a non-empty cached listing has `used.size() >= listing.size()`; `exhaustedThemesPerRange` is unchanged |
| Collector.KeptAppend | src/background_video_manager.cpp:137-142 | a segment with positive duration, local, of a theme of the request keeps every segment such |
| Collector.TracksFetched | src/background_video_manager.cpp:101-102 | after a fetch, the listed themes are still distinct and still exactly the cached ones |
| Collector.Keep | src/background_video_manager.cpp:136-144 | the segment is appended; the total grows by its duration and stays the sum of the durations |
| Collector.Cleared | src/video_selector.cpp:254-266 | the exhausted-themes map after `selectTheme` under the request key: the key gets an entry, emptied when no theme was left |
| Collector.Manager.constructor | src/background_video_manager.cpp:17-22 | the manager holds the configuration and options it reads; its selection state starts empty |
| Collector.Manager.ThemesOfRequest | src/background_video_manager.cpp:51-60 | exactly the themes of the requested verses, in both directions, strictly ascending in byte order as `std::set` yields them; empty exactly when those verses have no themes |
| Collector.Manager.PickTheme | src/background_video_manager.cpp:91-109 | the theme is `selectTheme`'s candidate at the drawn index, one draw recorded; not exhausted whenever one remains; its listing is fetched only when not yet cached; the new exhausted map is `selectTheme`'s, plus the theme under `"<surah>:<from>-<to>"` exactly when its first listing is empty, which skips the turn; `usedVideos` is unchanged |
| Collector.Manager.TakeTurn | src/background_video_manager.cpp:91-142 | the theme is `selectTheme`'s candidate at the first drawn index, not exhausted whenever one remains; a picked video is `selectVideoFromTheme`'s candidate among the unused ones (all when none is left) at the second drawn index, unused whenever one remains; the chooser records exactly those one or two draws; a kept segment is the downloaded file with its probed positive length; a picked video updates `usedVideos[theme]` exactly as `selectVideoFromTheme` does, and stays recorded when the turn is then skipped; with no pick `usedVideos` is unchanged; a cached empty listing fails with `NoVideosInTheme`; the new exhausted map is `PickTheme`'s; a failure is a missing video or a failed download |
| Collector.Manager.Round | src/background_video_manager.cpp:91-162 | one pass of the loop body keeps the loop's invariant; the segments grow by exactly the turn's clip; the theme and video are the chooser's draws (`ThemeDrawn`, `VideoDrawn`: unexhausted and unused whenever possible) and exactly those draws are recorded; the reset fires exactly when a clip was kept short of the target with every theme used up after the turn's pick; the new `usedVideos` is the turn's update, then the check's empty entries, or empty after a reset; the new exhausted map is `selectTheme`'s clear, plus an empty-listing theme, with the request's set emptied after a reset; used sets that held only listed videos still do |
| Collector.Manager.Absorb | src/background_video_manager.cpp:137-162 | after a turn, the fetched theme joins the log, a clip is kept, and the reset fires exactly when the clip was kept, the target is unmet and every theme with videos was used up; `usedVideos` becomes empty on a reset, gains only the check's empty entries after a kept clip, and is otherwise unchanged; the request's exhausted set is emptied on a reset and the map is otherwise unchanged |
| Collector.Manager.TakeClip | src/background_video_manager.cpp:111-142 | an empty listing fails with `NoVideosInTheme` and draws nothing; otherwise the video is `selectVideoFromTheme`'s candidate at the drawn index, a listed video, unused whenever one remains, with one draw recorded and `usedVideos[theme]` updated as `selectVideoFromTheme` does; a kept segment is its download with a positive probed length; a failure is an empty listing or a failed download; the exhausted map is unchanged |
| Collector.Manager.ResetIfExhausted | src/background_video_manager.cpp:146-162 | the reset fires exactly when every theme with a non-empty cached listing is used up and the total is below the target; then `usedVideos` is empty and the request's exhausted set cleared; otherwise only the entries the check read were created and the exhausted map is unchanged |
| Collector.Manager.CollectVideoSegments | src/background_video_manager.cpp:38-175 | see the list below the table |
| Collector.Manager.CollectVideoSegmentsCapped | src/background_video_manager.cpp:88-169 | the same loop with the safety limit counting every turn: at most 101 turns, with the same guarantees and no fuel |

`Collector.Manager.CollectVideoSegments` guarantees:

- With no themes for the verses, it fails before any selection and leaves the
  state unchanged.
- Segments it returns have a positive duration, are local, and carry a theme
  of the request.
- When at most 100 turns were taken, the segments reach the target.
- Every failure is one of the kinds listed above.
- The themes whose listing was fetched, in the order fetched (a ghost
  output), are distinct themes of the request, and they include the theme of
  every returned segment. The cache holds exactly those listings, so no
  listing is fetched twice.
- Under stalling collaborators it runs out of any fuel.
- On return, every used-video set holds only videos of its theme's listing
  in the store, provided that held on entry (it does for a fresh manager).

`Collector.Manager.CollectVideoSegmentsCapped` gives the same guarantees,
except that it never runs out of fuel: it takes at most 101 turns.

## Left out

- JSON parsing, the constructor's file-open failure (src/video_selector.cpp:33-37): the metadata is an already-parsed `ThemeMetadata` value.
- Metadata.WellFormedKey: `std::stoi` accepts leading spaces, a sign, and trailing text after the digits, and it throws on other input. The model admits only keys with a plain numeral on each side of the first dash; it has no `stoi` exception path.
- Metadata.ParseVerseRange: requires every part to be a numeral or `numeral-numeral`, for the same reason. The source's `parseVerseRange` is a private member that none of the modelled code calls.
- The `std::mt19937` and `std::uniform_int_distribution` draw sequence: the oracle abstracts it, and only the index range is specified.
- IEEE-754 doubles: fractions and durations are `real`, and the 1.0 override is an exact assignment. The `int` verse counts and `size()` widths are unbounded.
- Segments.SortByStart: `std::sort` is not stable. Segments that start at the same verse may come in any order, and the model leaves that order unspecified rather than fixing one.
- Tiling.TimedSpansTile: the `[0, 1]` range of the fractions is proved only for surahs whose ranges do not overlap. With overlapping ranges it fails: verses 1..10 under the keys `"1-3"`, `"10-10"` and `"2-9"` give windows ending at 0.3, 1.1 and 1.0 (Tiling.OverlapLeavesUnitInterval). The source has no guard against this; the metadata is presumably prepared without overlaps.
- `getThemesForVerses`, `getVerseRangeSegments`, `getRangeForTimePosition` and the two lookups are `Selector` members that only read the metadata. They are modelled as module-level functions and methods over the metadata value. `getRangeForTimePosition` returns an index, not a pointer.
- Collector.Manager.CollectVideoSegments: its loop need not terminate (see Findings), so it takes a `fuel` bound. Running out of fuel yields `Err(OutOfFuel)`, and no termination is claimed. It also returns the turn count `segmentCount` as an extra output, since the source keeps it internal.
- Collector.Manager.CollectVideoSegments, Collector.Manager.CollectVideoSegmentsCapped: the final selection state and the whole-run property that no video repeats until its theme is used up are stated only per turn, by `Collector.Manager.Round` and `Collector.Manager.TakeTurn` for each pass, and not summed over the run. The loops promise only that the used sets stay within the listings.
- Line 106 of src/background_video_manager.cpp writes to `selectionState_.exhaustedThemes[verseRange]`, and line 161 clears it. `SelectionState` (src/video_selector.h:23-26) has no such field. The model writes to `exhaustedThemesPerRange[verseRange]`, the set `selectTheme` reads.
- The store's `listVideosInTheme` and `downloadVideo`, and `getVideoDuration` (the libavformat probe), are the `Collaborators` functions. A throwing download is `None`, giving `Err(DownloadFailed)`. The local file name is left to the download function, which receives the turn number.
- The temporary directory and `tempFiles_` bookkeeping, the Manager's constructor beyond its fields, `cleanup`, `stitchVideos`, `prepareBackgroundVideo` and the video standardizer are left out: they are file-system and process I/O.
- All console logging.

## Findings

| source | as written | input that shows it | evidently intended | confidence | as-written member | corrected member |
|---|---|---|---|---|---|---|
| src/background_video_manager.cpp:103-108, 129-132, 164-168 | the skips at lines 107 and 131 go back to the loop head without reaching the "safety limit to prevent infinite loops" at line 165 | every theme lists videos and every download succeeds, but `getVideoDuration` returns 0 for every file, with a positive target: every turn is skipped, nothing is ever kept, and the loop downloads forever | the limit counts every turn, skipped ones included, so the loop ends after at most 101 turns | not executed | Collector.Manager.CollectVideoSegments | Collector.Manager.CollectVideoSegmentsCapped |
