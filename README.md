# subtitle-renamer, modelled in Dafny

`subtitle-renamer.py` renames the `.srt` subtitle files of a directory after the video
files they belong to. Each subtitle is paired with the video whose name is most
similar, and then takes that video's name with the extension replaced by `.srt`. Names
are compared by a key (`clean_filename`), which is worked out in five steps:

1. drop the extension;
2. delete standalone resolution tags (`720p`, `1080`);
3. delete standalone quality markers (`HD`, `SD`, `HQ`);
4. turn `.`, `_` and `-` into spaces;
5. lower-case the result and strip the surrounding whitespace.

Two keys are scored with difflib's `SequenceMatcher.ratio()`. A subtitle is paired with
its first best-scoring video, but only if that score exceeds 0.3. In a dry run the
renames are only reported; otherwise each one is attempted once, in order, and an
`OSError` is reported without stopping the renames after it.

The project is made of five modules:

- `Options`: the `Option` type.
- `Normalizer` (`normalizer.dfy`): `clean_filename`.
  - `os.path.splitext` is modelled as `Stem`.
  - Each `re.sub` is a left-to-right scanner (`Scan`) over the table of match lengths of
    its pattern.
  - The scanner is proved equal to a word-level reference definition, `RemoveTokens`.
    That definition deletes every maximal run of word characters that the pattern
    matches in full, and keeps everything else.
- `KeyExamples` (`key_examples.dfy`): two file names worked out through `CleanFilename`.
- `PairMatcher` (`matcher.dfy`): the two directory listings and the similarity ratio.
  - Pure functions specify the argmax of one subtitle's scores (`BestIndex`, `BestScore`)
    and the list of pairs (`MatchingPairs`).
  - The methods `BestMatch` (the inner loop) and `FindMatchingPairs` (the outer loop)
    are proved equal to those functions.
- `Renamer` (`renamer.dfy`): `rename_subtitles`.
  - A `Directory` object holds the names in the directory and a log of attempted
    renames, and its `Rename` method models `Path.rename`.
  - `RenamePair` (one pair), `RenamePairs` (the loop) and `RenameSubtitles` (the whole
    function) are proved against `Plan` (the renames asked for) and `Applied` (the
    names afterwards).

## Model

| member | source | states |
|---|---|---|
| `Normalizer.Stem` | subtitle-renamer.py:9 | The root is a prefix of the name. It is the whole name when there is no dot after a non-dot character. Otherwise it is cut at the last dot. |
| `Normalizer.StemOfExtended` | subtitle-renamer.py:9 | Take a root with a non-dot character and add one extension (a dot, then no further dot). The root of the result is that root again. |
| `Normalizer.SameRootSameKey` | subtitle-renamer.py:9 | Names that differ only in their extension have the same key, because the extension goes first. |
| `Normalizer.MatchOutsideWordStart` | subtitle-renamer.py:11-12 | Neither pattern matches inside a run of word characters, nor at a non-word character (this is what `\b` means). |
| `Normalizer.ResolutionMatchIsWord` | subtitle-renamer.py:11 | A match of `\b\d{3,4}p?\b` covers exactly one whole word run, and that run is a resolution tag. |
| `Normalizer.ResolutionTagIsMatched` | subtitle-renamer.py:11 | A word run that is a resolution tag (3-4 digits, then an optional `p` or `P`) is matched in full at its start. |
| `Normalizer.QualityMatchAtWordStart` | subtitle-renamer.py:12 | At a word start, the quality pattern matches exactly when the word run is one of the three markers in any case, and then covers the whole run. |
| `Normalizer.MatchAtWordStart` | subtitle-renamer.py:11-12 | For both patterns, at a word start the match covers the whole word run if the run is a token, and nothing otherwise. |
| `Normalizer.MatchesIsTokenTable` | subtitle-renamer.py:11-12 | The table of match lengths of either pattern has a whole-run entry at each word start that is a token, and zeros everywhere else. |
| `Normalizer.Scan` | subtitle-renamer.py:11-12 | Deleting matches never lengthens the string. |
| `Normalizer.ScanIsDropWords` | subtitle-renamer.py:11-12 | Scanning with such a table deletes exactly the word runs that are tokens, and copies every other character in order. |
| `Normalizer.SubstituteIsRemoveTokens` | subtitle-renamer.py:11-12 | Each of the two `re.sub` calls is equal to deleting the whole word runs that the pattern matches in full. |
| `Normalizer.DropWordsAppend` | subtitle-renamer.py:11-12 | Cut a string before a non-word character, or at its end. Word deletion then works on each side independently. |
| `Normalizer.DropWordsOfWord` | subtitle-renamer.py:11-12 | A single word run is deleted exactly when it is a token. |
| `Normalizer.StandaloneWord` | subtitle-renamer.py:11-12 | Take a word run with non-word characters or ends on both sides. It is deleted when it is a token and kept unchanged otherwise. The text around it is processed independently. |
| `Normalizer.ReplaceSeparators` | subtitle-renamer.py:14 | Same length. Every `.`, `_` and `-` becomes a space, and every other character stays. |
| `Normalizer.Lower` | subtitle-renamer.py:15 | Same length. Every character is lower-cased. |
| `Normalizer.LowerChar` | subtitle-renamer.py:15 | An upper-case letter becomes its lower-case form. Every other character is unchanged. |
| `Normalizer.Strip` | subtitle-renamer.py:15 | The result is the slice of the input after its leading whitespace. Only whitespace follows it in the input. It neither starts nor ends with whitespace. |
| `Normalizer.StripKeeps` | subtitle-renamer.py:15 | Stripping only removes characters. |
| `Normalizer.KeyAlphabet` | subtitle-renamer.py:14-15 | After steps 4 and 5 there is no separator and no upper-case letter left. |
| `Normalizer.CleanFilename` | subtitle-renamer.py:6-15 | The key contains no `.`, `_`, `-` and no upper-case letter, and has no whitespace at either end. |
| `Normalizer.CleanFilenameByWords` | subtitle-renamer.py:9-15 | The key is the root with resolution-tag words, then quality-marker words, deleted, then separators replaced, lower-cased and stripped. |
| `KeyExamples.StandaloneTagKey` | subtitle-renamer.py:6-15 | The key of `Movie.720p.mkv` is `movie`. |
| `KeyExamples.JoinedTagKey` | subtitle-renamer.py:6-15 | The key of `Movie_720p.mkv` is `movie 720p`: no `\b` falls between `_` and `7`, so the tag stays. |
| `PairMatcher.Suffix` | subtitle-renamer.py:27 | The suffix is empty, or it is a tail of the name that starts with its only dot. It is empty exactly when the last dot is the first or the last character, or there is no dot. |
| `PairMatcher.Filter` | subtitle-renamer.py:27-28 | A name is kept exactly when it is in the listing and passes the test. |
| `PairMatcher.FilterAppend` | subtitle-renamer.py:27-28 | Filtering keeps the listing's order. The filter of a concatenation is the concatenation of the filters. |
| `PairMatcher.VideoNameLength` | subtitle-renamer.py:27 | A video name has at least 5 characters. So the truth test `best_match` on line 44 never fails for a chosen video. |
| `PairMatcher.SubtitleIsNotVideo` | subtitle-renamer.py:27-28 | A name ending in `.srt` is never a video, so the two listings do not overlap. |
| `PairMatcher.SimilarityRatio` | subtitle-renamer.py:17-19 | The ratio `2M/T` of difflib lies between 0 and 1, and is 1 when both keys are empty. |
| `PairMatcher.AboveThreshold` | subtitle-renamer.py:44 | A ratio exceeds 0.3 exactly when both keys are empty or `20 M > 3 T`. |
| `PairMatcher.NoMatchScoresZero` | subtitle-renamer.py:19 | Keys with no matched character, not both empty, score 0. |
| `PairMatcher.Scores` | subtitle-renamer.py:36-38 | There is one score per video, in the videos' order: the ratio of the subtitle against that video. |
| `PairMatcher.BestIndex` | subtitle-renamer.py:32-42 | The chosen position is the first maximum, and its score is positive. It is `None` exactly when no score is above 0. |
| `PairMatcher.BestScore` | subtitle-renamer.py:33-42 | `best_ratio` is never negative. It is 0 or one of the scores. It is at least every score, unless it is 0 and every score is at most 0. So it is the larger of 0 and the largest score. |
| `PairMatcher.BestIndexIsFirstMaximum` | subtitle-renamer.py:36-42 | In both directions, the loop picks position `k` exactly when `k` is the first maximum with a positive score. |
| `PairMatcher.PairForIsFirstMaximum` | subtitle-renamer.py:32-45 | The subtitle is paired with the video at the first maximum when its score exceeds 0.3. With no first maximum, it is not paired. |
| `PairMatcher.NoPairAtOrBelowThreshold` | subtitle-renamer.py:44 | When every video scores at most 0.3, or there are no videos, the subtitle is not paired. |
| `PairMatcher.PairedVideoIsBest` | subtitle-renamer.py:40-45 | A paired video is one of the videos, at the first maximum, with a score above 0.3. |
| `PairMatcher.MatchingPairs` | subtitle-renamer.py:30-47 | There are never more pairs than subtitles. |
| `PairMatcher.Selected` | subtitle-renamer.py:31-45 | The positions of the paired subtitles are in range, strictly increasing, and include every subtitle that has a match. |
| `PairMatcher.MatchingPairsFollowSelection` | subtitle-renamer.py:31-45 | The `a`-th pair is the `a`-th selected subtitle with its video. So the pairs follow the subtitles' order, and no subtitle contributes twice. |
| `PairMatcher.MatchingPairsMembership` | subtitle-renamer.py:31-45 | `(s, v)` is a pair exactly when `s` is one of the subtitles and `v` is the video chosen for it. |
| `PairMatcher.SubtitlesPairedOnce` | subtitle-renamer.py:31-45 | With distinct subtitle names, no subtitle appears in two pairs. |
| `PairMatcher.NothingChosenNoPairs` | subtitle-renamer.py:44-45 | Subtitles without a match give no pairs. |
| `PairMatcher.PairsAreWellFormed` | subtitle-renamer.py:21-47 | Every pair is an `.srt` name of the listing and a video name of the listing, with a score above 0.3. |
| `PairMatcher.NoVideosNoPairs` | subtitle-renamer.py:36-45 | Without videos there are no pairs. |
| `PairMatcher.BestMatch` | subtitle-renamer.py:32-42 | The inner loop leaves `best_match` at the video of `BestIndex` and `best_ratio` at `BestScore`. |
| `PairMatcher.FindMatchingPairs` | subtitle-renamer.py:21-47 | `find_matching_pairs` returns `MatchingPairs` of the subtitles, with each subtitle's video chosen by its first maximum above the threshold. |
| `Renamer.TargetName` | subtitle-renamer.py:56 | The new name ends in `.srt`, and what comes before is the video's root. |
| `Renamer.VideoStemHasNonDot` | subtitle-renamer.py:56 | A video's root is not made of dots alone. |
| `Renamer.TargetKeepsKey` | subtitle-renamer.py:56 | The renamed subtitle has the video's root and the same key as the video. |
| `Renamer.Directory.Rename` | subtitle-renamer.py:57-64 | The attempt is logged. A missing source gives `FileNotFoundError`. An existing other target gives `FileExistsError` unless renaming replaces it. A failure changes nothing. A success removes the source and adds the target. |
| `Renamer.RenamesFor` | subtitle-renamer.py:54-56 | There is one rename per pair, for any way of naming the new subtitle. |
| `Renamer.RenamesForAt` | subtitle-renamer.py:54-56 | The `k`-th rename takes the `k`-th pair's subtitle to the new name of the `k`-th pair's video. |
| `Renamer.Plan` | subtitle-renamer.py:54-56 | There is one requested rename per pair. |
| `Renamer.PlanRenamesEachPair` | subtitle-renamer.py:54-56 | The `k`-th requested rename takes the `k`-th pair's subtitle to its video's root plus `.srt`. |
| `Renamer.RequestsReportEach` | subtitle-renamer.py:61-67 | The `k`-th reported rename is the subtitle and target of the `k`-th outcome. |
| `Renamer.PossibleOutcomesEach` | subtitle-renamer.py:63-67 | In a consistent run, each outcome fits the names the earlier renames left. A missing subtitle has failed with `FileNotFoundError`. An existing other target has failed with `FileExistsError` unless renaming replaces. |
| `Renamer.NothingRenamedNothingChanges` | subtitle-renamer.py:60-67 | If no pair is renamed, the directory is unchanged. |
| `Renamer.SharedTargetLosesSubtitle` | subtitle-renamer.py:54-65 | Two subtitles paired with one video are planned onto the same name. Renames that report this plan, fit the directory and all succeed force renaming to replace. One subtitle is then lost, and the directory holds one name fewer. |
| `Renamer.TwoRenamesOntoOne` | subtitle-renamer.py:64 | Two successful renames of different names onto one new name leave the names minus both sources plus the target, one name fewer. |
| `Renamer.RenamePair` | subtitle-renamer.py:55-67 | The outcome names the subtitle and its target. It is a preview exactly in a dry run, which changes nothing. Otherwise exactly one rename is attempted, and the names change only if it succeeds. A missing subtitle gives `Failed` with `FileNotFound`. An existing other target gives `Failed` with `FileExists` unless renaming replaces. `Renamed` needs the subtitle to exist. |
| `Renamer.RenamePairs` | subtitle-renamer.py:54-67 | The outcomes report exactly the planned renames, in order. A dry run previews all of them and changes nothing. Otherwise each one is attempted once, in order, and the directory ends as `Applied` to the successes. Each outcome is possible for the names the earlier renames left (`PossibleOutcomes`). |
| `Renamer.RenameSubtitles` | subtitle-renamer.py:49-67 | The same as `RenamePairs`, for the pairs `find_matching_pairs` gives for the listing. |

## Left out

- Printing: the three messages of lines 61, 65 and 67 are returned as `Outcome` values
  (`Previewed`, `Renamed`, `Failed`) in their order.
- The default `dry_run=True` of `rename_subtitles` (line 49): Dafny methods have no
  default arguments, so `RenameSubtitles` takes `dryRun` explicitly.
- The `__main__` block is not modelled. Note that it prints a dry-run banner but
  calls `rename_subtitles` with `dry_run=False`.
- Reading the directory: `Path.glob` is replaced by one listing of names, given as a
  parameter, in the order the file system returns them. Both listings are filtered
  from it.
  - Files and directories are not told apart; neither are they by `glob('*')`.
  - The `*.srt` pattern is compared case-sensitively, as on POSIX.
  - The listing is not tied to `Directory.files`: changes made to the directory by
    other programs are outside the model.
- Path joining (`video_path / srt`): names are single components within one directory.
  `Stem` therefore does not treat `/` or a drive letter the way `os.path.splitext` does.
- `PairMatcher.SimilarityRatio`: difflib's matching-block algorithm (including its
  autojunk heuristic) is not modelled. It enters as a function giving the number of
  matched characters, assumed only to be at most the length of either string.
  `ratio()` is computed from that count exactly, as a rational number. Float rounding
  of `2M/T` and of the constant 0.3 is not modelled.
- Unicode: `\w`, `\d`, `str.lower`, `str.strip` and `re.IGNORECASE` are modelled on
  ASCII letters, digits, `_` and the ASCII whitespace characters. Other Unicode letters,
  digits and spaces, and case mappings outside ASCII, are not modelled.
- `Renamer.Directory.Rename`: failures other than a missing source or an existing
  target (permissions, a directory in the way, a read-only file system) are chosen
  nondeterministically. The error text is not modelled.
- The inner loop (lines 36-42) and the loop body (lines 55-67) are separate methods
  (`BestMatch`, `RenamePair`) called from the outer loops.
