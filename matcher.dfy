/**
 * `find_matching_pairs` of subtitle-renamer.py: the directory listing is split into video
 * files and subtitle files, and every subtitle is paired with the first video whose key
 * (`CleanFilename`) is most similar to its own, provided that similarity exceeds 0.3.
 *
 * `difflib.SequenceMatcher` is not modelled; it enters as a function `matched` that gives
 * the number of matched characters of two strings, from which `SimilarityRatio` computes
 * `ratio()` exactly as difflib does (2 * matches / total length, 1.0 for two empty strings).
 */
module PairMatcher {
  import opened Options
  import opened Normalizer

  // ---------------------------------------------------------------------------
  // The two listings
  // ---------------------------------------------------------------------------

  /**
   * `pathlib.PurePath.suffix` of a single name component: from the last dot on, provided
   * that dot is neither the first nor the last character; otherwise empty.
   */
  function Suffix(name: String): (r: String)
    ensures r == [] || (2 <= |r| < |name| && r == name[|name| - |r|..])
    ensures r != [] ==> r[0] == '.' && forall j :: 1 <= j < |r| ==> r[j] != '.'
    ensures r == [] <==> LastDot(name) <= 0 || LastDot(name) == |name| - 1
  {
    var i := LastDot(name);
    if 0 < i < |name| - 1 then name[i..] else []
  }

  /** The extensions a video file may have, compared after lower-casing. */
  const VideoExtensions: set<String> := {".mp4", ".mkv", ".avi"}

  /** The test of the first list comprehension: `f.suffix.lower() in ('.mp4', '.mkv', '.avi')`. */
  predicate IsVideo(name: String)
  {
    Lower(Suffix(name)) in VideoExtensions
  }

  /** `fnmatch` of the pattern `*.srt`, which is case-sensitive on POSIX. */
  predicate IsSubtitle(name: String)
  {
    |name| >= 4 && name[|name| - 4..] == ".srt"
  }

  /** The names of `names` that satisfy `keep`, in their order. */
  function Filter(names: seq<String>, keep: String -> bool): (r: seq<String>)
    ensures |r| <= |names|
    ensures forall x :: x in r <==> x in names && keep(x)
  {
    if names == [] then []
    else Filter(names[..|names| - 1], keep) + (if keep(names[|names| - 1]) then [names[|names| - 1]] else [])
  }

  /** Filtering a concatenation filters each part and keeps them in order. */
  lemma {:induction false} FilterAppend(a: seq<String>, b: seq<String>, keep: String -> bool)
    ensures Filter(a + b, keep) == Filter(a, keep) + Filter(b, keep)
    decreases |b|
  {
    if b == [] {
      assert a + b == a;
    } else {
      var b', x := b[..|b| - 1], b[|b| - 1];
      assert (a + b)[..|a + b| - 1] == a + b';
      assert (a + b)[|a + b| - 1] == x;
      FilterAppend(a, b', keep);
      ConcatAssoc(Filter(a, keep), Filter(b', keep), if keep(x) then [x] else []);
    }
  }

  /** `video_files`, line 27. */
  function VideoFiles(listing: seq<String>): seq<String>
  {
    Filter(listing, IsVideo)
  }

  /** `srt_files`, line 28. */
  function SrtFiles(listing: seq<String>): seq<String>
  {
    Filter(listing, IsSubtitle)
  }

  /** A video name has a suffix after a non-empty stem, so it is never empty (the `best_match` truth test). */
  lemma VideoNameLength(name: String)
    requires IsVideo(name)
    ensures |name| >= 5
  {
  }

  /** No name is both a video and a subtitle. */
  lemma SubtitleIsNotVideo(name: String)
    requires IsSubtitle(name)
    ensures !IsVideo(name)
  {
    var n := |name|;
    assert name[n - 4] == '.' && name[n - 3] == 's' && name[n - 2] == 'r' && name[n - 1] == 't';
    var d := LastDot(name);
    assert d == n - 4;
    var x := Lower(Suffix(name));
    if n > 4 {
      assert Suffix(name) == name[n - 4..];
      assert x[1] == 's';
      assert x != ".mp4" && x != ".mkv" && x != ".avi" by {
        assert ".mp4"[1] == 'm' && ".mkv"[1] == 'm' && ".avi"[1] == 'a';
      }
    } else {
      assert x == [];
    }
  }

  // ---------------------------------------------------------------------------
  // similarity_ratio
  // ---------------------------------------------------------------------------

  /** The number of characters `SequenceMatcher(None, a, b)` matches in its matching blocks. */
  type Matcher = (String, String) -> nat

  /** Matching blocks are common to both strings, so there are never more matches than characters in either. */
  ghost predicate ValidMatcher(matched: Matcher)
  {
    forall a, b :: matched(a, b) <= |a| && matched(a, b) <= |b|
  }

  /** `SequenceMatcher(None, a, b).ratio()`, computed exactly. */
  function SimilarityRatio(matched: Matcher, a: String, b: String): (r: real)
    requires ValidMatcher(matched)
    ensures 0.0 <= r <= 1.0
    ensures |a| + |b| == 0 ==> r == 1.0
  {
    var total := |a| + |b|;
    if total == 0 then 1.0 else RatioBounds(matched(a, b), total); (2 * matched(a, b)) as real / total as real
  }

  lemma RatioBounds(m: nat, t: nat)
    requires 0 < t && 2 * m <= t
    ensures 0.0 <= (2 * m) as real / t as real <= 1.0
  {
  }

  lemma QuotientAbove(x: real, t: real, c: real)
    requires t > 0.0
    ensures x / t > c <==> x > c * t
  {
  }

  /** The threshold of line 44 in integer terms: more than 3 matched characters in every 20 of total length. */
  lemma AboveThreshold(matched: Matcher, a: String, b: String)
    requires ValidMatcher(matched)
    ensures SimilarityRatio(matched, a, b) > 0.3 <==>
      |a| + |b| == 0 || 20 * matched(a, b) > 3 * (|a| + |b|)
  {
    if |a| + |b| > 0 {
      QuotientAbove((2 * matched(a, b)) as real, (|a| + |b|) as real, 0.3);
    }
  }

  /** Two keys without a matched character and not both empty score 0. */
  lemma NoMatchScoresZero(matched: Matcher, a: String, b: String)
    requires ValidMatcher(matched)
    requires matched(a, b) == 0 && |a| + |b| > 0
    ensures SimilarityRatio(matched, a, b) == 0.0
  {
  }

  /** The score of a subtitle name against a video name. */
  type Similarity = (String, String) -> real

  /** The score of lines 34-38: the similarity ratio of the two names' keys. */
  function KeyRatio(matched: Matcher): Similarity
    requires ValidMatcher(matched)
  {
    (srt, video) => SimilarityRatio(matched, CleanFilename(srt), CleanFilename(video))
  }

  // ---------------------------------------------------------------------------
  // The inner loop: the best video for one subtitle
  // ---------------------------------------------------------------------------

  /** The score of subtitle `srt` against each video, in the order of the videos. */
  function Scores(score: Similarity, srt: String, videos: seq<String>): (r: seq<real>)
    ensures |r| == |videos|
    ensures forall k :: 0 <= k < |r| ==> r[k] == score(srt, videos[k])
  {
    seq(|videos|, k requires 0 <= k < |videos| => score(srt, videos[k]))
  }

  /**
   * Position `k` of `scores` is what the strict `>` update from `best_ratio = 0` picks:
   * a positive score, no smaller than any other, and larger than every earlier one.
   */
  predicate IsFirstMaximum(scores: seq<real>, k: nat)
  {
    k < |scores| && scores[k] > 0.0 &&
    (forall j :: 0 <= j < |scores| ==> scores[j] <= scores[k]) &&
    (forall j :: 0 <= j < k ==> scores[j] < scores[k])
  }

  /**
   * The index the loop of lines 36-42 leaves in `best_match`, scanning `scores` from the
   * front: it moves to a later position only when that score is strictly larger.
   */
  function BestIndex(scores: seq<real>): (r: Option<nat>)
    ensures r.Some? ==> IsFirstMaximum(scores, r.value)
    ensures r.None? <==> forall j :: 0 <= j < |scores| ==> scores[j] <= 0.0
    decreases |scores|
  {
    if scores == [] then None
    else
      var last := |scores| - 1;
      match BestIndex(scores[..last])
      case None => if scores[last] > 0.0 then Some(last) else None
      case Some(k) => if scores[last] > scores[k] then Some(last) else Some(k)
  }

  /** `best_ratio` after the loop over `scores`: the largest score, or 0 when no score is positive. */
  function BestScore(scores: seq<real>): (r: real)
    ensures forall j :: 0 <= j < |scores| ==> scores[j] <= r || (r == 0.0 && scores[j] <= 0.0)
    ensures r >= 0.0 && (r == 0.0 || exists k :: 0 <= k < |scores| && scores[k] == r)
  {
    match BestIndex(scores)
    case None => 0.0
    case Some(k) => scores[k]
  }

  /** A first maximum is unique: `BestIndex` is exactly the first maximum. */
  lemma BestIndexIsFirstMaximum(scores: seq<real>, k: nat)
    ensures BestIndex(scores) == Some(k) <==> IsFirstMaximum(scores, k)
  {
    if IsFirstMaximum(scores, k) {
      var b := BestIndex(scores).value;
      assert scores[b] == scores[k];
    }
  }

  /**
   * The video a subtitle is paired with (lines 32-45): the video at the first maximum of
   * the scores, when that video has a non-empty name and its score exceeds 0.3.
   */
  function PairFor(score: Similarity, srt: String, videos: seq<String>): Option<String>
  {
    var scores := Scores(score, srt, videos);
    match BestIndex(scores)
    case None => None
    case Some(k) => if videos[k] != [] && scores[k] > 0.3 then Some(videos[k]) else None
  }

  /** `PairFor` in terms of the first maximum of the scores, with no reference to the loop. */
  lemma PairForIsFirstMaximum(score: Similarity, srt: String, videos: seq<String>)
    ensures forall k: nat :: IsFirstMaximum(Scores(score, srt, videos), k) ==>
      PairFor(score, srt, videos) == if videos[k] != [] && score(srt, videos[k]) > 0.3 then Some(videos[k]) else None
    ensures (forall k: nat :: !IsFirstMaximum(Scores(score, srt, videos), k)) ==> PairFor(score, srt, videos).None?
  {
    var scores := Scores(score, srt, videos);
    forall k: nat | IsFirstMaximum(scores, k)
      ensures PairFor(score, srt, videos) == if videos[k] != [] && score(srt, videos[k]) > 0.3 then Some(videos[k]) else None
    {
      BestIndexIsFirstMaximum(scores, k);
    }
  }

  /** Nothing is paired when every video scores at most 0.3, in particular when there are no videos. */
  lemma NoPairAtOrBelowThreshold(score: Similarity, srt: String, videos: seq<String>)
    requires forall k :: 0 <= k < |videos| ==> score(srt, videos[k]) <= 0.3
    ensures PairFor(score, srt, videos) == None
  {
    var scores := Scores(score, srt, videos);
    match BestIndex(scores)
    case None =>
    case Some(k) =>
      assert scores[k] <= 0.3;
  }

  /** A paired video is one of the videos, at the first maximum of the scores, with a score above 0.3. */
  lemma PairedVideoIsBest(score: Similarity, srt: String, videos: seq<String>)
    requires PairFor(score, srt, videos).Some?
    ensures var v := PairFor(score, srt, videos).value;
      exists k: nat :: IsFirstMaximum(Scores(score, srt, videos), k) && videos[k] == v && score(srt, v) > 0.3
  {
    var scores := Scores(score, srt, videos);
    var k := BestIndex(scores).value;
    assert IsFirstMaximum(scores, k) && videos[k] == PairFor(score, srt, videos).value;
  }

  // ---------------------------------------------------------------------------
  // The outer loop: all pairs
  // ---------------------------------------------------------------------------

  /** For each subtitle name, the video it is paired with, if any. */
  type Choice = String -> Option<String>

  /** The choice of lines 32-44 among `videos`. */
  function Chooser(score: Similarity, videos: seq<String>): Choice
  {
    srt => PairFor(score, srt, videos)
  }

  /** The entry line 45 appends for `srt`, if any. */
  function PairOf(choice: Choice, srt: String): seq<(String, String)>
  {
    match choice(srt)
    case None => []
    case Some(v) => [(srt, v)]
  }

  /** `pairs` after the loop of lines 31-45 over the subtitles `srts`. */
  function MatchingPairs(choice: Choice, srts: seq<String>): (r: seq<(String, String)>)
    ensures |r| <= |srts|
  {
    if srts == [] then []
    else MatchingPairs(choice, srts[..|srts| - 1]) + PairOf(choice, srts[|srts| - 1])
  }

  /** The positions of the subtitles of `srts` that get a pair, in increasing order. */
  function Selected(choice: Choice, srts: seq<String>): (r: seq<nat>)
    ensures forall a :: 0 <= a < |r| ==> r[a] < |srts| && choice(srts[r[a]]).Some?
    ensures forall a, b :: 0 <= a < b < |r| ==> r[a] < r[b]
    ensures forall i :: 0 <= i < |srts| && choice(srts[i]).Some? ==> i in r
  {
    if srts == [] then []
    else
      var last := |srts| - 1;
      var prefix := srts[..last];
      assert forall i :: 0 <= i < last ==> prefix[i] == srts[i];
      Selected(choice, prefix) + (if choice(srts[last]).Some? then [last] else [])
  }

  /** Pair `a` belongs to the `a`-th selected subtitle, for every `a`. */
  predicate FollowsSelection(choice: Choice, srts: seq<String>)
  {
    var r, sel := MatchingPairs(choice, srts), Selected(choice, srts);
    |r| == |sel| &&
    forall a :: 0 <= a < |r| ==> sel[a] < |srts| && r[a] == (srts[sel[a]], choice(srts[sel[a]]).value)
  }

  lemma FollowsSelectionStep(choice: Choice, srts: seq<String>)
    requires srts != [] && FollowsSelection(choice, srts[..|srts| - 1])
    ensures FollowsSelection(choice, srts)
  {
    var last := |srts| - 1;
    var prefix := srts[..last];
    var r, sel := MatchingPairs(choice, srts), Selected(choice, srts);
    var r', sel' := MatchingPairs(choice, prefix), Selected(choice, prefix);
    if choice(srts[last]).Some? {
      assert r == r' + [(srts[last], choice(srts[last]).value)];
      assert sel == sel' + [last];
    } else {
      assert r == r' && sel == sel';
    }
    forall a | 0 <= a < |r| ensures sel[a] < |srts| && r[a] == (srts[sel[a]], choice(srts[sel[a]]).value) {
      if a < |r'| {
        assert r[a] == r'[a] && sel[a] == sel'[a] && prefix[sel'[a]] == srts[sel[a]];
      }
    }
  }

  /**
   * The pairs follow the subtitles in their order, one pair for each selected subtitle:
   * a subtitle is listed at most once, and subtitles without a match are skipped.
   */
  lemma {:induction false} MatchingPairsFollowSelection(choice: Choice, srts: seq<String>)
    ensures var r, sel := MatchingPairs(choice, srts), Selected(choice, srts);
      |r| == |sel| &&
      forall a :: 0 <= a < |r| ==> r[a] == (srts[sel[a]], choice(srts[sel[a]]).value)
    decreases |srts|
  {
    if srts != [] {
      MatchingPairsFollowSelection(choice, srts[..|srts| - 1]);
      FollowsSelectionStep(choice, srts);
    }
  }

  /** A pair is in the result exactly when its subtitle is among `srts` and is paired with its video. */
  lemma {:induction false} MatchingPairsMembership(choice: Choice, srts: seq<String>, s: String, v: String)
    ensures (s, v) in MatchingPairs(choice, srts) <==> s in srts && choice(s) == Some(v)
    decreases |srts|
  {
    if srts != [] {
      var last := |srts| - 1;
      var prefix := srts[..last];
      assert srts == prefix + [srts[last]];
      MatchingPairsMembership(choice, prefix, s, v);
    }
  }

  /** Distinct subtitle names give distinct subtitles in the pairs. */
  lemma SubtitlesPairedOnce(choice: Choice, srts: seq<String>)
    requires forall i, j :: 0 <= i < j < |srts| ==> srts[i] != srts[j]
    ensures var r := MatchingPairs(choice, srts);
      forall a, b :: 0 <= a < b < |r| ==> r[a].0 != r[b].0
  {
    MatchingPairsFollowSelection(choice, srts);
    var sel := Selected(choice, srts);
    var r := MatchingPairs(choice, srts);
    forall a, b | 0 <= a < b < |r| ensures r[a].0 != r[b].0 {
      assert r[a].0 == srts[sel[a]] && r[b].0 == srts[sel[b]] && sel[a] < sel[b];
    }
  }

  /** Subtitles that get no video contribute nothing. */
  lemma {:induction false} NothingChosenNoPairs(choice: Choice, srts: seq<String>)
    requires forall i :: 0 <= i < |srts| ==> choice(srts[i]).None?
    ensures MatchingPairs(choice, srts) == []
    decreases |srts|
  {
    if srts != [] {
      var prefix := srts[..|srts| - 1];
      assert forall i :: 0 <= i < |prefix| ==> prefix[i] == srts[i];
      NothingChosenNoPairs(choice, prefix);
    }
  }

  /** Every pair of a listing is a subtitle of the listing and a video of the listing with a score above 0.3. */
  lemma PairsAreWellFormed(score: Similarity, listing: seq<String>, s: String, v: String)
    requires (s, v) in MatchingPairs(Chooser(score, VideoFiles(listing)), SrtFiles(listing))
    ensures s in listing && IsSubtitle(s)
    ensures v in listing && IsVideo(v)
    ensures score(s, v) > 0.3
  {
    MatchingPairsMembership(Chooser(score, VideoFiles(listing)), SrtFiles(listing), s, v);
    PairedVideoIsBest(score, s, VideoFiles(listing));
  }

  /** A listing without videos gives no pairs. */
  lemma NoVideosNoPairs(score: Similarity, srts: seq<String>)
    ensures MatchingPairs(Chooser(score, []), srts) == []
  {
    forall i | 0 <= i < |srts| ensures Chooser(score, [])(srts[i]).None? {
      NoPairAtOrBelowThreshold(score, srts[i], []);
    }
    NothingChosenNoPairs(Chooser(score, []), srts);
  }

  // ---------------------------------------------------------------------------
  // find_matching_pairs
  // ---------------------------------------------------------------------------

  /** The `Option` counterpart of a chosen index: the video name that `best_match` holds. */
  function VideoAt(videos: seq<String>, k: Option<nat>): Option<String>
    requires k.Some? ==> k.value < |videos|
  {
    match k
    case None => None
    case Some(i) => Some(videos[i])
  }

  /** One step of the loop of lines 36-42: `best_match` and `best_ratio` after looking at position `j` as well. */
  lemma BestStep(videos: seq<String>, scores: seq<real>, j: nat)
    requires |scores| == |videos| && j < |scores|
    ensures var before, after := scores[..j], scores[..j + 1];
      VideoAt(videos, BestIndex(after)) ==
        (if scores[j] > BestScore(before) then Some(videos[j]) else VideoAt(videos, BestIndex(before))) &&
      BestScore(after) == (if scores[j] > BestScore(before) then scores[j] else BestScore(before))
  {
    assert scores[..j + 1][..j] == scores[..j];
  }

  /** Lines 44-45 applied to the result of the loop of lines 36-42 append what `PairOf` gives. */
  lemma PairOfFromLoop(score: Similarity, videos: seq<String>, srt: String, best: Option<String>, ratio: real)
    requires best == VideoAt(videos, BestIndex(Scores(score, srt, videos)))
    requires ratio == BestScore(Scores(score, srt, videos))
    ensures PairOf(Chooser(score, videos), srt) ==
      if best.Some? && best.value != [] && ratio > 0.3 then [(srt, best.value)] else []
  {
    assert Chooser(score, videos)(srt) == PairFor(score, srt, videos);
  }

  /** One step of the loop of lines 31-45. */
  lemma PairsStep(choice: Choice, srts: seq<String>, i: nat)
    requires i < |srts|
    ensures MatchingPairs(choice, srts[..i + 1]) == MatchingPairs(choice, srts[..i]) + PairOf(choice, srts[i])
  {
    assert srts[..i + 1][..i] == srts[..i];
  }

  /**
   * Lines 32-42 for one subtitle: the video with the best ratio to `srt` that the strict
   * `>` update settles on, and that ratio (0 and `None` when no video scores above 0).
   */
  method BestMatch(matched: Matcher, srt: String, videos: seq<String>) returns (bestMatch: Option<String>, bestRatio: real)
    requires ValidMatcher(matched)
    ensures bestMatch == VideoAt(videos, BestIndex(Scores(KeyRatio(matched), srt, videos)))
    ensures bestRatio == BestScore(Scores(KeyRatio(matched), srt, videos))
  {
    ghost var scores := Scores(KeyRatio(matched), srt, videos);
    bestMatch := None;
    bestRatio := 0.0;
    var cleanSrt := CleanFilename(srt);
    var j := 0;
    while j < |videos|
      invariant 0 <= j <= |videos|
      invariant bestMatch == VideoAt(videos, BestIndex(scores[..j]))
      invariant bestRatio == BestScore(scores[..j])
    {
      var video := videos[j];
      var cleanVideo := CleanFilename(video);
      var ratio := SimilarityRatio(matched, cleanSrt, cleanVideo);
      assert ratio == scores[j];
      BestStep(videos, scores, j);
      if ratio > bestRatio {
        bestRatio := ratio;
        bestMatch := Some(video);
      }
      j := j + 1;
    }
    assert scores[..j] == scores;
  }

  /** `find_matching_pairs` over the names of one directory listing, in listing order. */
  method FindMatchingPairs(matched: Matcher, listing: seq<String>) returns (pairs: seq<(String, String)>)
    requires ValidMatcher(matched)
    ensures pairs == MatchingPairs(Chooser(KeyRatio(matched), VideoFiles(listing)), SrtFiles(listing))
  {
    ghost var score := KeyRatio(matched);
    var videos := VideoFiles(listing);
    ghost var choice := Chooser(score, videos);
    var srts := SrtFiles(listing);
    pairs := [];
    var i := 0;
    while i < |srts|
      invariant 0 <= i <= |srts|
      invariant pairs == MatchingPairs(choice, srts[..i])
    {
      var srt := srts[i];
      var bestMatch, bestRatio := BestMatch(matched, srt, videos);
      PairOfFromLoop(score, videos, srt, bestMatch, bestRatio);
      PairsStep(choice, srts, i);
      if bestMatch.Some? && bestMatch.value != [] && bestRatio > 0.3 {
        pairs := pairs + [(srt, bestMatch.value)];
      }
      i := i + 1;
    }
    assert srts[..i] == srts;
  }
}
