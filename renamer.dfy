/**
 * `rename_subtitles` of subtitle-renamer.py: every subtitle of a matched pair is given the
 * name of its video with the extension replaced by `.srt`. In a dry run the renames are
 * only reported; otherwise each one is attempted in turn, and an `OSError` is reported
 * and does not stop the renames after it.
 */
module Renamer {
  import opened Options
  import opened Normalizer
  import opened PairMatcher

  /** The `OSError`s of `Path.rename` the model tells apart; `Refused` stands for all others. */
  datatype OSError = FileNotFound | FileExists | Refused

  /** What is reported for one pair: line 61, line 65 or line 67. */
  datatype Outcome =
    | Previewed(subtitle: String, target: String)
    | Renamed(subtitle: String, target: String)
    | Failed(subtitle: String, target: String, error: OSError)

  /** `os.path.splitext(video)[0] + '.srt'`, line 56. */
  function TargetName(video: String): (t: String)
    ensures IsSubtitle(t)
    ensures |t| == |Stem(video)| + 4 && t[..|t| - 4] == Stem(video)
  {
    Stem(video) + ".srt"
  }

  /** The root of a video name is not made of dots only, because its last character is not a dot. */
  lemma VideoStemHasNonDot(video: String)
    requires IsVideo(video)
    ensures exists j :: 0 <= j < |Stem(video)| && Stem(video)[j] != '.'
  {
    var root := Stem(video);
    var d := LastDot(video);
    assert 0 < d < |video| - 1;
    if |root| == |video| {
      assert root[|video| - 1] == video[|video| - 1] != '.';
    }
  }

  /**
   * The renamed subtitle keeps the video's root, so it has the video's key as well.
   */
  lemma TargetKeepsKey(video: String)
    requires IsVideo(video)
    ensures Stem(TargetName(video)) == Stem(video)
    ensures CleanFilename(TargetName(video)) == CleanFilename(video)
  {
    VideoStemHasNonDot(video);
    StemOfExtended(Stem(video), ".srt");
  }

  /**
   * The names of one directory. `replacesExisting` tells whether a rename onto an existing
   * name replaces it (POSIX `rename`) or fails with `FileExistsError` (Windows).
   */
  class Directory {
    var files: set<String>
    /** Every rename attempted so far, in order. */
    ghost var attempts: seq<(String, String)>
    const replacesExisting: bool

    constructor (files0: set<String>, replacing: bool)
      ensures files == files0 && attempts == [] && replacesExisting == replacing
    {
      files := files0;
      attempts := [];
      replacesExisting := replacing;
    }

    /**
     * `old_path.rename(new_path)`, lines 57-58 and 64: a missing source raises
     * `FileNotFoundError`; an existing target raises `FileExistsError` unless it is
     * replaced; any other failure (permissions, a directory in the way) may happen or not.
     */
    method Rename(src: String, dst: String) returns (error: Option<OSError>)
      modifies this
      ensures attempts == old(attempts) + [(src, dst)]
      ensures src !in old(files) ==> error == Some(FileNotFound)
      ensures src in old(files) && dst in old(files) && dst != src && !replacesExisting ==> error == Some(FileExists)
      ensures error.Some? ==> files == old(files)
      ensures error.None? ==> src in old(files) && files == old(files) - {src} + {dst}
    {
      attempts := attempts + [(src, dst)];
      if src !in files {
        error := Some(FileNotFound);
      } else if dst in files && dst != src && !replacesExisting {
        error := Some(FileExists);
      } else {
        var permitted: bool :| true;
        if permitted {
          files := files - {src} + {dst};
          error := None;
        } else {
          error := Some(Refused);
        }
      }
    }
  }

  /** A new name for the subtitle of each video. */
  type Renaming = String -> String

  /** The renames the pairs call for, in order: each subtitle to the new name `target` gives its video. */
  function RenamesFor(target: Renaming, pairs: seq<(String, String)>): (r: seq<(String, String)>)
    ensures |r| == |pairs|
  {
    if pairs == [] then []
    else RenamesFor(target, pairs[..|pairs| - 1]) + [(pairs[|pairs| - 1].0, target(pairs[|pairs| - 1].1))]
  }

  /** The renames lines 54-56 call for: each subtitle to its video's root plus `.srt`. */
  function Plan(pairs: seq<(String, String)>): (r: seq<(String, String)>)
    ensures |r| == |pairs|
  {
    RenamesFor(TargetName, pairs)
  }

  lemma {:induction false} RenamesForAt(target: Renaming, pairs: seq<(String, String)>, k: nat)
    requires k < |pairs|
    ensures RenamesFor(target, pairs)[k] == (pairs[k].0, target(pairs[k].1))
    decreases |pairs|
  {
    var n := |pairs| - 1;
    var prefix := pairs[..n];
    if k < n {
      RenamesForAt(target, prefix, k);
      assert prefix[k] == pairs[k];
    }
  }

  /** The k-th planned rename takes the k-th pair's subtitle to a `.srt` name after its video. */
  lemma PlanRenamesEachPair(pairs: seq<(String, String)>)
    ensures forall k :: 0 <= k < |pairs| ==> Plan(pairs)[k] == (pairs[k].0, TargetName(pairs[k].1))
  {
    forall k | 0 <= k < |pairs| ensures Plan(pairs)[k] == (pairs[k].0, TargetName(pairs[k].1)) {
      RenamesForAt(TargetName, pairs, k);
    }
  }

  /** The rename each outcome reports on, in order. */
  function Requests(outcomes: seq<Outcome>): (r: seq<(String, String)>)
    ensures |r| == |outcomes|
  {
    if outcomes == [] then []
    else
      var o := outcomes[|outcomes| - 1];
      Requests(outcomes[..|outcomes| - 1]) + [(o.subtitle, o.target)]
  }

  /** The names after the renames that succeeded, applied in order to `files`. */
  function Applied(files: set<String>, outcomes: seq<Outcome>): set<String>
  {
    if outcomes == [] then files
    else
      var before, o := Applied(files, outcomes[..|outcomes| - 1]), outcomes[|outcomes| - 1];
      if o.Renamed? then before - {o.subtitle} + {o.target} else before
  }

  /** The `k`-th request is the subtitle and target the `k`-th outcome reports on. */
  lemma {:induction false} RequestsReportEach(outcomes: seq<Outcome>)
    ensures forall k :: 0 <= k < |outcomes| ==>
      Requests(outcomes)[k] == (outcomes[k].subtitle, outcomes[k].target)
    decreases |outcomes|
  {
    if outcomes != [] {
      var n := |outcomes| - 1;
      var prefix := outcomes[..n];
      RequestsReportEach(prefix);
      assert Requests(outcomes) == Requests(prefix) + [(outcomes[n].subtitle, outcomes[n].target)];
      forall k | 0 <= k < n ensures Requests(outcomes)[k] == (outcomes[k].subtitle, outcomes[k].target) {
        assert prefix[k] == outcomes[k];
      }
    }
  }

  /**
   * An outcome `Path.rename` can produce when the directory holds `files`: a missing
   * subtitle fails with `FileNotFoundError`, and an existing other target fails with
   * `FileExistsError` unless renaming replaces it.
   */
  predicate PossibleOutcome(files: set<String>, replacing: bool, o: Outcome)
  {
    (o.subtitle !in files ==> o == Failed(o.subtitle, o.target, FileNotFound)) &&
    (o.subtitle in files && o.target in files && o.target != o.subtitle && !replacing ==>
      o == Failed(o.subtitle, o.target, FileExists))
  }

  /** Every outcome is possible for the names left by the renames before it. */
  predicate PossibleOutcomes(files: set<String>, replacing: bool, outcomes: seq<Outcome>)
    decreases |outcomes|
  {
    outcomes == [] ||
    var prefix := outcomes[..|outcomes| - 1];
    PossibleOutcomes(files, replacing, prefix) &&
    PossibleOutcome(Applied(files, prefix), replacing, outcomes[|outcomes| - 1])
  }

  /** `PossibleOutcomes` outcome by outcome: the `k`-th is possible for the names the first `k` leave. */
  lemma {:induction false} PossibleOutcomesEach(files: set<String>, replacing: bool, outcomes: seq<Outcome>)
    requires PossibleOutcomes(files, replacing, outcomes)
    ensures forall k :: 0 <= k < |outcomes| ==> PossibleOutcome(Applied(files, outcomes[..k]), replacing, outcomes[k])
    decreases |outcomes|
  {
    if outcomes != [] {
      var n := |outcomes| - 1;
      var prefix := outcomes[..n];
      PossibleOutcomesEach(files, replacing, prefix);
      forall k | 0 <= k < n
        ensures PossibleOutcome(Applied(files, outcomes[..k]), replacing, outcomes[k])
      {
        assert prefix[..k] == outcomes[..k] && prefix[k] == outcomes[k];
      }
    }
  }

  lemma PossibleOutcomesStep(files: set<String>, replacing: bool, outcomes: seq<Outcome>, o: Outcome)
    requires PossibleOutcomes(files, replacing, outcomes)
    requires PossibleOutcome(Applied(files, outcomes), replacing, o)
    ensures PossibleOutcomes(files, replacing, outcomes + [o])
  {
    assert (outcomes + [o])[..|outcomes|] == outcomes;
  }

  /** Outcomes without a rename leave the names as they were. */
  lemma {:induction false} NothingRenamedNothingChanges(files: set<String>, outcomes: seq<Outcome>)
    requires forall k :: 0 <= k < |outcomes| ==> !outcomes[k].Renamed?
    ensures Applied(files, outcomes) == files
    decreases |outcomes|
  {
    if outcomes != [] {
      var prefix := outcomes[..|outcomes| - 1];
      assert forall k :: 0 <= k < |prefix| ==> prefix[k] == outcomes[k];
      NothingRenamedNothingChanges(files, prefix);
    }
  }

  /**
   * Two subtitles paired with the same video are both planned onto the video's root plus
   * `.srt`. Renames that report exactly that plan and all succeed are only possible where
   * renaming onto an existing name replaces it, and then the first subtitle is gone: the
   * directory holds one name fewer.
   */
  lemma SharedTargetLosesSubtitle(files: set<String>, replacing: bool, s1: String, s2: String, v: String,
                                  outcomes: seq<Outcome>)
    requires s1 in files && s2 in files && s1 != s2 && TargetName(v) !in files
    requires Requests(outcomes) == Plan([(s1, v), (s2, v)])
    requires PossibleOutcomes(files, replacing, outcomes)
    requires forall k :: 0 <= k < |outcomes| ==> outcomes[k].Renamed?
    ensures replacing
    ensures Applied(files, outcomes) == files - {s1, s2} + {TargetName(v)}
    ensures |Applied(files, outcomes)| == |files| - 1
  {
    var t := TargetName(v);
    PlanRenamesEachPair([(s1, v), (s2, v)]);
    RequestsReportEach(outcomes);
    assert outcomes[0] == Renamed(s1, t) && outcomes[1] == Renamed(s2, t);
    assert outcomes == [Renamed(s1, t), Renamed(s2, t)];
    TwoRenamesOntoOne(files, s1, s2, t);
    assert outcomes[..1] == [Renamed(s1, t)];
    assert s2 in Applied(files, outcomes[..1]) && t in Applied(files, outcomes[..1]);
    assert outcomes[..2][..1] == outcomes[..1];
    PossibleOutcomesEach(files, replacing, outcomes);
    assert PossibleOutcome(Applied(files, outcomes[..1]), replacing, outcomes[1]);
  }

  /** Two successful renames of different names onto one new name leave one name fewer. */
  lemma TwoRenamesOntoOne(files: set<String>, s1: String, s2: String, t: String)
    requires s1 in files && s2 in files && t !in files && s1 != s2
    ensures Applied(files, [Renamed(s1, t), Renamed(s2, t)]) == files - {s1, s2} + {t}
    ensures |Applied(files, [Renamed(s1, t), Renamed(s2, t)])| == |files| - 1
  {
    var first := [Renamed(s1, t)];
    assert Applied(files, first) == files - {s1} + {t} by {
      assert first[..0] == [];
    }
    assert [Renamed(s1, t), Renamed(s2, t)][..1] == first;
    assert files - {s1} + {t} - {s2} + {t} == files - {s1, s2} + {t};
    TwoForOne(files, s1, s2, t);
  }

  lemma TwoForOne(files: set<String>, s1: String, s2: String, t: String)
    requires s1 in files && s2 in files && t !in files && s1 != s2
    ensures |files - {s1, s2} + {t}| == |files| - 1
  {
    var rest := files - {s1, s2};
    assert files == rest + {s1, s2} && rest !! {s1, s2};
    assert t !in rest;
  }

  lemma PlanStep(pairs: seq<(String, String)>, i: nat)
    requires i < |pairs|
    ensures Plan(pairs[..i + 1]) == Plan(pairs[..i]) + [(pairs[i].0, TargetName(pairs[i].1))]
  {
    assert pairs[..i + 1][..i] == pairs[..i];
    assert Plan(pairs[..i + 1]) == RenamesFor(TargetName, pairs[..i + 1]);
  }

  lemma RecordStep(files: set<String>, outcomes: seq<Outcome>, o: Outcome)
    ensures Requests(outcomes + [o]) == Requests(outcomes) + [(o.subtitle, o.target)]
    ensures Applied(files, outcomes + [o]) ==
      if o.Renamed? then Applied(files, outcomes) - {o.subtitle} + {o.target} else Applied(files, outcomes)
  {
    assert (outcomes + [o])[..|outcomes|] == outcomes;
  }

  /**
   * Lines 55-67 for one pair: the subtitle `srt` is to be renamed after `video`. A dry run
   * previews the rename; otherwise the rename is attempted once and its outcome reported.
   */
  method RenamePair(dir: Directory, srt: String, video: String, dryRun: bool) returns (outcome: Outcome)
    modifies dir
    ensures outcome.subtitle == srt && outcome.target == TargetName(video)
    ensures outcome.Previewed? <==> dryRun
    ensures dryRun ==> dir.files == old(dir.files) && dir.attempts == old(dir.attempts)
    ensures !dryRun ==> dir.attempts == old(dir.attempts) + [(srt, TargetName(video))]
    ensures dir.files == if outcome.Renamed? then old(dir.files) - {srt} + {TargetName(video)} else old(dir.files)
    ensures !dryRun && srt !in old(dir.files) ==> outcome == Failed(srt, TargetName(video), FileNotFound)
    ensures (!dryRun && srt in old(dir.files) && TargetName(video) in old(dir.files) && TargetName(video) != srt &&
             !dir.replacesExisting) ==> outcome == Failed(srt, TargetName(video), FileExists)
    ensures outcome.Renamed? ==> srt in old(dir.files)
    ensures !dryRun ==> PossibleOutcome(old(dir.files), dir.replacesExisting, outcome)
  {
    var newName := TargetName(video);
    if dryRun {
      outcome := Previewed(srt, newName);
    } else {
      var error := dir.Rename(srt, newName);
      if error.None? {
        outcome := Renamed(srt, newName);
      } else {
        outcome := Failed(srt, newName, error.value);
      }
    }
  }

  /**
   * What the loop of lines 54-67 has done once it has handled `pairs`, starting from the
   * names `files0` and the attempts `attempts0`, with `outcomes` reported and `files` and
   * `attempts` the directory's state now.
   */
  ghost predicate Reported(files0: set<String>, attempts0: seq<(String, String)>, replacing: bool, dryRun: bool,
                           pairs: seq<(String, String)>, outcomes: seq<Outcome>,
                           files: set<String>, attempts: seq<(String, String)>)
  {
    Requests(outcomes) == Plan(pairs) &&
    (dryRun ==> files == files0 && attempts == attempts0) &&
    (!dryRun ==> attempts == attempts0 + Requests(outcomes)) &&
    (forall k :: 0 <= k < |outcomes| ==> (outcomes[k].Previewed? <==> dryRun)) &&
    files == Applied(files0, outcomes) &&
    (!dryRun ==> PossibleOutcomes(files0, replacing, outcomes))
  }

  /** One iteration of the loop of lines 54-67, given what `RenamePair` promises. */
  lemma ReportedStep(files0: set<String>, attempts0: seq<(String, String)>, replacing: bool, dryRun: bool,
                     pairs: seq<(String, String)>, i: nat, outcomes: seq<Outcome>,
                     files: set<String>, attempts: seq<(String, String)>,
                     o: Outcome, files': set<String>, attempts': seq<(String, String)>)
    requires i < |pairs| && Reported(files0, attempts0, replacing, dryRun, pairs[..i], outcomes, files, attempts)
    requires o.subtitle == pairs[i].0 && o.target == TargetName(pairs[i].1)
    requires o.Previewed? <==> dryRun
    requires dryRun ==> files' == files && attempts' == attempts
    requires !dryRun ==> attempts' == attempts + [(o.subtitle, o.target)]
    requires files' == if o.Renamed? then files - {o.subtitle} + {o.target} else files
    requires !dryRun ==> PossibleOutcome(files, replacing, o)
    ensures Reported(files0, attempts0, replacing, dryRun, pairs[..i + 1], outcomes + [o], files', attempts')
  {
    PlanStep(pairs, i);
    RecordStep(files0, outcomes, o);
    if !dryRun {
      PossibleOutcomesStep(files0, replacing, outcomes, o);
      ConcatAssoc(attempts0, Requests(outcomes), [(o.subtitle, o.target)]);
    }
    var longer := outcomes + [o];
    assert forall k :: 0 <= k < |outcomes| ==> longer[k] == outcomes[k];
  }

  /**
   * The loop of lines 54-67 over `pairs`. In a dry run nothing is attempted and every pair
   * is previewed; otherwise every pair's rename is attempted once, in order, and the names
   * change by the renames that succeeded.
   */
  method RenamePairs(dir: Directory, pairs: seq<(String, String)>, dryRun: bool) returns (outcomes: seq<Outcome>)
    modifies dir
    ensures Requests(outcomes) == Plan(pairs)
    ensures dryRun ==> dir.files == old(dir.files) && dir.attempts == old(dir.attempts)
    ensures !dryRun ==> dir.attempts == old(dir.attempts) + Requests(outcomes)
    ensures forall k :: 0 <= k < |outcomes| ==> (outcomes[k].Previewed? <==> dryRun)
    ensures dir.files == Applied(old(dir.files), outcomes)
    ensures !dryRun ==> PossibleOutcomes(old(dir.files), dir.replacesExisting, outcomes)
  {
    outcomes := [];
    var i := 0;
    while i < |pairs|
      invariant 0 <= i <= |pairs|
      invariant Reported(old(dir.files), old(dir.attempts), dir.replacesExisting, dryRun, pairs[..i], outcomes,
                         dir.files, dir.attempts)
    {
      ghost var files, attempts := dir.files, dir.attempts;
      var outcome := RenamePair(dir, pairs[i].0, pairs[i].1, dryRun);
      ReportedStep(old(dir.files), old(dir.attempts), dir.replacesExisting, dryRun, pairs, i, outcomes,
                   files, attempts, outcome, dir.files, dir.attempts);
      outcomes := outcomes + [outcome];
      i := i + 1;
    }
    assert pairs[..i] == pairs;
  }

  /** `rename_subtitles` over the names `listing` of directory `dir`, in listing order. */
  method RenameSubtitles(dir: Directory, matched: Matcher, listing: seq<String>, dryRun: bool)
    returns (outcomes: seq<Outcome>)
    requires ValidMatcher(matched)
    modifies dir
    ensures Requests(outcomes) ==
      Plan(MatchingPairs(Chooser(KeyRatio(matched), VideoFiles(listing)), SrtFiles(listing)))
    ensures dryRun ==> dir.files == old(dir.files) && dir.attempts == old(dir.attempts)
    ensures !dryRun ==> dir.attempts == old(dir.attempts) + Requests(outcomes)
    ensures forall k :: 0 <= k < |outcomes| ==> (outcomes[k].Previewed? <==> dryRun)
    ensures dir.files == Applied(old(dir.files), outcomes)
    ensures !dryRun ==> PossibleOutcomes(old(dir.files), dir.replacesExisting, outcomes)
  {
    var pairs := FindMatchingPairs(matched, listing);
    outcomes := RenamePairs(dir, pairs, dryRun);
  }
}
