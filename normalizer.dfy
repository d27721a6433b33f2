/**
 * The filename normaliser `clean_filename` of subtitle-renamer.py, restricted to ASCII.
 *
 * The key of a file name is computed in five steps, in this order:
 *  1. the extension is cut off, as `os.path.splitext` does (`Stem`);
 *  2. `re.sub(r'\b\d{3,4}p?\b', '', _, flags=re.IGNORECASE)` deletes resolution tags;
 *  3. `re.sub(r'\b(HD|SD|HQ)\b', '', _, flags=re.IGNORECASE)` deletes quality markers;
 *  4. every `.`, `_` and `-` becomes a space;
 *  5. the result is lower-cased (`str.lower`) and trimmed (`str.strip`).
 *
 * The two regular expressions are modelled as one left-to-right scanner (`Scan`) over
 * the table of the pattern's match lengths, following Python `re` semantics, and are proved equal to a word-level reference
 * (`RemoveTokens`, `DropWords`): a match can only ever be a whole run of word characters.
 */
module Normalizer {

  type String = seq<char>

  // ---------------------------------------------------------------------------
  // Character classes (ASCII)
  // ---------------------------------------------------------------------------

  predicate IsDigit(c: char) { '0' <= c <= '9' }

  predicate IsUpper(c: char) { 'A' <= c <= 'Z' }

  predicate IsLetter(c: char) { IsUpper(c) || 'a' <= c <= 'z' }

  /** A word character of `\w` and `\b`: a letter, a digit or the underscore. */
  predicate IsWordChar(c: char) { IsLetter(c) || IsDigit(c) || c == '_' }

  /** The characters that the third `re.sub` turns into a space. */
  predicate IsSeparator(c: char) { c == '.' || c == '_' || c == '-' }

  /** The ASCII characters `str.strip` removes: TAB..CR, the four separators 0x1C..0x1F, and space. */
  predicate IsSpace(c: char) { 9 <= c as int <= 13 || 28 <= c as int <= 32 }

  function LowerChar(c: char): (l: char)
    ensures !IsUpper(l)
    ensures IsUpper(c) ==> l as int == c as int + 32
    ensures !IsUpper(c) ==> l == c
  {
    if IsUpper(c) then (c as int + 32) as char else c
  }

  // ---------------------------------------------------------------------------
  // Step 1: os.path.splitext
  // ---------------------------------------------------------------------------

  /** Index of the last '.' in `s`, or -1 when there is none. */
  function LastDot(s: String): (r: int)
    ensures -1 <= r < |s|
    ensures r >= 0 ==> s[r] == '.'
    ensures forall j :: r < j < |s| ==> s[j] != '.'
  {
    if s == [] then -1
    else if s[|s| - 1] == '.' then |s| - 1
    else LastDot(s[..|s| - 1])
  }

  /**
   * The root that `os.path.splitext` returns. The extension starts at the last dot,
   * but only when some character before that dot is not a dot: the leading dots of a
   * name such as ".bashrc" or "..mkv" do not start an extension.
   */
  function Stem(name: String): (root: String)
    ensures |root| <= |name| && root == name[..|root|]
    // a proper root: the cut is at the last dot, and the root is not made of dots only
    ensures |root| < |name| ==>
      name[|root|] == '.' &&
      (forall j :: |root| < j < |name| ==> name[j] != '.') &&
      (exists j :: 0 <= j < |root| && name[j] != '.')
    // no extension: every dot of the name has only dots before it
    ensures |root| == |name| ==>
      forall j, k :: 0 <= j < k < |name| && name[k] == '.' ==> name[j] == '.'
  {
    var d := LastDot(name);
    if d > 0 && exists j :: 0 <= j < d && name[j] != '.' then name[..d] else name
  }

  /** Appending an extension (a dot, then no further dot) to a root that is not all dots is undone by `Stem`. */
  lemma StemOfExtended(root: String, ext: String)
    requires exists j :: 0 <= j < |root| && root[j] != '.'
    requires |ext| >= 1 && ext[0] == '.' && forall j :: 1 <= j < |ext| ==> ext[j] != '.'
    ensures Stem(root + ext) == root
  {
    var name := root + ext;
    assert name[|root|] == '.';
    assert forall j :: |root| < j < |name| ==> name[j] == ext[j - |root|];
    assert LastDot(name) == |root|;
    var j :| 0 <= j < |root| && root[j] != '.';
    assert name[j] != '.';
    assert name[..|root|] == root;
  }

  // ---------------------------------------------------------------------------
  // Steps 2 and 3: the two regular expressions
  // ---------------------------------------------------------------------------

  /** The two patterns that are deleted: `\b\d{3,4}p?\b` and `\b(HD|SD|HQ)\b`, both case-insensitive. */
  datatype Pattern = Resolution | QualityMarker

  /** Python's `\b` at position `i` of `s`: a word character on exactly one side. */
  predicate AtBoundary(s: String, i: nat)
    requires i <= |s|
  {
    (i > 0 && IsWordChar(s[i - 1])) != (i < |s| && IsWordChar(s[i]))
  }

  /** `n` digits start at position `i`. */
  predicate DigitsAt(s: String, i: nat, n: nat)
  {
    i + n <= |s| && forall j :: i <= j < i + n ==> IsDigit(s[j])
  }

  /** A `p`, in either case, stands at position `i`. */
  predicate LetterPAt(s: String, i: nat)
  {
    i < |s| && (s[i] == 'p' || s[i] == 'P')
  }

  predicate AllDigits(w: String)
  {
    forall j :: 0 <= j < |w| ==> IsDigit(w[j])
  }

  /** A word that `\d{3,4}p?` matches in full, `p` in either case. */
  predicate IsResolutionTag(w: String)
  {
    ((|w| == 3 || |w| == 4) && AllDigits(w)) ||
    ((|w| == 4 || |w| == 5) && AllDigits(w[..|w| - 1]) && (w[|w| - 1] == 'p' || w[|w| - 1] == 'P'))
  }

  /** A word that `HD|SD|HQ` matches in full, ignoring case. */
  predicate IsQualityMarker(w: String)
  {
    |w| == 2 &&
    var a, b := LowerChar(w[0]), LowerChar(w[1]);
    (a == 'h' && b == 'd') || (a == 's' && b == 'd') || (a == 'h' && b == 'q')
  }

  predicate IsToken(p: Pattern, w: String)
  {
    match p
    case Resolution => IsResolutionTag(w)
    case QualityMarker => IsQualityMarker(w)
  }

  /**
   * The length of the match of `\b\d{3,4}p?\b` that starts at position `i`, or 0 when
   * there is none. The alternatives are tried in the order of `re`'s greedy
   * backtracking: four digits before three, each with the `p` before without it.
   */
  function ResolutionMatch(s: String, i: nat): (n: nat)
    requires i <= |s|
    ensures i + n <= |s|
  {
    if !AtBoundary(s, i) then 0
    else if DigitsAt(s, i, 4) && LetterPAt(s, i + 4) && AtBoundary(s, i + 5) then 5
    else if DigitsAt(s, i, 4) && AtBoundary(s, i + 4) then 4
    else if DigitsAt(s, i, 3) && LetterPAt(s, i + 3) && AtBoundary(s, i + 4) then 4
    else if DigitsAt(s, i, 3) && AtBoundary(s, i + 3) then 3
    else 0
  }

  /** The length of the match of `\b(HD|SD|HQ)\b` that starts at position `i`, or 0. */
  function QualityMatch(s: String, i: nat): (n: nat)
    requires i <= |s|
    ensures i + n <= |s|
  {
    if AtBoundary(s, i) && i + 2 <= |s| && IsQualityMarker(s[i..i + 2]) && AtBoundary(s, i + 2) then 2 else 0
  }

  function MatchLength(p: Pattern, s: String, i: nat): (n: nat)
    requires i <= |s|
    ensures i + n <= |s|
  {
    match p
    case Resolution => ResolutionMatch(s, i)
    case QualityMarker => QualityMatch(s, i)
  }

  /** The length of the match of `p` at every position 0..|s| of `s`. */
  function Matches(p: Pattern, s: String): (m: seq<nat>)
    ensures Fits(s, m)
  {
    seq(|s| + 1, j requires 0 <= j <= |s| => MatchLength(p, s, j))
  }

  /** A table of match lengths for `s`: one entry per position, no match running past the end. */
  predicate Fits(s: String, m: seq<nat>)
  {
    |m| == |s| + 1 && forall j :: 0 <= j <= |s| ==> j + m[j] <= |s|
  }

  /**
   * The loop of `re.sub(pattern, '', s)`, given the length `m[i]` of the pattern's match
   * at each position `i`: a match is dropped and scanning resumes after it; where
   * nothing matches one character is copied. Because the table is computed on the input,
   * word boundaries are judged on `s`, not on what has been produced so far.
   */
  function Scan(s: String, m: seq<nat>, i: nat): (r: String)
    requires Fits(s, m) && i <= |s|
    ensures |r| <= |s| - i
    decreases |s| - i
  {
    if i == |s| then []
    else if m[i] > 0 then Scan(s, m, i + m[i])
    else [s[i]] + Scan(s, m, i + 1)
  }

  /** `re.sub(pattern, '', s, flags=re.IGNORECASE)` for one of the two patterns. */
  function Substitute(p: Pattern, s: String): String
  {
    Scan(s, Matches(p, s), 0)
  }

  // ---------------------------------------------------------------------------
  // The word-level reference
  // ---------------------------------------------------------------------------

  /** The length of the run of word characters that starts at position `i`. */
  function WordLength(s: String, i: nat): (n: nat)
    requires i <= |s|
    ensures i + n <= |s|
    ensures forall j :: i <= j < i + n ==> IsWordChar(s[j])
    ensures i + n == |s| || !IsWordChar(s[i + n])
    decreases |s| - i
  {
    if i < |s| && IsWordChar(s[i]) then 1 + WordLength(s, i + 1) else 0
  }

  /** Position `i` lies strictly inside a run of word characters. */
  predicate InsideWord(s: String, i: nat)
    requires i <= |s|
  {
    0 < i < |s| && IsWordChar(s[i - 1]) && IsWordChar(s[i])
  }

  /**
   * Reference definition: split `s` into maximal runs of word characters and single
   * other characters, and delete every word run `w` for which `drop(w)` holds.
   */
  function DropWords(drop: String -> bool, s: String): (r: String)
    decreases |s|
  {
    if s == [] then []
    else if !IsWordChar(s[0]) then [s[0]] + DropWords(drop, s[1..])
    else
      var n := WordLength(s, 0);
      (if drop(s[..n]) then [] else s[..n]) + DropWords(drop, s[n..])
  }

  /** The test for a whole word being a token of `p`, as a function value. */
  function TokenTest(p: Pattern): String -> bool
  {
    w => IsToken(p, w)
  }

  /** Delete every word run that is a token of `p` in full. */
  function RemoveTokens(p: Pattern, s: String): String
  {
    DropWords(TokenTest(p), s)
  }

  /** The three conditions of `WordLength` determine it. */
  lemma WordLengthUnique(s: String, i: nat, n: nat)
    requires i + n <= |s|
    requires forall j :: i <= j < i + n ==> IsWordChar(s[j])
    requires i + n == |s| || !IsWordChar(s[i + n])
    ensures WordLength(s, i) == n
  {
  }

  /** A match starts only at the first character of a word run and never anywhere else. */
  lemma MatchOutsideWordStart(p: Pattern, s: String, i: nat)
    requires i <= |s|
    requires i == |s| || !IsWordChar(s[i]) || InsideWord(s, i)
    ensures MatchLength(p, s, i) == 0
  {
  }

  /** `d` digits at `i`, with or without a `p` after them, ending at a boundary form a whole resolution tag. */
  lemma TagRun(s: String, i: nat, d: nat, withP: bool)
    requires d == 3 || d == 4
    requires DigitsAt(s, i, d)
    requires withP ==> LetterPAt(s, i + d)
    requires !withP ==> i + d <= |s|
    requires AtBoundary(s, i + d + (if withP then 1 else 0))
    ensures var k := d + (if withP then 1 else 0);
      WordLength(s, i) == k && IsResolutionTag(s[i..i + k])
  {
    var k := d + (if withP then 1 else 0);
    var w := s[i..i + k];
    assert forall j :: 0 <= j < k ==> w[j] == s[i + j];
    assert IsWordChar(s[i + k - 1]);
    WordLengthUnique(s, i, k);
    if withP {
      assert forall j :: 0 <= j < d ==> w[..d][j] == s[i + j];
      assert AllDigits(w[..|w| - 1]);
    } else {
      assert AllDigits(w);
    }
  }

  /** A resolution match at the start of a word run is the whole run, and the run is a resolution tag. */
  lemma ResolutionMatchIsWord(s: String, i: nat)
    requires i < |s| && IsWordChar(s[i])
    requires ResolutionMatch(s, i) > 0
    ensures var n := WordLength(s, i);
      ResolutionMatch(s, i) == n && IsResolutionTag(s[i..i + n])
  {
    if DigitsAt(s, i, 4) && LetterPAt(s, i + 4) && AtBoundary(s, i + 5) {
      TagRun(s, i, 4, true);
    } else if DigitsAt(s, i, 4) && AtBoundary(s, i + 4) {
      TagRun(s, i, 4, false);
    } else if DigitsAt(s, i, 3) && LetterPAt(s, i + 3) && AtBoundary(s, i + 4) {
      TagRun(s, i, 3, true);
    } else {
      TagRun(s, i, 3, false);
    }
  }

  /** A resolution tag that forms a whole word run is matched at its start. */
  lemma ResolutionTagIsMatched(s: String, i: nat)
    requires i < |s| && IsWordChar(s[i])
    requires i == 0 || !IsWordChar(s[i - 1])
    requires IsResolutionTag(s[i..i + WordLength(s, i)])
    ensures ResolutionMatch(s, i) > 0
  {
    var n := WordLength(s, i);
    var w := s[i..i + n];
    assert forall j :: 0 <= j < n ==> w[j] == s[i + j];
    assert AtBoundary(s, i);
    assert AtBoundary(s, i + n);
    if (n == 3 || n == 4) && AllDigits(w) {
      assert DigitsAt(s, i, n);
      if n == 3 {
        assert !DigitsAt(s, i, 4) && !LetterPAt(s, i + 3);
      } else {
        assert !LetterPAt(s, i + 4);
      }
    } else {
      var d := w[..n - 1];
      assert forall j :: 0 <= j < n - 1 ==> IsDigit(d[j]);
      assert forall j :: i <= j < i + n - 1 ==> s[j] == d[j - i];
      assert DigitsAt(s, i, n - 1);
      assert LetterPAt(s, i + n - 1);
      if n == 4 {
        assert !DigitsAt(s, i, 4);
      }
    }
  }

  /** A quality-marker match at the start of a word run is the whole run, and conversely. */
  lemma QualityMatchAtWordStart(s: String, i: nat)
    requires i < |s| && IsWordChar(s[i])
    requires i == 0 || !IsWordChar(s[i - 1])
    ensures var n := WordLength(s, i);
      QualityMatch(s, i) == if IsQualityMarker(s[i..i + n]) then n else 0
  {
    var n := WordLength(s, i);
    if QualityMatch(s, i) > 0 {
      WordLengthUnique(s, i, 2);
    }
  }

  /** At the first character of a word run, a match is the whole run, and exactly when the run is a token. */
  lemma MatchAtWordStart(p: Pattern, s: String, i: nat)
    requires i < |s| && IsWordChar(s[i])
    requires i == 0 || !IsWordChar(s[i - 1])
    ensures var n := WordLength(s, i);
      MatchLength(p, s, i) == if IsToken(p, s[i..i + n]) then n else 0
  {
    match p
    case Resolution =>
      var n := WordLength(s, i);
      if ResolutionMatch(s, i) > 0 {
        ResolutionMatchIsWord(s, i);
      } else if IsResolutionTag(s[i..i + n]) {
        ResolutionTagIsMatched(s, i);
      }
    case QualityMarker =>
      QualityMatchAtWordStart(s, i);
  }

  /**
   * A match table that deletes whole word runs: at the first character of a word run it
   * holds the run's length when `drop` holds of the run and 0 otherwise; everywhere else
   * it holds 0.
   */
  predicate TokenTable(drop: String -> bool, s: String, m: seq<nat>)
  {
    Fits(s, m) &&
    (forall j {:trigger m[j]} :: 0 <= j <= |s| && (j == |s| || !IsWordChar(s[j]) || InsideWord(s, j)) ==> m[j] == 0) &&
    (forall j {:trigger m[j]} :: 0 <= j < |s| && IsWordChar(s[j]) && !InsideWord(s, j) ==>
      m[j] == if drop(s[j..j + WordLength(s, j)]) then WordLength(s, j) else 0)
  }

  /** The table computed from the two regular expressions is a token table. */
  lemma MatchesIsTokenTable(p: Pattern, s: String)
    ensures TokenTable(TokenTest(p), s, Matches(p, s))
  {
    var m := Matches(p, s);
    forall j | 0 <= j <= |s| && (j == |s| || !IsWordChar(s[j]) || InsideWord(s, j))
      ensures m[j] == 0
    {
      MatchOutsideWordStart(p, s, j);
    }
    forall j | 0 <= j < |s| && IsWordChar(s[j]) && !InsideWord(s, j)
      ensures m[j] == if IsToken(p, s[j..j + WordLength(s, j)]) then WordLength(s, j) else 0
    {
      MatchAtWordStart(p, s, j);
    }
  }

  /** Where the table holds no match the scanner copies the input. */
  lemma {:induction false} ScanCopies(s: String, m: seq<nat>, j: nat, e: nat)
    requires Fits(s, m)
    requires j <= e <= |s|
    requires forall k :: j <= k < e ==> m[k] == 0
    ensures Scan(s, m, j) == s[j..e] + Scan(s, m, e)
    decreases e - j
  {
    if j < e {
      assert m[j] == 0;
      assert Scan(s, m, j) == [s[j]] + Scan(s, m, j + 1);
      ScanCopies(s, m, j + 1, e);
      assert s[j..e] == [s[j]] + s[j + 1..e];
    }
  }

  /** The text a word run leaves behind: nothing when it is dropped, itself otherwise. */
  function Kept(drop: String -> bool, w: String): String
  {
    if drop(w) then [] else w
  }

  /** At a character that is not a word character the reference copies it. */
  lemma DropWordsAtNonWord(drop: String -> bool, s: String, i: nat)
    requires i < |s| && !IsWordChar(s[i])
    ensures DropWords(drop, s[i..]) == [s[i]] + DropWords(drop, s[i + 1..])
  {
    var t := s[i..];
    assert t[1..] == s[i + 1..];
  }

  /** At the first character of a word run the scanner keeps or drops the whole run, as the table says. */
  lemma ScanAtWord(drop: String -> bool, s: String, m: seq<nat>, i: nat)
    requires Fits(s, m)
    requires i < |s|
    requires m[i] == if drop(s[i..i + WordLength(s, i)]) then WordLength(s, i) else 0
    requires forall k :: i < k < i + WordLength(s, i) ==> m[k] == 0
    ensures Scan(s, m, i) == Kept(drop, s[i..i + WordLength(s, i)]) + Scan(s, m, i + WordLength(s, i))
  {
    var n := WordLength(s, i);
    if drop(s[i..i + n]) {
      assert Scan(s, m, i) == Scan(s, m, i + n);
    } else {
      ScanCopies(s, m, i, i + n);
    }
  }

  /** At a word run the reference keeps or drops the whole run. */
  lemma DropWordsAtWord(drop: String -> bool, s: String, i: nat)
    requires i < |s| && IsWordChar(s[i])
    ensures DropWords(drop, s[i..]) == Kept(drop, s[i..i + WordLength(s, i)]) + DropWords(drop, s[i + WordLength(s, i)..])
  {
    var n := WordLength(s, i);
    var t := s[i..];
    WordLengthUnique(t, 0, n);
    assert t[..n] == s[i..i + n];
    assert t[n..] == s[i + n..];
  }

  /** Scanner and reference agree from a non-word character on, given that they agree after it. */
  lemma NonWordStep(drop: String -> bool, s: String, m: seq<nat>, i: nat)
    requires TokenTable(drop, s, m)
    requires i < |s| && !IsWordChar(s[i])
    requires Scan(s, m, i + 1) == DropWords(drop, s[i + 1..])
    ensures Scan(s, m, i) == DropWords(drop, s[i..])
  {
    assert m[i] == 0;
    assert Scan(s, m, i) == [s[i]] + Scan(s, m, i + 1);
    DropWordsAtNonWord(drop, s, i);
  }

  /** Scanner and reference agree from the start of a word run on, given that they agree after the run. */
  lemma WordStep(drop: String -> bool, s: String, m: seq<nat>, i: nat)
    requires TokenTable(drop, s, m)
    requires i < |s| && IsWordChar(s[i]) && !InsideWord(s, i)
    requires Scan(s, m, i + WordLength(s, i)) == DropWords(drop, s[i + WordLength(s, i)..])
    ensures Scan(s, m, i) == DropWords(drop, s[i..])
  {
    var n := WordLength(s, i);
    assert m[i] == if drop(s[i..i + n]) then n else 0;
    assert forall k :: i < k < i + n ==> InsideWord(s, k) && m[k] == 0;
    ScanAtWord(drop, s, m, i);
    DropWordsAtWord(drop, s, i);
  }

  /** The scanner, started anywhere but inside a word, agrees with the word-level reference. */
  lemma {:induction false} ScanIsDropWords(drop: String -> bool, s: String, m: seq<nat>, i: nat)
    requires TokenTable(drop, s, m)
    requires i <= |s| && !InsideWord(s, i)
    ensures Scan(s, m, i) == DropWords(drop, s[i..])
    decreases |s| - i
  {
    if i == |s| {
      assert s[i..] == [];
    } else if !IsWordChar(s[i]) {
      ScanIsDropWords(drop, s, m, i + 1);
      NonWordStep(drop, s, m, i);
    } else {
      ScanIsDropWords(drop, s, m, i + WordLength(s, i));
      WordStep(drop, s, m, i);
    }
  }

  lemma SubstituteIsRemoveTokens(p: Pattern, s: String)
    ensures Substitute(p, s) == RemoveTokens(p, s)
  {
    MatchesIsTokenTable(p, s);
    ScanIsDropWords(TokenTest(p), s, Matches(p, s), 0);
    assert s[0..] == s;
  }

  lemma ConcatAssoc<T>(x: seq<T>, y: seq<T>, z: seq<T>)
    ensures (x + y) + z == x + (y + z)
  {
  }

  lemma SplitAppend(a: String, b: String, n: nat)
    requires n <= |a|
    ensures (a + b)[..n] == a[..n] && (a + b)[n..] == a[n..] + b
  {
  }

  /** The reference at a leading word run of length `n`, wherever that length comes from. */
  lemma DropWordsWordHead(drop: String -> bool, s: String, n: nat)
    requires 0 < n <= |s|
    requires forall j :: 0 <= j < n ==> IsWordChar(s[j])
    requires n == |s| || !IsWordChar(s[n])
    ensures DropWords(drop, s) == Kept(drop, s[..n]) + DropWords(drop, s[n..])
  {
    WordLengthUnique(s, 0, n);
  }

  /** `DropWordsAppend` when `a` starts with a non-word character, given the split after it. */
  lemma AppendAtNonWord(drop: String -> bool, a: String, b: String)
    requires a != [] && !IsWordChar(a[0])
    requires DropWords(drop, a[1..] + b) == DropWords(drop, a[1..]) + DropWords(drop, b)
    ensures DropWords(drop, a + b) == DropWords(drop, a) + DropWords(drop, b)
  {
    var s := a + b;
    assert s[0] == a[0];
    assert s[1..] == a[1..] + b;
    DropWordsAtNonWord(drop, s, 0);
    DropWordsAtNonWord(drop, a, 0);
    assert s[0..] == s && a[0..] == a;
    ConcatAssoc([a[0]], DropWords(drop, a[1..]), DropWords(drop, b));
  }

  /** `DropWordsAppend` when `a` starts with a word run, given the split after the run. */
  lemma AppendAtWord(drop: String -> bool, a: String, b: String)
    requires a != [] && IsWordChar(a[0])
    requires b == [] || !IsWordChar(a[|a| - 1]) || !IsWordChar(b[0])
    requires DropWords(drop, a[WordLength(a, 0)..] + b) == DropWords(drop, a[WordLength(a, 0)..]) + DropWords(drop, b)
    ensures DropWords(drop, a + b) == DropWords(drop, a) + DropWords(drop, b)
  {
    var s := a + b;
    var n := WordLength(a, 0);
    assert forall j :: 0 <= j < n ==> s[j] == a[j];
    if n < |a| {
      assert s[n] == a[n];
    } else if b != [] {
      assert IsWordChar(a[|a| - 1]);
      assert s[n] == b[0];
    }
    SplitAppend(a, b, n);
    DropWordsWordHead(drop, a, n);
    DropWordsWordHead(drop, s, n);
    ConcatAssoc(Kept(drop, a[..n]), DropWords(drop, a[n..]), DropWords(drop, b));
  }

  /** Token removal splits at any point that is not inside a word. */
  lemma {:induction false} DropWordsAppend(drop: String -> bool, a: String, b: String)
    requires a == [] || b == [] || !IsWordChar(a[|a| - 1]) || !IsWordChar(b[0])
    ensures DropWords(drop, a + b) == DropWords(drop, a) + DropWords(drop, b)
    decreases |a|
  {
    if a == [] {
      assert a + b == b;
    } else if !IsWordChar(a[0]) {
      DropWordsAppend(drop, a[1..], b);
      AppendAtNonWord(drop, a, b);
    } else {
      DropWordsAppend(drop, a[WordLength(a, 0)..], b);
      AppendAtWord(drop, a, b);
    }
  }

  /** A single word run is deleted exactly when it is a token. */
  lemma DropWordsOfWord(drop: String -> bool, w: String)
    requires w != [] && forall j :: 0 <= j < |w| ==> IsWordChar(w[j])
    ensures DropWords(drop, w) == if drop(w) then [] else w
  {
    WordLengthUnique(w, 0, |w|);
    assert w[..|w|] == w;
    assert w[|w|..] == [];
  }

  /**
   * A standalone word run — bounded on both sides by a non-word character or an end —
   * is deleted by the scanner when it is a token of `p` (`720p`, `1080`, `hd`) and kept
   * as it is otherwise (`S01E01`, `Movie_720p`, `12345`); the rest is scanned on its own.
   */
  lemma StandaloneWord(p: Pattern, a: String, w: String, b: String)
    requires w != [] && forall j :: 0 <= j < |w| ==> IsWordChar(w[j])
    requires a == [] || !IsWordChar(a[|a| - 1])
    requires b == [] || !IsWordChar(b[0])
    ensures Substitute(p, a + w + b) ==
      Substitute(p, a) + (if IsToken(p, w) then [] else w) + Substitute(p, b)
  {
    SubstituteIsRemoveTokens(p, a + w + b);
    SubstituteIsRemoveTokens(p, a);
    SubstituteIsRemoveTokens(p, b);
    DropWordsAppend(TokenTest(p), a + w, b);
    DropWordsAppend(TokenTest(p), a, w);
    DropWordsOfWord(TokenTest(p), w);
  }

  // ---------------------------------------------------------------------------
  // Steps 4 and 5: separators, case, surrounding whitespace
  // ---------------------------------------------------------------------------

  /** `re.sub(r'[._-]', ' ', s)`. */
  function ReplaceSeparators(s: String): (r: String)
    ensures |r| == |s|
    ensures forall j :: 0 <= j < |s| ==> r[j] == if IsSeparator(s[j]) then ' ' else s[j]
  {
    if s == [] then [] else ReplaceSeparators(s[..|s| - 1]) + [if IsSeparator(s[|s| - 1]) then ' ' else s[|s| - 1]]
  }

  /** `str.lower` on ASCII. */
  function Lower(s: String): (r: String)
    ensures |r| == |s|
    ensures forall j :: 0 <= j < |s| ==> r[j] == LowerChar(s[j])
  {
    if s == [] then [] else Lower(s[..|s| - 1]) + [LowerChar(s[|s| - 1])]
  }

  /** How many whitespace characters `str.strip()` removes from the front of `s`. */
  function LeadingSpaces(s: String): (n: nat)
    ensures n <= |s|
    ensures forall j :: 0 <= j < n ==> IsSpace(s[j])
    ensures n == |s| || !IsSpace(s[n])
  {
    if s != [] && IsSpace(s[0]) then 1 + LeadingSpaces(s[1..]) else 0
  }

  function StripRight(s: String): (r: String)
    ensures |r| <= |s| && r == s[..|r|]
    ensures forall j :: |r| <= j < |s| ==> IsSpace(s[j])
    ensures r == [] || !IsSpace(r[|r| - 1])
  {
    if s != [] && IsSpace(s[|s| - 1]) then StripRight(s[..|s| - 1]) else s
  }

  /**
   * `str.strip()`: `s` with its leading and trailing whitespace removed. The result is
   * the slice of `s` that starts after the leading whitespace, and what follows it is
   * whitespace too.
   */
  function Strip(s: String): (r: String)
    ensures var lo := LeadingSpaces(s);
      lo + |r| <= |s| && r == s[lo..lo + |r|] &&
      forall j :: lo + |r| <= j < |s| ==> IsSpace(s[j])
    ensures r == [] || (!IsSpace(r[0]) && !IsSpace(r[|r| - 1]))
  {
    StripRightOfSuffix(s, LeadingSpaces(s));
    StripRight(s[LeadingSpaces(s)..])
  }

  /** `StripRight` of a suffix of `s`, in terms of `s` itself. */
  lemma StripRightOfSuffix(s: String, lo: nat)
    requires lo <= |s|
    ensures var r := StripRight(s[lo..]);
      lo + |r| <= |s| && r == s[lo..lo + |r|] &&
      (forall j :: lo + |r| <= j < |s| ==> IsSpace(s[j])) &&
      (r == [] || r[0] == s[lo])
  {
    var t := s[lo..];
    var r := StripRight(t);
    assert forall j :: lo + |r| <= j < |s| ==> s[j] == t[j - lo];
    assert r == t[..|r|] == s[lo..lo + |r|];
  }

  /** Stripping only removes characters. */
  lemma StripKeeps(s: String)
    ensures forall c :: c in Strip(s) ==> c in s
  {
    var lo := LeadingSpaces(s);
    var r := Strip(s);
    assert r == s[lo..lo + |r|];
    forall c | c in r ensures c in s {
      var j :| 0 <= j < |r| && r[j] == c;
      assert s[lo + j] == c;
    }
  }

  /** After steps 4 and 5 no separator and no upper-case letter is left. */
  lemma KeyAlphabet(s: String)
    ensures forall c :: c in Lower(ReplaceSeparators(s)) ==> !IsSeparator(c) && !IsUpper(c)
  {
    var lowered := Lower(ReplaceSeparators(s));
    forall c | c in lowered ensures !IsSeparator(c) && !IsUpper(c) {
      var j :| 0 <= j < |lowered| && lowered[j] == c;
    }
  }

  // ---------------------------------------------------------------------------
  // clean_filename
  // ---------------------------------------------------------------------------

  /**
   * The comparison key of a file name. It holds no separator and no upper-case letter,
   * and neither starts nor ends with whitespace.
   */
  function CleanFilename(name: String): (key: String)
    ensures forall c :: c in key ==> !IsSeparator(c) && !IsUpper(c)
    ensures key == [] || (!IsSpace(key[0]) && !IsSpace(key[|key| - 1]))
  {
    var root := Stem(name);
    var noResolution := Substitute(Resolution, root);
    var noQuality := Substitute(QualityMarker, noResolution);
    var lowered := Lower(ReplaceSeparators(noQuality));
    KeyAlphabet(noQuality);
    StripKeeps(lowered);
    Strip(lowered)
  }

  /** The key, word by word: resolution tags, then quality markers, go as whole words. */
  lemma CleanFilenameByWords(name: String)
    ensures CleanFilename(name) ==
      Strip(Lower(ReplaceSeparators(RemoveTokens(QualityMarker, RemoveTokens(Resolution, Stem(name))))))
  {
    SubstituteIsRemoveTokens(Resolution, Stem(name));
    SubstituteIsRemoveTokens(QualityMarker, RemoveTokens(Resolution, Stem(name)));
  }

  /** The extension is discarded first: names that differ only in their extension get one key. */
  lemma SameRootSameKey(root: String, ext1: String, ext2: String)
    requires exists j :: 0 <= j < |root| && root[j] != '.'
    requires |ext1| >= 1 && ext1[0] == '.' && forall j :: 1 <= j < |ext1| ==> ext1[j] != '.'
    requires |ext2| >= 1 && ext2[0] == '.' && forall j :: 1 <= j < |ext2| ==> ext2[j] != '.'
    ensures CleanFilename(root + ext1) == CleanFilename(root + ext2)
  {
    StemOfExtended(root, ext1);
    StemOfExtended(root, ext2);
  }
}
