/**
 * Two file names worked through `clean_filename`: a resolution tag that stands alone is
 * deleted, while one joined to the title by `_` is part of a longer word and survives
 * (only its `_` becomes a space).
 */
module KeyExamples {
  import opened Normalizer

  /** `Movie`, `720p` and `Movie_720p` are word runs; only `720p` is a token. */
  lemma Words()
    ensures forall j :: 0 <= j < |"Movie"| ==> IsWordChar("Movie"[j])
    ensures forall j :: 0 <= j < |"720p"| ==> IsWordChar("720p"[j])
    ensures forall j :: 0 <= j < |"Movie_720p"| ==> IsWordChar("Movie_720p"[j])
    ensures IsToken(Resolution, "720p")
    ensures !IsToken(Resolution, "Movie") && !IsToken(QualityMarker, "Movie")
    ensures !IsToken(Resolution, "Movie_720p") && !IsToken(QualityMarker, "Movie_720p")
  {
    assert "720p"[..3] == "720";
  }

  lemma NothingToDelete(p: Pattern)
    ensures Substitute(p, ".") == "." && Substitute(p, []) == []
  {
  }

  lemma TitleKept(p: Pattern)
    ensures Substitute(p, "Movie.") == "Movie."
  {
    Words();
    NothingToDelete(p);
    assert "Movie." == [] + "Movie" + ".";
    StandaloneWord(p, [], "Movie", ".");
  }

  lemma StandaloneTagDeleted()
    ensures Substitute(Resolution, "Movie.720p") == "Movie."
  {
    Words();
    NothingToDelete(Resolution);
    TitleKept(Resolution);
    assert "Movie.720p" == "Movie." + "720p" + [];
    StandaloneWord(Resolution, "Movie.", "720p", []);
  }

  lemma JoinedTagKept(p: Pattern)
    ensures Substitute(p, "Movie_720p") == "Movie_720p"
  {
    Words();
    NothingToDelete(p);
    assert "Movie_720p" == [] + "Movie_720p" + [];
    StandaloneWord(p, [], "Movie_720p", []);
  }

  lemma Roots()
    ensures Stem("Movie.720p.mkv") == "Movie.720p"
    ensures Stem("Movie_720p.mkv") == "Movie_720p"
  {
    assert "Movie.720p"[0] != '.' && "Movie_720p"[0] != '.';
    StemOfExtended("Movie.720p", ".mkv");
    StemOfExtended("Movie_720p", ".mkv");
    assert "Movie.720p" + ".mkv" == "Movie.720p.mkv";
    assert "Movie_720p" + ".mkv" == "Movie_720p.mkv";
  }

  lemma TitleLowered()
    ensures Lower(ReplaceSeparators("Movie.")) == "movie "
  {
    var r := Lower(ReplaceSeparators("Movie."));
    assert r[0] == 'm' && r[1] == 'o' && r[2] == 'v' && r[3] == 'i' && r[4] == 'e' && r[5] == ' ';
  }

  lemma TitleStripped()
    ensures Strip("movie ") == "movie"
  {
    assert "movie "[..5] == "movie";
  }

  lemma JoinedSeparated()
    ensures ReplaceSeparators("Movie_720p") == "Movie 720p"
  {
    var r := ReplaceSeparators("Movie_720p");
    assert r[0] == 'M' && r[1] == 'o' && r[2] == 'v' && r[3] == 'i' && r[4] == 'e' && r[5] == ' ';
    assert r[6] == '7' && r[7] == '2' && r[8] == '0' && r[9] == 'p';
  }

  lemma JoinedLowered()
    ensures Lower(ReplaceSeparators("Movie_720p")) == "movie 720p"
  {
    JoinedSeparated();
    var r := Lower("Movie 720p");
    assert r[0] == 'm' && r[1] == 'o' && r[2] == 'v' && r[3] == 'i' && r[4] == 'e' && r[5] == ' ';
    assert r[6] == '7' && r[7] == '2' && r[8] == '0' && r[9] == 'p';
  }

  lemma JoinedStripped()
    ensures Strip("movie 720p") == "movie 720p"
  {
  }

  /** The resolution tag and the extension go; the key is the lower-cased title. */
  lemma StandaloneTagKey()
    ensures CleanFilename("Movie.720p.mkv") == "movie"
  {
    Roots();
    StandaloneTagDeleted();
    TitleKept(QualityMarker);
    TitleLowered();
    TitleStripped();
  }

  /** `\b` does not fall between `_` and `7`, so the tag stays in the key. */
  lemma JoinedTagKey()
    ensures CleanFilename("Movie_720p.mkv") == "movie 720p"
  {
    Roots();
    JoinedTagKept(Resolution);
    JoinedTagKept(QualityMarker);
    JoinedLowered();
    JoinedStripped();
  }
}
