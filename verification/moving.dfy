/**
 * The destination and housekeeping decisions of `filetools/moving_files.py`:
 * where a show or a movie goes, which files leave a download directory, which
 * directories count as empty, and the rule that a move never overwrites.
 * Directory listings, the show index and the user's answers are inputs.
 */
module Moving {
  import opened Text
  import opened Utils

  // ---------------------------------------------------------------------------
  // _split_season_episode, and the season folder of _build_show_destination
  // ---------------------------------------------------------------------------

  /**
   * `_split_season_episode(se)`: underscores trimmed, the text before the
   * first `e`, and `e` with the text up to the next `e`. Without an `e` the
   * source raises `IndexError`, modelled as `None`.
   */
  function SplitSeasonEpisode(seasonEpisode: String): (r: Option<(String, String)>)
    ensures var t := Strip(seasonEpisode, {'_'});
      r.None? <==> 'e' !in t
    ensures var t := Strip(seasonEpisode, {'_'});
      r.Some? ==> SplitShape(t, r.value.0, r.value.1)
  {
    SplitAtE(Strip(seasonEpisode, {'_'}))
  }

  /** `t.split("e")` read as `(split[0], "e" + split[1])`. */
  function SplitAtE(t: String): (r: Option<(String, String)>)
    ensures r.None? <==> 'e' !in t
    ensures r.Some? ==> SplitShape(t, r.value.0, r.value.1)
  {
    var season := SplitHead(t, "e");
    HeadBeforeChar(t, 'e');
    if |season| == |t| then
      None
    else
      var rest := t[|season| + 1..];
      var episode := SplitHead(rest, "e");
      HeadBeforeChar(rest, 'e');
      PrefixThroughChar(t, season, 'e', rest, episode);
      Some((season, "e" + episode))
  }

  /**
   * `season` is the text of `t` before its first `e`, and `episode` is that
   * `e` with the text up to the next `e` or the end.
   */
  predicate SplitShape(t: String, season: String, episode: String)
  {
    'e' !in season && |episode| >= 1 && episode[0] == 'e' && 'e' !in episode[1..] &&
    IsPrefix(season + episode, t) && (|season + episode| == |t| || t[|season + episode|] == 'e')
  }

  /** `t.split(c)[0]` holds no `c`; it is all of `t` exactly when `t` has none, and otherwise `c` follows it. */
  lemma HeadBeforeChar(t: String, c: char)
    ensures var head := SplitHead(t, [c]);
      c !in head && (|head| == |t| <==> c !in t) &&
      (|head| < |t| ==> t == head + [c] + t[|head| + 1..])
  {
    var head := SplitHead(t, [c]);
    forall k | 0 <= k < |head|
      ensures head[k] != c
    {
      assert !OccursAt(t, [c], k);
      assert t[k..k + 1] == [t[k]];
    }
    if |head| < |t| {
      assert OccursAt(t, [c], |head|);
      assert t[|head|] == c;
      assert t == t[..|head|] + [t[|head|]] + t[|head| + 1..];
    }
  }

  lemma PrefixThroughChar(t: String, a: String, c: char, rest: String, b: String)
    requires t == a + [c] + rest && IsPrefix(b, rest) && c !in a && c !in b
    requires |b| == |rest| || rest[|b|] == c
    ensures SplitShape(t, a, [c] + b) <== c == 'e'
  {
    assert t[..|a| + 1 + |b|] == a + [c] + rest[..|b|];
    assert ([c] + b)[1..] == b;
  }

  /** The season folder: `s` becomes `season_`, and season `00` is `specials`. */
  function SeasonFolder(season: String): (r: String)
    ensures 's' !in season && season != "00" ==> r == season
    ensures r != "season_00"
  {
    var folder := Replace(season, "s", "season_");
    assert 's' !in season ==> folder == season by {
      if 's' !in season {
        ReplaceAbsent(season, "s", "season_");
      }
    }
    if folder == "season_00" then "specials" else folder
  }

  /** A canonical token splits into `s##` and `e##`. */
  lemma SplitCanonical(season: nat, episode: nat)
    ensures SplitSeasonEpisode(Canon(season, episode)) == Some(("s" + Pad2(season), "e" + Pad2(episode)))
  {
    CanonUntrimmed(season, episode);
    CanonLayout(season, episode);
    assert 'e' !in "s" + Pad2(season);
    SplitOfTwoParts(Canon(season, episode), "s" + Pad2(season), Pad2(episode));
  }

  /** A text `a` + `e` + `b` with no `e` in either part splits into `a` and `e` + `b`. */
  lemma SplitOfTwoParts(t: String, a: String, b: String)
    requires t == a + ['e'] + b && 'e' !in a && 'e' !in b
    ensures SplitAtE(t) == Some((a, "e" + b))
  {
    assert 'e' in t by {
      assert t[|a|] == 'e';
    }
    var r := SplitAtE(t);
    SplitShapeUnique(t, r.value.0, r.value.1, a, b);
  }

  /** The two parts of a split are determined by the text. */
  lemma SplitShapeUnique(t: String, season: String, episode: String, a: String, b: String)
    requires SplitShape(t, season, episode)
    requires t == a + ['e'] + b && 'e' !in a && 'e' !in b
    ensures season == a && episode == "e" + b
  {
    var n := |season|;
    var m := |episode|;
    assert t[..n + m] == season + episode;
    if n < |a| {
      PrefixAt(t, season + episode, n);
      assert false;
    } else if n > |a| {
      PrefixAt(t, season + episode, |a|);
      assert false;
    }
    assert season == a by {
      assert season == t[..n] && a == t[..n];
    }
    if m < |b| + 1 {
      assert false;
    }
    assert episode == "e" + b by {
      assert episode == t[n..n + m] && "e" + b == t[n..];
    }
  }

  lemma PrefixAt(t: String, p: String, i: nat)
    requires IsPrefix(p, t) && i < |p|
    ensures t[i] == p[i]
  {
    assert t[..|p|][i] == t[i];
  }

  lemma CanonLayout(season: nat, episode: nat)
    ensures Canon(season, episode) == ("s" + Pad2(season)) + ['e'] + Pad2(episode)
  {
  }

  /** A canonical token has no underscore to trim. */
  lemma CanonUntrimmed(season: nat, episode: nat)
    ensures SplitSeasonEpisode(Canon(season, episode)) == SplitAtE(Canon(season, episode))
  {
    var t := Canon(season, episode);
    assert t[0] == 's' && t[|t| - 1] != '_';
    StripNothing(t, {'_'});
  }

  /** Stripping characters that are at neither end changes nothing. */
  lemma StripNothing(t: String, cs: set<char>)
    requires t != [] && t[0] !in cs && t[|t| - 1] !in cs
    ensures Strip(t, cs) == t
  {
  }

  /** The folder of a canonical season number: `season_##`, or `specials` for season 0. */
  lemma SeasonFolderCanonical(season: nat)
    ensures SeasonFolder("s" + Pad2(season)) == if season == 0 then "specials" else "season_" + Pad2(season)
  {
    var ps := Pad2(season);
    ReplaceLeadingS(ps);
    assert ("season_" + ps)[7..] == ps;
    Pad2ZeroZero(season);
  }

  lemma {:induction false} ReplaceLeadingS(ps: String)
    requires AllDigits(ps)
    ensures Replace("s" + ps, "s", "season_") == "season_" + ps
  {
    assert 's' !in ps;
    ReplaceAbsent(ps, "s", "season_");
    assert ("s" + ps)[..1] == "s" && ("s" + ps)[1..] == ps;
  }

  /** `00` is the padded form of season 0 and of no other. */
  lemma Pad2ZeroZero(n: nat)
    ensures Pad2(n) == "00" <==> n == 0
  {
    if n == 0 {
      assert Pad2(n) == "0" + Decimal(0);
    } else {
      assert Value("00") == 0;
    }
  }

  // ---------------------------------------------------------------------------
  // _build_show_destination
  // ---------------------------------------------------------------------------

  /** `show_name.split(season_episode)[0]` with underscores trimmed at both ends. */
  function BaseShowName(showName: String, seasonEpisode: String): (r: String)
    requires seasonEpisode != []
    ensures r == [] || (r[0] != '_' && r[|r| - 1] != '_')
    ensures forall k: nat :: FirstAt(showName, seasonEpisode, k) ==> r == Strip(showName[..k], {'_'})
    ensures !Contains(showName, seasonEpisode) ==> r == Strip(showName, {'_'})
  {
    SplitHeadCut(showName, seasonEpisode);
    Strip(SplitHead(showName, seasonEpisode), {'_'})
  }

  /** Where `_build_show_destination` sends a show file. */
  datatype ShowDestination =
    | NoEpisode                 // `None`: no season/episode parsed
    | ParseRaises               // `parse_filename` raised
    | SplitRaises               // `_split_season_episode` raised
    | Known(path: String)       // the show is in the index
    | AskUser(showName: String, seasonFolder: String, fileName: String)  // `_prompt_for_new_show(...)`

  /**
   * `_build_show_destination(show_path)` for the file name `fileName`, with
   * `index` the `Shows` section of the show index. The section's keys are
   * lower-cased, and so is every key looked up in it.
   */
  function BuildShowDestination(fileName: String, index: map<String, String>): (r: ShowDestination)
    ensures var p := ParseFilename(fileName);
      (r.NoEpisode? <==> p.Unparsed? || (p.Parsed? && p.seasonEpisode == [])) &&
      (r.ParseRaises? <==> p.Raises?)
    ensures r.Known? || r.AskUser? || r.SplitRaises? ==>
      var p := ParseFilename(fileName);
      p.Parsed? && p.seasonEpisode != [] &&
      var base := BaseShowName(p.showName, p.seasonEpisode);
      match SplitSeasonEpisode(p.seasonEpisode)
      case None => r.SplitRaises?
      case Some((season, _)) =>
        (r.Known? <==> LowerStr(base) in index) &&
        (r.Known? ==> r.path == JoinPath(JoinPath(index[LowerStr(base)], SeasonFolder(season)), fileName)) &&
        (r.AskUser? ==> r == AskUser(base, SeasonFolder(season), fileName))
  {
    match ParseFilename(fileName)
    case Raises => ParseRaises
    case Unparsed => NoEpisode
    case Parsed(show, se) =>
      if se == [] then NoEpisode
      else
        var base := BaseShowName(show, se);
        match SplitSeasonEpisode(se)
        case None => SplitRaises
        case Some((season, _)) =>
          var folder := SeasonFolder(season);
          if LowerStr(base) in index then Known(JoinPath(JoinPath(index[LowerStr(base)], folder), fileName))
          else AskUser(base, folder, fileName)
  }

  /**
   * A file whose token is a canonical one, after a `_` or nothing and with any
   * tail (the boundary characters the TV pattern keeps, or the `_` of a flag
   * suffix), goes to the `season_##` folder of its season (`specials` for
   * season 0) under the show's indexed folder, and keeps its name.
   */
  lemma ShowDestinationCanonical(fileName: String, index: map<String, String>, lead: String, season: nat, episode: nat, tail: String)
    requires lead == "" || lead == "_"
    requires ParseFilename(fileName).Parsed? && ParseFilename(fileName).seasonEpisode == lead + Canon(season, episode) + tail
    requires var p := ParseFilename(fileName);
      LowerStr(BaseShowName(p.showName, p.seasonEpisode)) in index
    ensures var p := ParseFilename(fileName);
      var key := LowerStr(BaseShowName(p.showName, p.seasonEpisode));
      var folder := if season == 0 then "specials" else "season_" + Pad2(season);
      BuildShowDestination(fileName, index) == Known(JoinPath(JoinPath(index[key], folder), fileName))
    ensures var p := ParseFilename(fileName);
      var key := LowerStr(BaseShowName(p.showName, p.seasonEpisode));
      index[key] != [] && fileName != [] && fileName[0] != '/' ==>
      EndsWith(BuildShowDestination(fileName, index).path, "/" + fileName)
  {
    CanonTokenSeason(lead, season, episode, tail);
    SeasonFolderCanonical(season);
  }

  /** Such a token's season part is `s` and the padded season. */
  lemma CanonTokenSeason(lead: String, season: nat, episode: nat, tail: String)
    requires lead == "" || lead == "_"
    ensures var split := SplitSeasonEpisode(lead + Canon(season, episode) + tail);
      split.Some? && split.value.0 == "s" + Pad2(season)
  {
    var c := Canon(season, episode);
    CanonEnds(season, episode);
    var rest := StripLeadTail(lead, c, tail);
    CanonThenSplit(season, episode, rest);
  }

  lemma CanonEnds(season: nat, episode: nat)
    ensures var c := Canon(season, episode);
      c != [] && c[0] == 's' && c[|c| - 1] != '_'
  {
    var d := Pad2(episode);
    PaddedChars(episode);
    assert Canon(season, episode)[|Canon(season, episode)| - 1] == d[|d| - 1];
  }

  /** A canonical token followed by anything splits with `s` and the padded season in front. */
  lemma CanonThenSplit(season: nat, episode: nat, rest: String)
    ensures SplitAtE(Canon(season, episode) + rest).Some? && SplitAtE(Canon(season, episode) + rest).value.0 == "s" + Pad2(season)
  {
    var s, d := "s" + Pad2(season), Pad2(episode);
    PaddedChars(season);
    assert 'e' !in s;
    assert Canon(season, episode) + rest == s + ['e'] + (d + rest);
    SplitSeasonPart(Canon(season, episode) + rest, s, d + rest);
  }

  /** A padded number holds no `e` and does not end in `_`. */
  lemma PaddedChars(n: nat)
    ensures var d := Pad2(n);
      'e' !in d && d[|d| - 1] != '_'
  {
    var d := Pad2(n);
    forall i | 0 <= i < |d| ensures d[i] != 'e' && d[i] != '_' {
      assert IsDigit(d[i]);
    }
  }

  /**
   * Trimming the underscores of an optional `_`, a text that neither starts
   * nor ends with `_`, and any tail leaves that text in front.
   */
  lemma StripLeadTail(lead: String, c: String, tail: String) returns (rest: String)
    requires lead == "" || lead == "_"
    requires c != [] && c[0] != '_' && c[|c| - 1] != '_'
    ensures Strip(lead + c + tail, {'_'}) == c + rest
  {
    LStripLead(lead, c, tail);
    rest := RStripKeeps(c, tail);
  }

  lemma LStripLead(lead: String, c: String, tail: String)
    requires lead == "" || lead == "_"
    requires c != [] && c[0] != '_'
    ensures LStrip(lead + c + tail, {'_'}) == c + tail
  {
    var s := c + tail;
    LStripUnchanged(s, {'_'});
    if lead == "_" {
      var x := lead + c + tail;
      assert x[1..] == s;
      LStripOne(x, {'_'});
    } else {
      assert lead + c + tail == s;
    }
  }

  lemma LStripUnchanged(s: String, cs: set<char>)
    requires s != [] && s[0] !in cs
    ensures LStrip(s, cs) == s
  {
  }

  lemma LStripOne(s: String, cs: set<char>)
    requires s != [] && s[0] in cs
    ensures LStrip(s, cs) == LStrip(s[1..], cs)
  {
  }

  lemma RStripKeeps(c: String, tail: String) returns (rest: String)
    requires c != [] && c[|c| - 1] != '_'
    ensures RStrip(c + tail, {'_'}) == c + rest
  {
    var l := c + tail;
    var r := RStrip(l, {'_'});
    assert l[|c| - 1] == c[|c| - 1];
    assert |r| >= |c|;
    rest := r[|c|..];
    assert r == c + rest by {
      assert r == l[..|r|] && l[..|c|] == c;
    }
  }

  /** The season part of a split is the text before the first `e`, whatever follows that `e`. */
  lemma SplitSeasonPart(t: String, a: String, b: String)
    requires t == a + ['e'] + b && 'e' !in a
    ensures SplitAtE(t).Some? && SplitAtE(t).value.0 == a
  {
    assert t[|a|] == 'e';
    var r := SplitAtE(t);
    var season := r.value.0;
    var episode := r.value.1;
    var n := |season|;
    PrefixAt(t, season + episode, n);
    assert t[n] == 'e';
    forall k | 0 <= k < n ensures t[k] == season[k] {
      PrefixAt(t, season + episode, k);
    }
    assert forall k :: 0 <= k < |a| ==> t[k] == a[k];
    assert n >= |a|;
    assert n <= |a|;
    assert season == a by {
      assert season == (season + episode)[..n] == t[..n];
    }
  }

  // ---------------------------------------------------------------------------
  // _choose_library, _build_movie_destination
  // ---------------------------------------------------------------------------

  /** What a call gives back: a value, or an exception that nothing catches. */
  datatype Attempt<T> = Returned(value: T) | Raised

  /**
   * `_choose_library(library_dict, prompt)` as written: no library, `None`;
   * one, that one without asking. With several it calls
   * `ask_multichoice(library_names, prompt)`, but `ask_multichoice` takes the
   * list of choices alone, so the call raises `TypeError` before anything is
   * asked.
   */
  function ChooseLibrary(libraries: Dict): (r: Attempt<Option<String>>)
    requires DistinctKeys(libraries)
    ensures r.Raised? <==> |libraries| > 1
    ensures r == Returned(None) <==> libraries == []
    ensures |libraries| == 1 ==> r == Returned(Some(libraries[0].1))
  {
    if libraries == [] then Returned(None)
    else if |libraries| > 1 then Raised
    else Returned(Some(libraries[0].1))
  }

  /**
   * `_choose_library` as intended: with several libraries, the one the user
   * picks (`choice` is the position of the name the menu returns).
   */
  function PickLibrary(libraries: Dict, choice: nat): (r: Option<String>)
    requires DistinctKeys(libraries)
    requires |libraries| > 1 ==> choice < |libraries|
    ensures r.None? <==> libraries == []
    ensures r.Some? ==> exists i :: 0 <= i < |libraries| && r.value == libraries[i].1
    ensures |libraries| == 1 ==> r == Some(libraries[0].1)
    ensures |libraries| > 1 ==> r == Some(libraries[choice].1)
  {
    if libraries == [] then None
    else if |libraries| > 1 then Some(libraries[choice].1)
    else Some(libraries[0].1)
  }

  /**
   * The call as written and the intended pick agree for at most one library;
   * for two or more, the call raises where the intended pick returns a library.
   */
  lemma ChooseLibraryTypeError(libraries: Dict, choice: nat)
    requires DistinctKeys(libraries)
    requires |libraries| > 1 ==> choice < |libraries|
    ensures |libraries| <= 1 ==> ChooseLibrary(libraries) == Returned(PickLibrary(libraries, choice))
    ensures |libraries| > 1 ==> ChooseLibrary(libraries).Raised? && PickLibrary(libraries, choice) == Some(libraries[choice].1)
  {
  }

  /** Two movie libraries: the call raises, and the intended pick is the chosen one. */
  lemma TwoLibrariesRaise()
    ensures ChooseLibrary([("Movies", "/media/movies"), ("4K", "/media/4k")]) == Raised
    ensures PickLibrary([("Movies", "/media/movies"), ("4K", "/media/4k")], 1) == Some("/media/4k")
  {
  }

  /** The movie folder: the stem with every `-4K` and then every `-hdr` removed. */
  function MovieFolder(fileName: String): (r: String)
    ensures '/' !in fileName ==> '/' !in r
    ensures '-' !in Stem(fileName) ==> r == Stem(fileName)
    ensures !Contains(Stem(fileName), "-4K") && !Contains(Stem(fileName), "-hdr") ==> r == Stem(fileName)
  {
    var stem := Stem(fileName);
    MovieFolderKeeps(stem, '/');
    Replace(Replace(stem, "-4K", ""), "-hdr", "")
  }

  /** Removing the tags adds no character, and a stem without a tag has none to remove. */
  lemma MovieFolderKeeps(stem: String, c: char)
    ensures c !in stem ==> c !in Replace(Replace(stem, "-4K", ""), "-hdr", "")
    ensures '-' !in stem ==> Replace(Replace(stem, "-4K", ""), "-hdr", "") == stem
    ensures !Contains(stem, "-4K") && !Contains(stem, "-hdr")
      ==> Replace(Replace(stem, "-4K", ""), "-hdr", "") == stem
  {
    if !Contains(stem, "-4K") && !Contains(stem, "-hdr") {
      ContainsIff(stem, "-4K");
      ReplaceNowhere(stem, "-4K", "");
      ContainsIff(stem, "-hdr");
      ReplaceNowhere(stem, "-hdr", "");
    }
    if c !in stem {
      ReplaceKeepsOut(stem, "-4K", "", c);
      ReplaceKeepsOut(Replace(stem, "-4K", ""), "-hdr", "", c);
    }
    if '-' !in stem {
      ReplaceAbsent(stem, "-4K", "");
      ReplaceAbsent(stem, "-hdr", "");
    }
  }

  /** Where a movie goes in `library`: its movie folder there, under its unchanged name. */
  function MovieDestinationIn(library: String, fileName: String): (r: String)
    ensures fileName != [] && fileName[0] != '/' && JoinPath(library, MovieFolder(fileName)) != [] ==>
      EndsWith(r, "/" + fileName)
    ensures library != [] && library[|library| - 1] != '/' && fileName != [] && '/' !in fileName && MovieFolder(fileName) != []
      ==> r == library + "/" + MovieFolder(fileName) + "/" + fileName
  {
    JoinPath(JoinPath(library, MovieFolder(fileName)), fileName)
  }

  /**
   * `_build_movie_destination(movie_path)` for a movie file called `fileName`,
   * as written: it raises when `_choose_library` does, gives `None` with no
   * library, and otherwise the movie's path in the only library.
   */
  function BuildMovieDestination(fileName: String, libraries: Dict): (r: Attempt<Option<String>>)
    requires DistinctKeys(libraries)
    ensures r.Raised? <==> |libraries| > 1
    ensures r == Returned(None) <==> libraries == []
    ensures |libraries| == 1 ==> r == Returned(Some(MovieDestinationIn(libraries[0].1, fileName)))
  {
    match ChooseLibrary(libraries)
    case Raised => Raised
    case Returned(None) => Returned(None)
    case Returned(Some(library)) => Returned(Some(MovieDestinationIn(library, fileName)))
  }

  /** The `-4K` / `-hdr` tags that `_format_movie_name` adds. */
  predicate IsMovieTags(tags: String)
  {
    tags == "" || tags == "-4K" || tags == "-hdr" || tags == "-4K-hdr"
  }

  /**
   * The tagged and untagged names of a movie share one folder: for a name
   * `p` + tags + `.ext` whose `p` has no `.` and holds no tag itself, the
   * folder is `p`. Hyphens in `p`, as in `spider-man_(2002)`, are allowed.
   */
  lemma TaggedMovieFolder(p: String, tags: String, ext: String)
    requires p != [] && '.' !in p && !Contains(p, "-4K") && !Contains(p, "-hdr") && IsMovieTags(tags)
    requires |ext| >= 2 && ext[0] == '.' && '.' !in ext[1..]
    ensures MovieFolder(p + tags + ext) == p
  {
    StemOfNamed(p + tags, ext);
    TagCannotStraddle(p, "-4K", tags);
    ReplaceAfterFree(p, "-4K", "", tags);
    var t1 := Replace(tags, "-4K", "");
    TagsWithout4K(tags);
    TagCannotStraddle(p, "-hdr", t1);
    ReplaceAfterFree(p, "-hdr", "", t1);
    TagsWithoutHdr(t1);
  }

  /**
   * A tag starts with `-` and has no other `-`, so in `p` + `q`, where `q` is
   * empty or starts with `-`, it can start inside `p` only if `p` holds it.
   */
  lemma TagCannotStraddle(p: String, tag: String, q: String)
    requires tag != [] && tag[0] == '-' && '-' !in tag[1..]
    requires !Contains(p, tag) && (q == [] || q[0] == '-')
    ensures forall i :: 0 <= i < |p| ==> !OccursAt(p + q, tag, i)
  {
    ContainsIff(p, tag);
    var s := p + q;
    forall i | 0 <= i < |p|
      ensures !OccursAt(s, tag, i)
    {
      if i + |tag| <= |p| {
        assert s[i..i + |tag|] == p[i..i + |tag|];
        assert !OccursAt(p, tag, i);
      } else if i + |tag| <= |s| {
        var j := |p| - i;
        assert 0 < j < |tag|;
        assert s[i..i + |tag|][j] == q[0] == '-';
        assert tag[j] == tag[1..][j - 1];
        assert tag[j] != '-';
      }
    }
  }

  lemma {:induction false} TagsWithout4K(tags: String)
    requires IsMovieTags(tags)
    ensures Replace(tags, "-4K", "") == if tags == "" || tags == "-4K" then "" else "-hdr"
  {
    HdrWithout4K();
    if tags == "-4K-hdr" {
      assert tags[..3] == "-4K" && tags[3..] == "-hdr";
    }
  }

  lemma HdrWithout4K()
    ensures Replace("-hdr", "-4K", "") == "-hdr"
  {
    var s := "-hdr";
    assert s[..3] != "-4K" by { assert s[1] == 'h'; }
    assert s[1..] == "hdr";
    ReplaceAbsent("hdr", "-4K", "");
  }

  lemma {:induction false} TagsWithoutHdr(t: String)
    requires t == "" || t == "-hdr"
    ensures Replace(t, "-hdr", "") == ""
  {
  }

  /** Text in which no occurrence of the pattern starts can be skipped over by `Replace`. */
  lemma {:induction false} ReplaceAfterFree(p: String, pat: String, rep: String, q: String)
    requires pat != [] && forall i :: 0 <= i < |p| ==> !OccursAt(p + q, pat, i)
    ensures Replace(p + q, pat, rep) == p + Replace(q, pat, rep)
    decreases |p|
  {
    if p == [] {
      assert p + q == q;
    } else {
      NoStartInTail(p, pat, q);
      ReplaceAfterFree(p[1..], pat, rep, q);
      ReplaceFreeStep(p, pat, rep, q);
    }
  }

  /** No occurrence starts in `p` of `p + q`, so none starts in `p[1..]` of `p[1..] + q`. */
  lemma NoStartInTail(p: String, pat: String, q: String)
    requires p != [] && forall i :: 0 <= i < |p| ==> !OccursAt(p + q, pat, i)
    ensures !OccursAt(p + q, pat, 0)
    ensures forall i :: 0 <= i < |p| - 1 ==> !OccursAt(p[1..] + q, pat, i)
  {
    var s := p + q;
    assert s[1..] == p[1..] + q;
    forall i | 0 <= i < |p| - 1
      ensures !OccursAt(p[1..] + q, pat, i)
    {
      OccursShift(s, pat, i);
    }
  }

  /** One step of `ReplaceAfterFree`: the first character of `p` is kept. */
  lemma ReplaceFreeStep(p: String, pat: String, rep: String, q: String)
    requires p != [] && pat != [] && !OccursAt(p + q, pat, 0)
    requires Replace(p[1..] + q, pat, rep) == p[1..] + Replace(q, pat, rep)
    ensures Replace(p + q, pat, rep) == p + Replace(q, pat, rep)
  {
    ConsConcat(p, q);
    ReplaceSkipsOne(p[0], p[1..] + q, pat, rep);
    ConsConcat(p, Replace(q, pat, rep));
  }

  lemma ConsConcat(p: String, r: String)
    requires p != []
    ensures [p[0]] + (p[1..] + r) == p + r
  {
    assert [p[0]] + p[1..] == p;
  }

  /** Where the pattern does not start at the front, `Replace` keeps the first character. */
  lemma ReplaceSkipsOne(c: char, t: String, pat: String, rep: String)
    requires pat != [] && !OccursAt([c] + t, pat, 0)
    ensures Replace([c] + t, pat, rep) == [c] + Replace(t, pat, rep)
  {
    var s := [c] + t;
    assert s[0] == c && s[1..] == t;
    if |s| < |pat| {
      assert Replace(t, pat, rep) == t;
    }
  }

  /** Dropping the first character shifts every occurrence one place to the left. */
  lemma OccursShift(s: String, pat: String, i: nat)
    requires s != []
    ensures OccursAt(s[1..], pat, i) <==> OccursAt(s, pat, i + 1)
  {
    if i + |pat| <= |s[1..]| {
      assert s[1..][i..i + |pat|] == s[i + 1..i + 1 + |pat|];
    }
  }

  /** The stem of `x` + `.ext`, for a non-empty `x` and an extension without another dot. */
  lemma StemOfNamed(x: String, ext: String)
    requires x != [] && '.' !in x
    requires |ext| >= 2 && ext[0] == '.' && '.' !in ext[1..]
    ensures Stem(x + ext) == x
  {
    var s := x + ext;
    assert s[|x|] == '.';
    var i := LastIndexOf(s, '.');
  }

  // ---------------------------------------------------------------------------
  // _process_file, _should_skip_directory, _get_files_to_extract
  // ---------------------------------------------------------------------------

  /** `any(x in file_ext for x in video_file_extensions)`: a video extension occurs inside `ext`. */
  predicate HasVideoExt(rules: Rules, ext: String)
  {
    ContainsAny(ext, rules.videoFileExtensions)
  }

  /**
   * `_process_file(file_obj, working_directory)`: a file with a do-not-delete
   * extension means the directory is still downloading; a video file not on
   * the ignore list moves to the working directory under its own name.
   */
  function ProcessFile(rules: Rules, file: FileEntry, workingDir: String): (r: (Option<String>, bool))
    ensures var ext := SplitExt(file.name).1;
      (r.1 <==> ext in rules.doNotDelete) &&
      (r.0.Some? <==>
        ext !in rules.doNotDelete &&
        (exists i, k :: 0 <= i < |rules.videoFileExtensions| && OccursAt(ext, rules.videoFileExtensions[i], k)) &&
        LowerStr(file.name) !in rules.fileNameIgnores) &&
      (r.0.Some? ==> r.0.value == JoinPath(workingDir, file.name))
  {
    var ext := SplitExt(file.name).1;
    ContainsAnyIff(ext, rules.videoFileExtensions);
    if ext in rules.doNotDelete then (None, true)
    else if HasVideoExt(rules, ext) then
      if LowerStr(file.name) in rules.fileNameIgnores then (None, false)
      else (Some(JoinPath(workingDir, file.name)), false)
    else (None, false)
  }

  /** `_should_skip_directory(dir_obj)` */
  predicate ShouldSkipDirectory(dir: FileEntry)
  {
    dir.name == "_in-progress"
  }

  /** `_process_file` with the rules and the working directory fixed. */
  function Processor(rules: Rules, workingDir: String): FileEntry -> (Option<String>, bool)
  {
    f => ProcessFile(rules, f, workingDir)
  }

  /** A directory of the working directory and the files listed in it. */
  datatype DirListing = DirListing(dir: FileEntry, files: seq<FileEntry>)

  /** Some file of the listing is still downloading. */
  predicate Downloading(process: FileEntry -> (Option<String>, bool), files: seq<FileEntry>)
  {
    exists i :: 0 <= i < |files| && process(files[i]).1
  }

  /** `tmpdict` of a directory with no downloading file: each extractable file's path mapped to its new path. */
  function Extractable(process: FileEntry -> (Option<String>, bool), files: seq<FileEntry>): Dict
  {
    if files == [] then []
    else
      var prev := Extractable(process, files[..|files| - 1]);
      var f := files[|files| - 1];
      match process(f).0
      case Some(newPath) => Put(prev, f.path, newPath)
      case None => prev
  }

  /** What one directory adds to `files_to_extract`: nothing if skipped or still downloading. */
  function DirContribution(process: FileEntry -> (Option<String>, bool), d: DirListing): Dict
  {
    if ShouldSkipDirectory(d.dir) || Downloading(process, d.files) then []
    else Extractable(process, d.files)
  }

  /** The dictionary `_get_files_to_extract` returns: each directory's entries, in scan order. */
  function FilesToExtract(process: FileEntry -> (Option<String>, bool), dirs: seq<DirListing>): Dict
  {
    if dirs == [] then []
    else Update(FilesToExtract(process, dirs[..|dirs| - 1]), DirContribution(process, dirs[|dirs| - 1]))
  }

  /**
   * `_should_skip_directory` in the scan: a folder named `_in-progress` adds
   * nothing to `files_to_extract`, whatever it holds, and any other folder with
   * no file still downloading adds its `tmpdict`.
   */
  lemma InProgressSkipped(process: FileEntry -> (Option<String>, bool), dirs: seq<DirListing>, d: DirListing)
    ensures d.dir.name == "_in-progress" ==> FilesToExtract(process, dirs + [d]) == FilesToExtract(process, dirs)
    ensures d.dir.name != "_in-progress" && !Downloading(process, d.files) ==>
      FilesToExtract(process, dirs + [d]) == Update(FilesToExtract(process, dirs), Extractable(process, d.files))
  {
    assert (dirs + [d])[..|dirs|] == dirs;
  }

  /** `_get_files_to_extract(working_directory)` over the listed directories. */
  method GetFilesToExtract(rules: Rules, workingDir: String, dirs: seq<DirListing>) returns (filesToExtract: Dict)
    ensures filesToExtract == FilesToExtract(Processor(rules, workingDir), dirs)
  {
    filesToExtract := [];
    for i := 0 to |dirs|
      invariant filesToExtract == FilesToExtract(Processor(rules, workingDir), dirs[..i])
    {
      var d := dirs[i];
      assert dirs[..i + 1][..i] == dirs[..i];
      if ShouldSkipDirectory(d.dir) {
        continue;
      }
      var tmp, stillDownloading := ScanDirectory(rules, workingDir, d.files);
      if !stillDownloading {
        filesToExtract := Update(filesToExtract, tmp);
      }
    }
    assert dirs[..|dirs|] == dirs;
  }

  /**
   * The inner loop of `_get_files_to_extract`: the directory's `tmpdict`, abandoned
   * at the first file still downloading.
   */
  method ScanDirectory(rules: Rules, workingDir: String, files: seq<FileEntry>) returns (tmp: Dict, stillDownloading: bool)
    ensures stillDownloading == Downloading(Processor(rules, workingDir), files)
    ensures !stillDownloading ==> tmp == Extractable(Processor(rules, workingDir), files)
  {
    ghost var process := Processor(rules, workingDir);
    tmp := [];
    stillDownloading := false;
    for j := 0 to |files|
      invariant !stillDownloading ==> !Downloading(process, files[..j])
      invariant !stillDownloading ==> tmp == Extractable(process, files[..j])
      invariant stillDownloading ==> Downloading(process, files)
    {
      var (newPath, downloading) := ProcessFile(rules, files[j], workingDir);
      assert process(files[j]) == (newPath, downloading);
      assert files[..j + 1][..j] == files[..j];
      if downloading {
        stillDownloading := true;
        break;
      }
      NotDownloadingStep(process, files, j);
      if newPath.Some? {
        tmp := Put(tmp, files[j].path, newPath.value);
      }
    }
    assert files[..|files|] == files;
  }

  lemma NotDownloadingStep(process: FileEntry -> (Option<String>, bool), files: seq<FileEntry>, j: nat)
    requires j < |files| && !Downloading(process, files[..j]) && !process(files[j]).1
    ensures !Downloading(process, files[..j + 1])
  {
    forall i | 0 <= i < j + 1 ensures !process(files[i]).1 {
      if i < j {
        assert files[..j][i] == files[i];
      }
    }
  }

  /** Some file of the listing has path `k` and is processed to the new path `v`. */
  predicate ExtractedFrom(process: FileEntry -> (Option<String>, bool), files: seq<FileEntry>, k: String, v: String)
  {
    exists j :: 0 <= j < |files| && files[j].path == k && process(files[j]).0 == Some(v)
  }

  /** Every entry of a directory's `tmpdict` comes from one of its files. */
  lemma {:induction false} ExtractableSound(process: FileEntry -> (Option<String>, bool), files: seq<FileEntry>)
    ensures forall m :: 0 <= m < |Extractable(process, files)| ==>
      ExtractedFrom(process, files, Extractable(process, files)[m].0, Extractable(process, files)[m].1)
  {
    if files != [] {
      var init := files[..|files| - 1];
      var f := files[|files| - 1];
      ExtractableSound(process, init);
      var prev := Extractable(process, init);
      var r := Extractable(process, files);
      if process(f).0.Some? {
        PutEntries(prev, f.path, process(f).0.value);
      }
      forall m | 0 <= m < |r| ensures ExtractedFrom(process, files, r[m].0, r[m].1) {
        if r[m] in prev {
          var n :| 0 <= n < |prev| && prev[n] == r[m];
          var j :| 0 <= j < |init| && init[j].path == r[m].0 && process(init[j]).0 == Some(r[m].1);
          assert files[j] == init[j];
        } else {
          assert process(files[|files| - 1]).0 == Some(r[m].1);
        }
      }
    }
  }

  /** Every file the processing keeps has its path among the directory's `tmpdict` keys. */
  lemma {:induction false} ExtractableComplete(process: FileEntry -> (Option<String>, bool), files: seq<FileEntry>)
    ensures forall j :: 0 <= j < |files| && process(files[j]).0.Some? ==> files[j].path in Keys(Extractable(process, files))
  {
    if files != [] {
      var init := files[..|files| - 1];
      ExtractableComplete(process, init);
      forall j | 0 <= j < |files| && process(files[j]).0.Some?
        ensures files[j].path in Keys(Extractable(process, files))
      {
        if j < |files| - 1 {
          assert files[j] == init[j];
        }
      }
    }
  }

  /** A directory's `tmpdict` never repeats a key. */
  lemma {:induction false} ExtractableDistinct(process: FileEntry -> (Option<String>, bool), files: seq<FileEntry>)
    ensures DistinctKeys(Extractable(process, files))
  {
    if files != [] {
      ExtractableDistinct(process, files[..|files| - 1]);
    }
  }

  /** The directory at `i` is scanned and none of its files is still downloading. */
  predicate Settled(process: FileEntry -> (Option<String>, bool), dirs: seq<DirListing>, i: int)
  {
    0 <= i < |dirs| && !ShouldSkipDirectory(dirs[i].dir) && !Downloading(process, dirs[i].files)
  }

  /** Some settled directory has a file with path `k` processed to the new path `v`. */
  predicate FromSettled(process: FileEntry -> (Option<String>, bool), dirs: seq<DirListing>, k: String, v: String)
  {
    exists i :: 0 <= i < |dirs| && Settled(process, dirs, i) && ExtractedFrom(process, dirs[i].files, k, v)
  }

  /**
   * Every entry of `files_to_extract` comes from a file of a scanned directory
   * that has no file still downloading.
   */
  lemma {:induction false} FilesToExtractSound(process: FileEntry -> (Option<String>, bool), dirs: seq<DirListing>)
    ensures forall m :: 0 <= m < |FilesToExtract(process, dirs)| ==>
      FromSettled(process, dirs, FilesToExtract(process, dirs)[m].0, FilesToExtract(process, dirs)[m].1)
  {
    if dirs != [] {
      var init := dirs[..|dirs| - 1];
      var last := |dirs| - 1;
      FilesToExtractSound(process, init);
      var prev := FilesToExtract(process, init);
      var c := DirContribution(process, dirs[last]);
      UpdateEntries(prev, c);
      var r := FilesToExtract(process, dirs);
      forall m | 0 <= m < |r| ensures FromSettled(process, dirs, r[m].0, r[m].1) {
        if r[m] in prev {
          var n :| 0 <= n < |prev| && prev[n] == r[m];
          FromSettledEarlier(process, dirs, r[m].0, r[m].1);
        } else {
          FromSettledLast(process, dirs, r[m].0, r[m].1);
        }
      }
    }
  }

  /** An entry that comes from the earlier directories still does when one more is scanned. */
  lemma FromSettledEarlier(process: FileEntry -> (Option<String>, bool), dirs: seq<DirListing>, k: String, v: String)
    requires dirs != [] && FromSettled(process, dirs[..|dirs| - 1], k, v)
    ensures FromSettled(process, dirs, k, v)
  {
    var init := dirs[..|dirs| - 1];
    var i :| 0 <= i < |init| && Settled(process, init, i) && ExtractedFrom(process, init[i].files, k, v);
    assert dirs[i] == init[i];
    assert Settled(process, dirs, i) && ExtractedFrom(process, dirs[i].files, k, v);
  }

  /** An entry contributed by the last directory comes from it. */
  lemma FromSettledLast(process: FileEntry -> (Option<String>, bool), dirs: seq<DirListing>, k: String, v: String)
    requires dirs != [] && (k, v) in DirContribution(process, dirs[|dirs| - 1])
    ensures FromSettled(process, dirs, k, v)
  {
    var last := |dirs| - 1;
    var c := DirContribution(process, dirs[last]);
    var n :| 0 <= n < |c| && c[n] == (k, v);
    ContributionSound(process, dirs, last);
    assert Settled(process, dirs, last) && ExtractedFrom(process, dirs[last].files, k, v);
  }

  /**
   * Every file kept by the processing, in a scanned directory with no file still
   * downloading, has its path among the keys of `files_to_extract`.
   */
  lemma {:induction false} FilesToExtractComplete(process: FileEntry -> (Option<String>, bool), dirs: seq<DirListing>)
    ensures forall i, j :: Settled(process, dirs, i) && 0 <= j < |dirs[i].files| && process(dirs[i].files[j]).0.Some? ==>
      dirs[i].files[j].path in Keys(FilesToExtract(process, dirs))
  {
    if dirs != [] {
      var init := dirs[..|dirs| - 1];
      var last := |dirs| - 1;
      FilesToExtractComplete(process, init);
      forall i, j | Settled(process, dirs, i) && 0 <= j < |dirs[i].files| && process(dirs[i].files[j]).0.Some?
        ensures dirs[i].files[j].path in Keys(FilesToExtract(process, dirs))
      {
        if i < last {
          assert dirs[i] == init[i];
          assert Settled(process, init, i);
        }
        KeptFileListed(process, dirs, i, j);
      }
    }
  }

  /** One step of `FilesToExtractComplete`: a kept file of a settled directory stays listed. */
  lemma KeptFileListed(process: FileEntry -> (Option<String>, bool), dirs: seq<DirListing>, i: int, j: int)
    requires Settled(process, dirs, i) && 0 <= j < |dirs[i].files| && process(dirs[i].files[j]).0.Some?
    requires i < |dirs| - 1 ==> dirs[i].files[j].path in Keys(FilesToExtract(process, dirs[..|dirs| - 1]))
    ensures dirs[i].files[j].path in Keys(FilesToExtract(process, dirs))
  {
    var last := |dirs| - 1;
    if i == last {
      assert DirContribution(process, dirs[last]) == Extractable(process, dirs[last].files);
      ExtractableComplete(process, dirs[last].files);
    }
  }

  /** A directory that contributes entries is settled, and each entry comes from one of its files. */
  lemma ContributionSound(process: FileEntry -> (Option<String>, bool), dirs: seq<DirListing>, i: nat)
    requires i < |dirs|
    ensures forall m :: 0 <= m < |DirContribution(process, dirs[i])| ==>
      Settled(process, dirs, i) &&
      ExtractedFrom(process, dirs[i].files, DirContribution(process, dirs[i])[m].0, DirContribution(process, dirs[i])[m].1)
  {
    if Settled(process, dirs, i) {
      assert DirContribution(process, dirs[i]) == Extractable(process, dirs[i].files);
      ExtractableSound(process, dirs[i].files);
    } else {
      assert DirContribution(process, dirs[i]) == [];
    }
  }

  /** `files_to_extract` never repeats a key. */
  lemma {:induction false} FilesToExtractDistinct(process: FileEntry -> (Option<String>, bool), dirs: seq<DirListing>)
    ensures DistinctKeys(FilesToExtract(process, dirs))
  {
    if dirs != [] {
      FilesToExtractDistinct(process, dirs[..|dirs| - 1]);
    }
  }

  // ---------------------------------------------------------------------------
  // Empty directories: `_get_empty_dirs`
  // ---------------------------------------------------------------------------

  /** The lowered file name mentions a sample or a trailer. */
  predicate SampleOrTrailer(name: String)
  {
    Contains(LowerStr(name), "sample") || Contains(LowerStr(name), "trailer")
  }

  /**
   * A file that does not keep its directory alive: its extension is not a
   * do-not-delete one, and if it is a video it is a sample or a trailer.
   */
  predicate FileAllowsDelete(rules: Rules, f: FileEntry)
  {
    var ext := SplitExt(f.name).1;
    ext !in rules.doNotDelete && (HasVideoExt(rules, ext) ==> SampleOrTrailer(f.name))
  }

  /** A directory counted as empty: every file in it allows deletion. */
  predicate DirIsEmpty(rules: Rules, files: seq<FileEntry>)
  {
    forall j :: 0 <= j < |files| ==> FileAllowsDelete(rules, files[j])
  }

  /** The list `_get_empty_dirs` returns: the empty directories, in scan order. */
  function EmptyDirs(rules: Rules, workingDir: String, dirs: seq<DirListing>): seq<String>
  {
    if dirs == [] then []
    else
      var d := dirs[|dirs| - 1];
      EmptyDirs(rules, workingDir, dirs[..|dirs| - 1]) +
        (if DirIsEmpty(rules, d.files) then [JoinPath(workingDir, d.dir.name)] else [])
  }

  /** `_get_empty_dirs(working_directory)` over the listed directories. */
  method GetEmptyDirs(rules: Rules, workingDir: String, dirs: seq<DirListing>) returns (dirsToDelete: seq<String>)
    ensures dirsToDelete == EmptyDirs(rules, workingDir, dirs)
  {
    dirsToDelete := [];
    for i := 0 to |dirs|
      invariant dirsToDelete == EmptyDirs(rules, workingDir, dirs[..i])
    {
      var d := dirs[i];
      assert dirs[..i + 1][..i] == dirs[..i];
      var delete := ScanForDelete(rules, d.files);
      if delete {
        dirsToDelete := dirsToDelete + [JoinPath(workingDir, d.dir.name)];
      }
    }
    assert dirs[..|dirs|] == dirs;
  }

  /**
   * The inner loop of `_get_empty_dirs`: the `delete` flag, cleared by a
   * do-not-delete file (which ends the scan) or by a video that is not a
   * sample or a trailer.
   */
  method ScanForDelete(rules: Rules, files: seq<FileEntry>) returns (delete: bool)
    ensures delete == DirIsEmpty(rules, files)
  {
    delete := true;
    ghost var blocker := 0;
    for j := 0 to |files|
      invariant delete ==> forall k :: 0 <= k < j ==> FileAllowsDelete(rules, files[k])
      invariant !delete ==> 0 <= blocker < |files| && !FileAllowsDelete(rules, files[blocker])
    {
      var allows, stop := CheckFileForDelete(rules, files[j]);
      if !allows {
        delete, blocker := false, j;
      }
      if stop {
        break;
      }
    }
    if !delete {
      BlockerKeepsDir(rules, files, blocker);
    }
  }

  /** One file that does not allow deletion keeps its directory. */
  lemma BlockerKeepsDir(rules: Rules, files: seq<FileEntry>, blocker: nat)
    requires blocker < |files| && !FileAllowsDelete(rules, files[blocker])
    ensures !DirIsEmpty(rules, files)
  {
  }

  /**
   * The body of the inner loop of `_get_empty_dirs` for one file: whether the
   * file lets the directory be deleted, and whether the scan stops at it (a
   * do-not-delete extension).
   */
  method CheckFileForDelete(rules: Rules, f: FileEntry) returns (allows: bool, stop: bool)
    ensures allows == FileAllowsDelete(rules, f)
    ensures stop <==> SplitExt(f.name).1 in rules.doNotDelete
    ensures stop ==> !allows
  {
    var ext := SplitExt(f.name).1;
    if ext in rules.doNotDelete {
      return false, true;
    }
    allows := !HasVideoExt(rules, ext) || SampleOrTrailer(f.name);
    stop := false;
  }

  /** A path is listed exactly when it is the working-directory path of an empty directory. */
  lemma {:induction false} EmptyDirsMembers(rules: Rules, workingDir: String, dirs: seq<DirListing>, p: String)
    ensures p in EmptyDirs(rules, workingDir, dirs) <==>
      exists i :: 0 <= i < |dirs| && DirIsEmpty(rules, dirs[i].files) && p == JoinPath(workingDir, dirs[i].dir.name)
  {
    if dirs != [] {
      var init := dirs[..|dirs| - 1];
      EmptyDirsMembers(rules, workingDir, init, p);
      if exists i :: 0 <= i < |dirs| && DirIsEmpty(rules, dirs[i].files) && p == JoinPath(workingDir, dirs[i].dir.name) {
        var i :| 0 <= i < |dirs| && DirIsEmpty(rules, dirs[i].files) && p == JoinPath(workingDir, dirs[i].dir.name);
        if i < |dirs| - 1 {
          assert init[i] == dirs[i];
        }
      }
      if p in EmptyDirs(rules, workingDir, init) {
        var i :| 0 <= i < |init| && DirIsEmpty(rules, init[i].files) && p == JoinPath(workingDir, init[i].dir.name);
        assert init[i] == dirs[i];
      }
    }
  }

  /** No more paths than directories are listed. */
  lemma {:induction false} EmptyDirsLength(rules: Rules, workingDir: String, dirs: seq<DirListing>)
    ensures |EmptyDirs(rules, workingDir, dirs)| <= |dirs|
  {
    if dirs != [] {
      EmptyDirsLength(rules, workingDir, dirs[..|dirs| - 1]);
    }
  }

  /**
   * A directory in which some file is still downloading (a do-not-delete
   * extension) is never counted as empty, and neither is one holding a video
   * that `_process_file` would extract, unless that video is a sample or a trailer.
   */
  lemma KeptFilesKeepDirectory(rules: Rules, workingDir: String, files: seq<FileEntry>)
    ensures Downloading(Processor(rules, workingDir), files) ==> !DirIsEmpty(rules, files)
    ensures (exists j :: 0 <= j < |files| && Processor(rules, workingDir)(files[j]).0.Some? && !SampleOrTrailer(files[j].name)) ==>
      !DirIsEmpty(rules, files)
  {
    var process := Processor(rules, workingDir);
    if Downloading(process, files) {
      var j :| 0 <= j < |files| && process(files[j]).1;
      assert !FileAllowsDelete(rules, files[j]);
    }
    if exists j :: 0 <= j < |files| && process(files[j]).0.Some? && !SampleOrTrailer(files[j].name) {
      var j :| 0 <= j < |files| && process(files[j]).0.Some? && !SampleOrTrailer(files[j].name);
      ContainsAnyIff(SplitExt(files[j].name).1, rules.videoFileExtensions);
      assert !FileAllowsDelete(rules, files[j]);
    }
  }

  // ---------------------------------------------------------------------------
  // Collecting the moves: `move_movie_files`, `move_show_files`
  // ---------------------------------------------------------------------------

  /**
   * The `files_to_move` dictionary a loop builds from `items`: `plan` gives the
   * source and destination of an item, or `None` when the item is not moved.
   */
  function CollectMoves<T>(plan: T -> Option<(String, String)>, items: seq<T>): Dict
  {
    if items == [] then []
    else
      var prev := CollectMoves(plan, items[..|items| - 1]);
      match plan(items[|items| - 1])
      case Some((src, dest)) => Put(prev, src, dest)
      case None => prev
  }

  /** One more item extends the dictionary by its planned move. */
  lemma CollectMovesStep<T>(plan: T -> Option<(String, String)>, items: seq<T>, i: nat)
    requires i < |items|
    ensures CollectMoves(plan, items[..i + 1]) ==
      match plan(items[i])
      case Some((src, dest)) => Put(CollectMoves(plan, items[..i]), src, dest)
      case None => CollectMoves(plan, items[..i])
  {
    assert items[..i + 1][..i] == items[..i];
  }

  /** `entry` is the planned move of one of the items. */
  predicate PlannedMove<T>(plan: T -> Option<(String, String)>, items: seq<T>, entry: (String, String))
  {
    exists i :: 0 <= i < |items| && plan(items[i]) == Some(entry)
  }

  /** Every entry of the dictionary is the planned move of one of the items. */
  lemma {:induction false} CollectMovesSound<T>(plan: T -> Option<(String, String)>, items: seq<T>)
    ensures forall m :: 0 <= m < |CollectMoves(plan, items)| ==> PlannedMove(plan, items, CollectMoves(plan, items)[m])
  {
    if items != [] {
      var init := items[..|items| - 1];
      var last := |items| - 1;
      CollectMovesSound(plan, init);
      var prev := CollectMoves(plan, init);
      var r := CollectMoves(plan, items);
      if plan(items[last]).Some? {
        PutEntries(prev, plan(items[last]).value.0, plan(items[last]).value.1);
      }
      forall m | 0 <= m < |r| ensures PlannedMove(plan, items, r[m]) {
        if r[m] in prev {
          var n :| 0 <= n < |prev| && prev[n] == r[m];
          assert PlannedMove(plan, init, prev[n]);
          var i :| 0 <= i < |init| && plan(init[i]) == Some(prev[n]);
          assert init[i] == items[i];
        } else {
          var (src, dest) := plan(items[last]).value;
          assert r[m] == (src, dest);
          assert plan(items[last]) == Some(r[m]);
        }
      }
    }
  }

  /** Every item that is moved has its source among the dictionary's keys. */
  lemma {:induction false} CollectMovesComplete<T>(plan: T -> Option<(String, String)>, items: seq<T>)
    ensures forall i :: 0 <= i < |items| && plan(items[i]).Some? ==> plan(items[i]).value.0 in Keys(CollectMoves(plan, items))
  {
    if items != [] {
      var init := items[..|items| - 1];
      CollectMovesComplete(plan, init);
      forall i | 0 <= i < |items| && plan(items[i]).Some?
        ensures plan(items[i]).value.0 in Keys(CollectMoves(plan, items))
      {
        if i < |items| - 1 {
          assert init[i] == items[i];
        }
      }
    }
  }

  /**
   * One iteration of `move_movie_files` whose destination does not raise: the
   * movie moves from the working directory to `_build_movie_destination`'s
   * path, if there is one.
   */
  function MoviePlan(workingDir: String, libraries: Dict): String -> Option<(String, String)>
    requires DistinctKeys(libraries)
  {
    (name: String) =>
      match BuildMovieDestination(name, libraries)
      case Returned(Some(dest)) => Some((JoinPath(workingDir, name), dest))
      case _ => None
  }

  /**
   * The `files_to_move` dictionary `move_movie_files` builds, or `None` when
   * `_build_movie_destination` raises, which with several libraries happens at
   * the first movie and ends `move_movie_files` before anything moves.
   */
  function MovieMoves(workingDir: String, libraries: Dict, movies: seq<String>): Option<Dict>
    requires DistinctKeys(libraries)
  {
    if |libraries| > 1 && movies != [] then None
    else Some(CollectMoves(MoviePlan(workingDir, libraries), movies))
  }

  /** The loop of `move_movie_files(movies, working_directory)` that fills `files_to_move`. */
  method CollectMovieMoves(workingDir: String, libraries: Dict, movies: seq<String>) returns (filesToMove: Option<Dict>)
    requires DistinctKeys(libraries)
    ensures filesToMove == MovieMoves(workingDir, libraries, movies)
  {
    var moves: Dict := [];
    for i := 0 to |movies|
      invariant i > 0 ==> |libraries| <= 1
      invariant moves == CollectMoves(MoviePlan(workingDir, libraries), movies[..i])
    {
      var name := movies[i];
      var dest := BuildMovieDestination(name, libraries);
      if dest.Raised? {
        return None;
      }
      CollectMovesStep(MoviePlan(workingDir, libraries), movies, i);
      if dest.value.Some? {
        moves := Put(moves, JoinPath(workingDir, name), dest.value.value);
      }
    }
    assert movies[..|movies|] == movies;
    filesToMove := Some(moves);
  }

  /**
   * What `move_movie_files` plans: nothing at all when it raises (several
   * libraries and at least one movie); an empty dictionary with no library;
   * with one library, each movie from the working directory to its folder there.
   */
  lemma MovieMovesOutcome(workingDir: String, libraries: Dict, movies: seq<String>)
    requires DistinctKeys(libraries)
    ensures MovieMoves(workingDir, libraries, movies).None? <==> |libraries| > 1 && movies != []
    ensures libraries == [] ==> MovieMoves(workingDir, libraries, movies) == Some([])
    ensures |libraries| == 1 ==> forall name ::
      MoviePlan(workingDir, libraries)(name) == Some((JoinPath(workingDir, name), MovieDestinationIn(libraries[0].1, name)))
  {
    if libraries == [] {
      var plan := MoviePlan(workingDir, libraries);
      forall i | 0 <= i < |movies| ensures plan(movies[i]).None? {
        assert BuildMovieDestination(movies[i], libraries) == Returned(None);
      }
      CollectNoMoves(plan, movies);
    }
  }

  /** Items none of which is moved give an empty dictionary. */
  lemma {:induction false} CollectNoMoves<T>(plan: T -> Option<(String, String)>, items: seq<T>)
    requires forall i :: 0 <= i < |items| ==> plan(items[i]).None?
    ensures CollectMoves(plan, items) == []
  {
    if items != [] {
      var init := items[..|items| - 1];
      assert forall i :: 0 <= i < |init| ==> init[i] == items[i];
      CollectNoMoves(plan, init);
    }
  }

  /**
   * One iteration of `move_movie_files` as intended: each movie comes with the
   * position of the library the user picks for it, and moves there.
   */
  function IntendedMoviePlan(workingDir: String, libraries: Dict): ((String, nat)) -> Option<(String, String)>
    requires DistinctKeys(libraries)
  {
    (movie: (String, nat)) =>
      if |libraries| > 1 && movie.1 >= |libraries| then None
      else match PickLibrary(libraries, movie.1)
        case Some(library) => Some((JoinPath(workingDir, movie.0), MovieDestinationIn(library, movie.0)))
        case None => None
  }

  /**
   * As intended, a movie moves from the working directory to its folder in the
   * library picked for it; with no library, nothing is planned.
   */
  lemma MoviePlanMoves(workingDir: String, libraries: Dict, movie: (String, nat))
    requires DistinctKeys(libraries)
    requires |libraries| > 1 ==> movie.1 < |libraries|
    ensures IntendedMoviePlan(workingDir, libraries)(movie).None? <==> libraries == []
    ensures libraries != [] ==>
      exists i :: 0 <= i < |libraries| &&
        IntendedMoviePlan(workingDir, libraries)(movie) == Some((JoinPath(workingDir, movie.0), MovieDestinationIn(libraries[i].1, movie.0)))
    ensures |libraries| > 1 ==>
      IntendedMoviePlan(workingDir, libraries)(movie) == Some((JoinPath(workingDir, movie.0), MovieDestinationIn(libraries[movie.1].1, movie.0)))
  {
    if libraries != [] {
      var i := if |libraries| > 1 then movie.1 else 0;
      assert PickLibrary(libraries, movie.1) == Some(libraries[i].1);
    }
  }

  /** With at most one library, the loop as written plans what the intended one plans. */
  lemma MoviePlanAgrees(workingDir: String, libraries: Dict, movie: (String, nat))
    requires DistinctKeys(libraries) && |libraries| <= 1
    ensures MoviePlan(workingDir, libraries)(movie.0) == IntendedMoviePlan(workingDir, libraries)(movie)
  {
    ChooseLibraryTypeError(libraries, movie.1);
  }

  /**
   * Where a show file ends up once the user has answered: an indexed show
   * goes to its folder; an unknown one to what `_prompt_for_new_show` returns
   * (`prompt`, `None` if the user declines); a file without a season/episode
   * is not moved.
   */
  function ShowTarget(d: ShowDestination, prompt: (String, String, String) -> Option<String>): Option<String>
  {
    match d
    case Known(path) => Some(path)
    case AskUser(show, folder, fileName) => prompt(show, folder, fileName)
    case _ => None
  }

  /** `_build_show_destination` with the show index fixed, by file name. */
  function ShowDestinations(index: map<String, String>): String -> ShowDestination
  {
    (name: String) => BuildShowDestination(name, index)
  }

  /** Building the destination of this show file raises. */
  predicate DestinationRaises(destinations: String -> ShowDestination, f: FileEntry)
  {
    destinations(f.name).ParseRaises? || destinations(f.name).SplitRaises?
  }

  /** Where one show file moves, given its destination: from the working directory to its target. */
  function ShowMove(workingDir: String, d: ShowDestination, prompt: (String, String, String) -> Option<String>,
                    f: FileEntry): Option<(String, String)>
  {
    match ShowTarget(d, prompt)
    case Some(dest) => Some((JoinPath(workingDir, f.path), dest))
    case None => None
  }

  /** One iteration of `move_show_files`, as a plan for `CollectMoves`. */
  function ShowPlan(workingDir: String, destinations: String -> ShowDestination, prompt: (String, String, String) -> Option<String>):
    FileEntry -> Option<(String, String)>
  {
    (f: FileEntry) => ShowMove(workingDir, destinations(f.name), prompt, f)
  }

  /** Building the destination of none of these show files raises. */
  predicate NoneRaises(destinations: String -> ShowDestination, shows: seq<FileEntry>)
  {
    forall k :: 0 <= k < |shows| ==> !DestinationRaises(destinations, shows[k])
  }

  /**
   * The `files_to_move` dictionary `move_show_files` builds, or `None` when
   * building some destination raises, which ends `move_show_files` before
   * anything moves.
   */
  function ShowMoves(workingDir: String, destinations: String -> ShowDestination,
                     prompt: (String, String, String) -> Option<String>, shows: seq<FileEntry>): Option<Dict>
  {
    if NoneRaises(destinations, shows) then Some(CollectMoves(ShowPlan(workingDir, destinations, prompt), shows))
    else None
  }

  /** The loop of `move_show_files(shows, working_directory)` that fills `files_to_move`. */
  method CollectShowMoves(workingDir: String, index: map<String, String>, prompt: (String, String, String) -> Option<String>,
                          shows: seq<FileEntry>) returns (filesToMove: Option<Dict>)
    ensures filesToMove == ShowMoves(workingDir, ShowDestinations(index), prompt, shows)
  {
    ghost var destinations := ShowDestinations(index);
    ghost var plan := ShowPlan(workingDir, destinations, prompt);
    var moves: Dict := [];
    for i := 0 to |shows|
      invariant NoneRaises(destinations, shows[..i])
      invariant moves == CollectMoves(plan, shows[..i])
    {
      var raises, move := ShowMoveOf(workingDir, index, prompt, shows[i]);
      if raises {
        return None;
      }
      NoneRaisesStep(destinations, shows, i);
      CollectMovesStep(plan, shows, i);
      if move.Some? {
        moves := Put(moves, move.value.0, move.value.1);
      }
    }
    assert shows[..|shows|] == shows;
    filesToMove := Some(moves);
  }

  lemma NoneRaisesStep(destinations: String -> ShowDestination, shows: seq<FileEntry>, i: nat)
    requires i < |shows| && NoneRaises(destinations, shows[..i]) && !DestinationRaises(destinations, shows[i])
    ensures NoneRaises(destinations, shows[..i + 1])
  {
    forall k | 0 <= k < i + 1 ensures !DestinationRaises(destinations, shows[k]) {
      if k < i {
        assert shows[..i][k] == shows[k];
      }
    }
  }

  /** The body of the loop of `move_show_files` for one show file. */
  method ShowMoveOf(workingDir: String, index: map<String, String>, prompt: (String, String, String) -> Option<String>,
                    f: FileEntry) returns (raises: bool, move: Option<(String, String)>)
    ensures raises == DestinationRaises(ShowDestinations(index), f)
    ensures move == ShowPlan(workingDir, ShowDestinations(index), prompt)(f)
  {
    var d := BuildShowDestination(f.name, index);
    assert ShowDestinations(index)(f.name) == d;
    raises := d.ParseRaises? || d.SplitRaises?;
    move := ShowMove(workingDir, d, prompt, f);
  }

  /**
   * A show file's planned move takes it from the working directory to its
   * indexed folder or to where the prompt says; a file without a
   * season/episode, or whose new show the user declines, is not moved.
   */
  lemma ShowPlanMoves(workingDir: String, destinations: String -> ShowDestination,
                      prompt: (String, String, String) -> Option<String>, f: FileEntry)
    ensures var d := destinations(f.name);
      (d.Known? ==> ShowPlan(workingDir, destinations, prompt)(f) == Some((JoinPath(workingDir, f.path), d.path))) &&
      (d.AskUser? ==> (ShowPlan(workingDir, destinations, prompt)(f).Some? <==> prompt(d.showName, d.seasonFolder, d.fileName).Some?)) &&
      (d.NoEpisode? ==> ShowPlan(workingDir, destinations, prompt)(f).None?)
  {
  }

  // ---------------------------------------------------------------------------
  // Performing the moves: `_perform_moves`
  // ---------------------------------------------------------------------------

  /**
   * One entry of `_perform_moves` on a file system given as path to content:
   * an existing destination is skipped; otherwise the source moves there, and
   * a missing source (whose move raises and is logged) changes nothing.
   */
  function MoveStep(fs: map<String, String>, src: String, dest: String): (r: map<String, String>)
    ensures dest in fs ==> r == fs
    ensures dest !in fs && src in fs ==> dest in r && r[dest] == fs[src] && src !in r
    ensures forall p :: p != src && p != dest ==> (p in r <==> p in fs) && (p in fs ==> r[p] == fs[p])
  {
    if dest in fs then fs
    else if src in fs then fs - {src} + map[dest := fs[src]]
    else fs
  }

  /** The file system after every entry of `files_to_move`, in order. */
  function MoveAll(fs: map<String, String>, moves: Dict): map<String, String>
  {
    if moves == [] then fs
    else
      var last := moves[|moves| - 1];
      MoveStep(MoveAll(fs, moves[..|moves| - 1]), last.0, last.1)
  }

  /** The files the moves act on, as a path-to-content map. */
  class FileSystem {
    var files: map<String, String>

    constructor (initial: map<String, String>)
      ensures files == initial
    {
      files := initial;
    }

    /**
     * `_perform_moves(files_to_move, media_type, debug)`: `confirmed` is the
     * user's answer to the question asked before moving anything.
     */
    method PerformMoves(moves: Dict, confirmed: bool, debug: bool)
      modifies this
      ensures files == (if moves != [] && confirmed && !debug then MoveAll(old(files), moves) else old(files))
    {
      if moves == [] {
        return;
      }
      if confirmed {
        for i := 0 to |moves|
          invariant files == (if !debug then MoveAll(old(files), moves[..i]) else old(files))
        {
          assert moves[..i + 1][..i] == moves[..i];
          var (src, dest) := moves[i];
          if dest in files {
            continue;
          }
          if !debug && src in files {
            files := files - {src} + map[dest := files[src]];
          }
        }
        assert moves[..|moves|] == moves;
      }
    }
  }

  /**
   * The moves never overwrite: a file that is not the source of any move is
   * still there afterwards with the same content, even when it is the
   * destination of a move.
   */
  lemma {:induction false} MoveAllNeverOverwrites(fs: map<String, String>, moves: Dict, p: String)
    requires p in fs && p !in Keys(moves)
    ensures p in MoveAll(fs, moves) && MoveAll(fs, moves)[p] == fs[p]
  {
    if moves != [] {
      var init := moves[..|moves| - 1];
      assert Keys(init) <= Keys(moves) by {
        forall x | x in Keys(init) ensures x in Keys(moves) {
          var i :| 0 <= i < |init| && init[i].0 == x;
          assert moves[i].0 == x;
        }
      }
      MoveAllNeverOverwrites(fs, init, p);
      assert moves[|moves| - 1].0 in Keys(moves);
    }
  }

  /** The moves neither lose nor duplicate files: the number of paths is unchanged. */
  lemma {:induction false} MoveAllKeepsCount(fs: map<String, String>, moves: Dict)
    ensures |MoveAll(fs, moves).Keys| == |fs.Keys|
  {
    if moves != [] {
      var init := moves[..|moves| - 1];
      MoveAllKeepsCount(fs, init);
      MoveStepKeepsCount(MoveAll(fs, init), moves[|moves| - 1].0, moves[|moves| - 1].1);
    }
  }

  /** One move neither loses nor duplicates files. */
  lemma MoveStepKeepsCount(fs: map<String, String>, src: String, dest: String)
    ensures |MoveStep(fs, src, dest).Keys| == |fs.Keys|
  {
    if dest !in fs && src in fs {
      var rest := fs.Keys - {src};
      assert MoveStep(fs, src, dest).Keys == rest + {dest};
      assert fs.Keys == rest + {src};
    }
  }

  /**
   * Every path present after the moves was present before or is the
   * destination of a move; every path gone afterwards was the source of one.
   */
  lemma {:induction false} MoveAllPaths(fs: map<String, String>, moves: Dict, p: String)
    ensures p in MoveAll(fs, moves) && p !in fs ==> exists i :: 0 <= i < |moves| && moves[i].1 == p
    ensures p in fs && p !in MoveAll(fs, moves) ==> p in Keys(moves)
  {
    if moves != [] {
      var init := moves[..|moves| - 1];
      MoveAllPaths(fs, init, p);
      if p in MoveAll(fs, init) && p !in fs {
        var i :| 0 <= i < |init| && init[i].1 == p;
        assert moves[i].1 == p;
      }
      if p in fs && p !in MoveAll(fs, init) {
        var i :| 0 <= i < |init| && init[i].0 == p;
        assert moves[i].0 == p;
      }
      assert moves[|moves| - 1].0 in Keys(moves);
    }
  }
}
