/**
 * filetools/naming_files.py: the year finder, the check for names already in
 * the library's shape, the cleaning of show names and season/episode tokens,
 * the TV and movie name formats, and the choice of a file's new name.
 */
module Naming {
  import opened Text
  import opened Utils

  // ---------------------------------------------------------------------------
  // _get_year
  // ---------------------------------------------------------------------------

  /**
   * The starts of the matches of `re.findall(r"[0-9]{4}", s)` from `i`:
   * four-digit runs taken left to right without overlap, not word-bounded.
   */
  function YearRuns(s: String, i: nat): (r: seq<nat>)
    requires i <= |s|
    ensures forall k :: 0 <= k < |r| ==> i <= r[k] && DigitsAt(s, r[k], 4)
    ensures forall k :: 0 <= k < |r| - 1 ==> r[k] + 4 <= r[k + 1]
    decreases |s| - i
  {
    if i + 4 > |s| then []
    else if DigitsAt(s, i, 4) then [i] + YearRuns(s, i + 4)
    else YearRuns(s, i + 1)
  }

  /** No four-digit run is missed: each one overlaps the `k`-th match, which starts at or before it. */
  lemma {:induction false} YearRunsCover(s: String, i: nat, q: nat) returns (k: nat)
    requires i <= q && DigitsAt(s, q, 4)
    ensures k < |YearRuns(s, i)| && YearRuns(s, i)[k] <= q < YearRuns(s, i)[k] + 4
    decreases |s| - i
  {
    var r := YearRuns(s, i);
    if DigitsAt(s, i, 4) {
      var rest := YearRuns(s, i + 4);
      assert r == [i] + rest;
      if q < i + 4 {
        k := 0;
      } else {
        var k' := YearRunsCover(s, i + 4, q);
        k := k' + 1;
        assert r[k] == rest[k'];
      }
    } else {
      assert q != i;
      assert r == YearRuns(s, i + 1);
      k := YearRunsCover(s, i + 1, q);
    }
  }

  /** Every four-digit run of the text lies within one of the matches. */
  lemma {:induction false} YearRunsComplete(s: String, q: nat)
    requires DigitsAt(s, q, 4)
    ensures exists k :: 0 <= k < |YearRuns(s, 0)| && YearRuns(s, 0)[k] <= q < YearRuns(s, 0)[k] + 4
  {
    var k := YearRunsCover(s, 0, q);
  }

  /** The text of the four-digit run at `p`. */
  function YearText(s: String, p: nat): (y: String)
    requires DigitsAt(s, p, 4)
    ensures |y| == 4 && AllDigits(y) && OccursAt(s, y, p)
  {
    s[p..p + 4]
  }

  /** `year_min <= int(m) <= year_max` for the run at `p`. */
  predicate InYearRange(s: String, p: nat, yearMin: int, yearMax: int)
    requires DigitsAt(s, p, 4)
  {
    yearMin <= Value(YearText(s, p)) <= yearMax
  }

  /** `runs[k]` is in range and no later run is. */
  predicate LastInRangeAt(s: String, runs: seq<nat>, k: nat, yearMin: int, yearMax: int)
    requires forall j :: 0 <= j < |runs| ==> DigitsAt(s, runs[j], 4)
  {
    k < |runs| && InYearRange(s, runs[k], yearMin, yearMax) &&
    forall j :: k < j < |runs| ==> !InYearRange(s, runs[j], yearMin, yearMax)
  }

  /** No run in `runs` is in range. */
  predicate NoneInRange(s: String, runs: seq<nat>, yearMin: int, yearMax: int)
    requires forall j :: 0 <= j < |runs| ==> DigitsAt(s, runs[j], 4)
  {
    forall k :: 0 <= k < |runs| ==> !InYearRange(s, runs[k], yearMin, yearMax)
  }

  /** `[m for m in runs if in range][-1]`, as an index into `runs`. */
  function LastInRange(s: String, runs: seq<nat>, yearMin: int, yearMax: int): (r: Option<nat>)
    requires forall k :: 0 <= k < |runs| ==> DigitsAt(s, runs[k], 4)
    ensures r.Some? ==> LastInRangeAt(s, runs, r.value, yearMin, yearMax)
    ensures r.None? <==> NoneInRange(s, runs, yearMin, yearMax)
  {
    if runs == [] then None
    else if InYearRange(s, runs[|runs| - 1], yearMin, yearMax) then Some(|runs| - 1)
    else LastInRange(s, runs[..|runs| - 1], yearMin, yearMax)
  }

  /**
   * `_get_year(s)`: of the four-digit runs `re.findall` yields, the last one
   * whose value lies within `[yearMin, yearMax]`; `None` when none does.
   */
  function GetYear(s: String, yearMin: int, yearMax: int): (r: Option<String>)
    ensures r.None? <==> NoneInRange(s, YearRuns(s, 0), yearMin, yearMax)
    ensures r.Some? ==> exists k: nat ::
      LastInRangeAt(s, YearRuns(s, 0), k, yearMin, yearMax) && r.value == YearText(s, YearRuns(s, 0)[k])
  {
    var runs := YearRuns(s, 0);
    var last := LastInRange(s, runs, yearMin, yearMax);
    if last.Some? then
      assert LastInRangeAt(s, runs, last.value, yearMin, yearMax);
      Some(YearText(s, runs[last.value]))
    else None
  }

  /** A found year is four digits, in range, and occurs in the text. */
  lemma GetYearFound(s: String, yearMin: int, yearMax: int)
    requires GetYear(s, yearMin, yearMax).Some?
    ensures var y := GetYear(s, yearMin, yearMax).value;
      |y| == 4 && AllDigits(y) && yearMin <= Value(y) <= yearMax && Contains(s, y)
  {
    var runs := YearRuns(s, 0);
    var y := GetYear(s, yearMin, yearMax).value;
    var k: nat :| LastInRangeAt(s, runs, k, yearMin, yearMax) && y == YearText(s, runs[k]);
    ContainsAt(s, y, runs[k]);
  }

  // ---------------------------------------------------------------------------
  // _is_properly_formatted
  // ---------------------------------------------------------------------------

  /** `[a-z0-9_]` */
  predicate IsNameChar(c: char) { IsLowerLetter(c) || IsDigit(c) || c == '_' }

  /** `[a-z0-9]` */
  predicate IsExtChar(c: char) { IsLowerLetter(c) || IsDigit(c) }

  predicate NameCharsAt(s: String, p: nat, n: nat)
  {
    p + n <= |s| && forall k :: p <= k < p + n ==> IsNameChar(s[k])
  }

  predicate ExtCharsAt(s: String, p: nat, n: nat)
  {
    p + n <= |s| && forall k :: p <= k < p + n ==> IsExtChar(s[k])
  }

  /** `[a-z0-9]+$` from `q`. */
  ghost predicate ExtensionToEnd(s: String, q: nat)
  {
    exists e: nat :: 1 <= e && ExtCharsAt(s, q, e) && AtEnd(s, q + e)
  }

  /** `\.[a-z0-9]+$` from `q`. */
  ghost predicate DotThenExtension(s: String, q: nat)
  {
    q < |s| && s[q] == '.' && ExtensionToEnd(s, q + 1)
  }

  /** `_\(\d{4}\)\.[a-z0-9]+$` from `q`. */
  ghost predicate YearThenExtension(s: String, q: nat)
  {
    q + 7 <= |s| && s[q] == '_' && s[q + 1] == '(' && DigitsAt(s, q + 2, 4) && s[q + 6] == ')' &&
    DotThenExtension(s, q + 7)
  }

  /** The language of `^[a-z0-9_]+_\(\d{4}\)\.[a-z0-9]+$`. */
  ghost predicate MovieShape(s: String)
  {
    exists n: nat :: 1 <= n && NameCharsAt(s, 0, n) && YearThenExtension(s, n)
  }

  /** `\d{2,3}\.[a-z0-9]+$` from `q`. */
  ghost predicate EpisodeDigitsThenExtension(s: String, q: nat)
  {
    exists c: nat :: 2 <= c <= 3 && DigitsAt(s, q, c) && DotThenExtension(s, q + c)
  }

  /** `e\d{2,3}\.[a-z0-9]+$` from `q`. */
  ghost predicate EpisodeThenExtension(s: String, q: nat)
  {
    q < |s| && s[q] == 'e' && EpisodeDigitsThenExtension(s, q + 1)
  }

  /** `\d{2,4}e\d{2,3}\.[a-z0-9]+$` from `q`. */
  ghost predicate SeasonThenRest(s: String, q: nat)
  {
    exists d: nat :: 2 <= d <= 4 && DigitsAt(s, q, d) && EpisodeThenExtension(s, q + d)
  }

  /** The language of `^[a-z0-9_]+_s\d{2,4}e\d{2,3}\.[a-z0-9]+$`. */
  ghost predicate ShowShape(s: String)
  {
    exists n: nat :: 1 <= n && NameCharsAt(s, 0, n) && n + 2 <= |s| && s[n] == '_' && s[n + 1] == 's' &&
      SeasonThenRest(s, n + 2)
  }

  /** `[a-z0-9]+$` from `q`, decided by the longest run. */
  function ExtensionEnds(s: String, q: nat): bool
    requires q <= |s|
  {
    var e := RunOf(s, q, IsExtChar);
    1 <= e && AtEnd(s, q + e)
  }

  /**
   * `movie_pattern.match(s)`: `(` is not a name character, so the name run
   * must stop right before it, and its last character must be `_`.
   */
  function MovieMatch(s: String): bool
  {
    var r := RunOf(s, 0, IsNameChar);
    2 <= r && r + 7 <= |s| && s[r - 1] == '_' && s[r] == '(' && DigitsAt(s, r + 1, 4) &&
    s[r + 5] == ')' && s[r + 6] == '.' && ExtensionEnds(s, r + 7)
  }

  /** `_s` + `d` digits + `e` + `c` digits ending at `r`, after a non-empty name. */
  predicate ShowTail(s: String, r: nat, d: nat, c: nat)
    requires r <= |s|
  {
    d + c + 4 <= r &&
    var n := r - d - c - 3;
    s[n] == '_' && s[n + 1] == 's' && DigitsAt(s, n + 2, d) && s[n + 2 + d] == 'e' && DigitsAt(s, n + 3 + d, c)
  }

  /**
   * `show_pattern.match(s)`: the token's characters are all name characters,
   * so the name run must stop at the dot, and the token must end it.
   */
  function ShowMatch(s: String): bool
  {
    var r := RunOf(s, 0, IsNameChar);
    r < |s| && s[r] == '.' && ExtensionEnds(s, r + 1) &&
    (ShowTail(s, r, 2, 2) || ShowTail(s, r, 2, 3) || ShowTail(s, r, 3, 2) ||
     ShowTail(s, r, 3, 3) || ShowTail(s, r, 4, 2) || ShowTail(s, r, 4, 3))
  }

  /** `_is_properly_formatted(file_name)` */
  function IsProperlyFormatted(fileName: String): (b: bool)
    ensures b <==> MovieShape(fileName) || ShowShape(fileName)
  {
    MovieMatchIff(fileName);
    ShowMatchIff(fileName);
    MovieMatch(fileName) || ShowMatch(fileName)
  }

  /** The longest extension run is the one an anchored extension must use. */
  lemma ExtensionEndsIff(s: String, q: nat)
    requires q <= |s|
    ensures ExtensionEnds(s, q) <==> ExtensionToEnd(s, q)
  {
    var e := RunOf(s, q, IsExtChar);
    RunOfSpans(s, q, IsExtChar);
    if ExtensionEnds(s, q) {
      assert ExtCharsAt(s, q, e);
    }
    if ExtensionToEnd(s, q) {
      var e': nat :| 1 <= e' && ExtCharsAt(s, q, e') && AtEnd(s, q + e');
      RunOfAtLeast(s, q, IsExtChar, e');
      if e' < e {
        assert IsExtChar(s[q + e']);
      }
    }
  }

  /** A name run that stops at `m`: the longest run from the start is exactly `m` long. */
  lemma {:induction false} NameRunIs(s: String, m: nat)
    requires NameCharsAt(s, 0, m) && (m == |s| || !IsNameChar(s[m]))
    ensures RunOf(s, 0, IsNameChar) == m
  {
    RunOfAtLeast(s, 0, IsNameChar, m);
    RunOfSpans(s, 0, IsNameChar);
  }

  /** The characters of the longest name run are name characters. */
  lemma {:induction false} NameRunChars(s: String)
    ensures NameCharsAt(s, 0, RunOf(s, 0, IsNameChar))
  {
    RunOfSpans(s, 0, IsNameChar);
  }

  lemma MovieMatchSound(s: String)
    requires MovieMatch(s)
    ensures MovieShape(s)
  {
    var r := RunOf(s, 0, IsNameChar);
    NameRunChars(s);
    ExtensionEndsIff(s, r + 7);
    var n := r - 1;
    assert NameCharsAt(s, 0, n);
    assert DotThenExtension(s, n + 7);
    assert YearThenExtension(s, n);
  }

  lemma MovieMatchComplete(s: String)
    requires MovieShape(s)
    ensures MovieMatch(s)
  {
    var n: nat :| 1 <= n && NameCharsAt(s, 0, n) && YearThenExtension(s, n);
    NameRunIs(s, n + 1);
    ExtensionEndsIff(s, n + 8);
  }

  lemma MovieMatchIff(s: String)
    ensures MovieMatch(s) <==> MovieShape(s)
  {
    if MovieMatch(s) {
      MovieMatchSound(s);
    }
    if MovieShape(s) {
      MovieMatchComplete(s);
    }
  }

  lemma ShowTailSound(s: String, r: nat, d: nat, c: nat)
    requires r < |s| && s[r] == '.' && ExtensionToEnd(s, r + 1)
    requires 2 <= d <= 4 && 2 <= c <= 3 && ShowTail(s, r, d, c)
    requires NameCharsAt(s, 0, r)
    ensures ShowShape(s)
  {
    var n := r - d - c - 3;
    assert NameCharsAt(s, 0, n);
    assert DotThenExtension(s, n + 3 + d + c);
    assert EpisodeDigitsThenExtension(s, n + 3 + d);
    assert EpisodeThenExtension(s, n + 2 + d);
    assert SeasonThenRest(s, n + 2);
  }

  lemma ShowMatchSound(s: String)
    requires ShowMatch(s)
    ensures ShowShape(s)
  {
    var r := RunOf(s, 0, IsNameChar);
    ExtensionEndsIff(s, r + 1);
    NameRunChars(s);
    if ShowTail(s, r, 2, 2) {
      ShowTailSound(s, r, 2, 2);
    } else if ShowTail(s, r, 2, 3) {
      ShowTailSound(s, r, 2, 3);
    } else if ShowTail(s, r, 3, 2) {
      ShowTailSound(s, r, 3, 2);
    } else if ShowTail(s, r, 3, 3) {
      ShowTailSound(s, r, 3, 3);
    } else if ShowTail(s, r, 4, 2) {
      ShowTailSound(s, r, 4, 2);
    } else {
      ShowTailSound(s, r, 4, 3);
    }
  }

  lemma ShowMatchComplete(s: String, n: nat, d: nat, c: nat)
    requires 1 <= n && NameCharsAt(s, 0, n) && n + 2 <= |s| && s[n] == '_' && s[n + 1] == 's'
    requires 2 <= d <= 4 && DigitsAt(s, n + 2, d) && n + 2 + d < |s| && s[n + 2 + d] == 'e'
    requires 2 <= c <= 3 && DigitsAt(s, n + 3 + d, c) && DotThenExtension(s, n + 3 + d + c)
    ensures ShowMatch(s)
  {
    var r := n + 3 + d + c;
    assert NameCharsAt(s, 0, r);
    NameRunIs(s, r);
    ExtensionEndsIff(s, r + 1);
    assert ShowTail(s, r, d, c);
  }

  lemma ShowMatchIff(s: String)
    ensures ShowMatch(s) <==> ShowShape(s)
  {
    if ShowMatch(s) {
      ShowMatchSound(s);
    }
    if ShowShape(s) {
      var n: nat :| 1 <= n && NameCharsAt(s, 0, n) && n + 2 <= |s| && s[n] == '_' && s[n + 1] == 's' &&
        SeasonThenRest(s, n + 2);
      var d: nat :| 2 <= d <= 4 && DigitsAt(s, n + 2, d) && EpisodeThenExtension(s, n + 2 + d);
      var c: nat :| 2 <= c <= 3 && DigitsAt(s, n + 3 + d, c) && DotThenExtension(s, n + 3 + d + c);
      ShowMatchComplete(s, n, d, c);
    }
  }

  /** The characters the two accepted shapes are built from; `\n` is there because `$` admits one final newline. */
  predicate ShapeChar(c: char)
  {
    IsNameChar(c) || c == '(' || c == ')' || c == '.' || c == '\n'
  }

  /** A name with any other character, such as `[` or an upper-case letter, is never left alone. */
  lemma ProperlyFormattedChars(s: String)
    requires IsProperlyFormatted(s)
    ensures forall i :: 0 <= i < |s| ==> ShapeChar(s[i])
  {
    var r := RunOf(s, 0, IsNameChar);
    NameRunChars(s);
    var q := if MovieMatch(s) then r + 7 else r + 1;
    ExtensionShapeChars(s, q);
    forall i | 0 <= i < |s| ensures ShapeChar(s[i]) {
      if MovieMatch(s) && r < i < r + 7 {
        assert DigitsAt(s, r + 1, 4);
      }
    }
  }

  /** An extension that ends the name, with `$`'s optional final newline, is built from shape characters. */
  lemma ExtensionShapeChars(s: String, q: nat)
    requires q <= |s| && ExtensionEnds(s, q)
    ensures forall i :: q <= i < |s| ==> ShapeChar(s[i])
  {
    var e := RunOf(s, q, IsExtChar);
    RunOfSpans(s, q, IsExtChar);
    forall i | q <= i < |s| ensures ShapeChar(s[i]) {
      if i >= q + e {
        assert AtEnd(s, q + e);
      }
    }
  }

  // ---------------------------------------------------------------------------
  // _sanitize_show_name
  // ---------------------------------------------------------------------------

  /** `name` with every occurrence of each word removed, word by word in order. */
  function RemoveWords(name: String, words: seq<String>): String
  {
    if words == [] then name
    else Replace(RemoveWords(name, words[..|words| - 1]), words[|words| - 1], "")
  }

  /** What `_sanitize_show_name` does after removing the cleanup flags. */
  function CleanShowName(t: String): String
  {
    var trimmed := RStrip(LStrip(LStrip(t, Whitespace), {'.'}), {'.'});
    var r := Replace(Replace(Replace(Replace(Replace(Replace(trimmed, " ", "_"), ".", "_"), "'", ""), ",", ""), "!", ""), "?", "");
    LowerStr(RStrip(Replace(r, "_-_", "_"), Whitespace))
  }

  /** `_sanitize_show_name(show_name)` under the configured cleanup flags. */
  function SanitizedShowName(showName: String, cleanupFlags: seq<String>): String
  {
    CleanShowName(RemoveWords(showName, cleanupFlags))
  }

  /** The loop of `_sanitize_show_name` over the cleanup flags, then the clean-up. */
  method SanitizeShowName(showName: String, cleanupFlags: seq<String>) returns (r: String)
    ensures r == SanitizedShowName(showName, cleanupFlags)
  {
    var sanitized := showName;
    for i := 0 to |cleanupFlags|
      invariant sanitized == RemoveWords(showName, cleanupFlags[..i])
    {
      assert cleanupFlags[..i + 1][..i] == cleanupFlags[..i];
      sanitized := Replace(sanitized, cleanupFlags[i], "");
    }
    assert cleanupFlags[..|cleanupFlags|] == cleanupFlags;
    r := CleanShowName(sanitized);
  }

  /** Lower-casing puts back no character that is not a letter. */
  lemma LowerStrKeepsOut(t: String, c: char)
    requires c !in t && !IsUpper(c) && !IsLowerLetter(c)
    ensures c !in LowerStr(t)
  {
  }

  lemma {:induction false} RStripKeepsOut(t: String, cs: set<char>, c: char)
    requires c !in t
    ensures c !in RStrip(t, cs)
  {
    var r := RStrip(t, cs);
    assert r == t[..|r|];
  }

  /**
   * A sanitized show name is lower case and holds no space, dot, apostrophe,
   * comma, exclamation mark or question mark.
   */
  lemma SanitizedShowNameClean(showName: String, cleanupFlags: seq<String>)
    ensures var r := SanitizedShowName(showName, cleanupFlags);
      IsLowerStr(r) && ' ' !in r && '.' !in r && '\'' !in r && ',' !in r && '!' !in r && '?' !in r
  {
    var t := RemoveWords(showName, cleanupFlags);
    var trimmed := RStrip(LStrip(LStrip(t, Whitespace), {'.'}), {'.'});
    var f := Replace(Replace(Replace(Replace(Replace(Replace(trimmed, " ", "_"), ".", "_"), "'", ""), ",", ""), "!", ""), "?", "");
    PunctuationRemoved(trimmed);
    CleanTailKeepsOut(f);
  }

  /** Replacing `_-_`, stripping trailing whitespace and lower-casing keep the punctuation out. */
  lemma CleanTailKeepsOut(f: String)
    requires ' ' !in f && '.' !in f && '\'' !in f && ',' !in f && '!' !in f && '?' !in f
    ensures var r := LowerStr(RStrip(Replace(f, "_-_", "_"), Whitespace));
      IsLowerStr(r) && ' ' !in r && '.' !in r && '\'' !in r && ',' !in r && '!' !in r && '?' !in r
  {
    var h := RStrip(Replace(f, "_-_", "_"), Whitespace);
    LowerStrIsLower(h);
    forall x | x in {' ', '.', '\'', ',', '!', '?'} ensures x !in LowerStr(h) {
      ReplaceKeepsOut(f, "_-_", "_", x);
      RStripKeepsOut(Replace(f, "_-_", "_"), Whitespace, x);
      LowerStrKeepsOut(h, x);
    }
  }

  /** The six replacements of `_sanitize_show_name` leave none of the characters they target. */
  lemma PunctuationRemoved(trimmed: String)
    ensures var f := Replace(Replace(Replace(Replace(Replace(Replace(trimmed, " ", "_"), ".", "_"), "'", ""), ",", ""), "!", ""), "?", "");
      ' ' !in f && '.' !in f && '\'' !in f && ',' !in f && '!' !in f && '?' !in f
  {
    var a := Replace(trimmed, " ", "_");
    var b := Replace(a, ".", "_");
    var c := Replace(b, "'", "");
    var d := Replace(c, ",", "");
    var e := Replace(d, "!", "");
    ReplaceCharRemoves(trimmed, ' ', "_");
    ReplaceCharRemoves(a, '.', "_");
    ReplaceKeepsOut(a, ".", "_", ' ');
    ReplaceCharRemoves(b, '\'', "");
    ReplaceKeepsOut(b, "'", "", ' ');
    ReplaceKeepsOut(b, "'", "", '.');
    ReplaceCharRemoves(c, ',', "");
    forall x | x in {' ', '.', '\''} ensures x !in d {
      ReplaceKeepsOut(c, ",", "", x);
    }
    ReplaceCharRemoves(d, '!', "");
    forall x | x in {' ', '.', '\'', ','} ensures x !in e {
      ReplaceKeepsOut(d, "!", "", x);
    }
    ReplaceCharRemoves(e, '?', "");
    forall x | x in {' ', '.', '\'', ',', '!'} ensures x !in Replace(e, "?", "") {
      ReplaceKeepsOut(e, "?", "", x);
    }
  }

  // ---------------------------------------------------------------------------
  // _sanitize_season_episode
  // ---------------------------------------------------------------------------

  /** `_sanitize_season_episode`: deletes exactly the dots, spaces and underscores, keeping case. */
  function SanitizeSeasonEpisode(seasonEpisode: String): (r: String)
    ensures r == RemoveChars(seasonEpisode, {'.', ' ', '_'})
  {
    var a := Replace(seasonEpisode, ".", "");
    var b := Replace(a, " ", "");
    ReplaceCharByNothing(seasonEpisode, '.');
    ReplaceCharByNothing(a, ' ');
    ReplaceCharByNothing(b, '_');
    RemoveCharsTwice(seasonEpisode, {'.'}, {' '});
    RemoveCharsTwice(seasonEpisode, {'.'} + {' '}, {'_'});
    assert {'.'} + {' '} + {'_'} == {'.', ' ', '_'};
    Replace(b, "_", "")
  }

  /** Sanitizing a season/episode token twice is the same as once. */
  lemma SanitizeSeasonEpisodeIdempotent(seasonEpisode: String)
    ensures SanitizeSeasonEpisode(SanitizeSeasonEpisode(seasonEpisode)) == SanitizeSeasonEpisode(seasonEpisode)
  {
    var cs := {'.', ' ', '_'};
    RemoveCharsTwice(seasonEpisode, cs, cs);
    assert cs + cs == cs;
  }

  // ---------------------------------------------------------------------------
  // _format_tv_show_name, _format_movie_name
  // ---------------------------------------------------------------------------

  /** `_format_tv_show_name`: the four parts joined by one underscore after the name, lower-cased. */
  function FormatTvShowName(sanitizedName: String, seasonEpisode: String, flagsName: String, fileExt: String): (r: String)
    ensures IsLowerStr(r)
    ensures r == LowerStr(sanitizedName) + "_" + LowerStr(seasonEpisode) + LowerStr(flagsName) + LowerStr(fileExt)
  {
    var joined := sanitizedName + "_" + seasonEpisode + flagsName + fileExt;
    LowerStrIsLower(joined);
    LowerStrConcat(sanitizedName + "_" + seasonEpisode + flagsName, fileExt);
    LowerStrConcat(sanitizedName + "_" + seasonEpisode, flagsName);
    LowerStrConcat(sanitizedName + "_", seasonEpisode);
    LowerStrConcat(sanitizedName, "_");
    LowerStr(joined)
  }

  /** A name of `[a-z0-9_]` characters, at least one. */
  predicate IsCleanName(t: String)
  {
    t != [] && forall i :: 0 <= i < |t| ==> IsNameChar(t[i])
  }

  /** A dot and at least one `[a-z0-9]` character. */
  predicate IsCleanExt(t: String)
  {
    |t| >= 2 && t[0] == '.' && forall i :: 1 <= i < |t| ==> IsExtChar(t[i])
  }

  /** The layout `name_s<season>e<episode>.ext` with clean parts is the accepted show shape. */
  lemma ShowLayoutIsProper(name: String, ps: String, pe: String, ext: String)
    requires IsCleanName(name) && IsCleanExt(ext)
    requires 2 <= |ps| <= 4 && AllDigits(ps) && |pe| == 2 && AllDigits(pe)
    ensures IsProperlyFormatted(name + "_s" + ps + "e" + pe + ext)
  {
    var s := name + "_s" + ps + "e" + pe + ext;
    var n := |name|;
    var d := |ps|;
    var q := n + 5 + d;
    assert s[..n] == name;
    assert s[n + 2..n + 2 + d] == ps;
    assert s[n + 3 + d..q] == pe;
    assert s[q..] == ext;
    assert NameCharsAt(s, 0, n);
    assert DigitsAt(s, n + 2, d);
    assert DigitsAt(s, n + 3 + d, 2);
    assert ExtCharsAt(s, q + 1, |ext| - 1);
    assert DotThenExtension(s, q);
    ShowMatchComplete(s, n, d, 2);
  }

  lemma ConcatShape(name: String, ps: String, pe: String, ext: String)
    ensures name + "_" + ("s" + ps + "e" + pe) + ext == name + "_s" + ps + "e" + pe + ext
  {
  }

  /**
   * A TV name formatted from a clean name, a canonical season/episode token
   * and a clean extension, with no flags, is left alone on the next run.
   */
  lemma FormattedShowIsProper(name: String, season: nat, episode: nat, ext: String)
    requires IsCleanName(name) && IsCleanExt(ext) && season <= 9999 && episode <= 99
    ensures IsProperlyFormatted(FormatTvShowName(name, Canon(season, episode), "", ext))
  {
    var se := Canon(season, episode);
    var ps, pe := Pad2(season), Pad2(episode);
    CleanPartsLower(name, ext);
    CanonLower(season, episode);
    FormatLowerParts(name, se, ext);
    assert se == "s" + ps + "e" + pe;
    ConcatShape(name, ps, pe, ext);
    ShowLayoutIsProper(name, Pad2(season), Pad2(episode), ext);
  }

  lemma CleanPartsLower(name: String, ext: String)
    requires IsCleanName(name) && IsCleanExt(ext)
    ensures IsLowerStr(name) && IsLowerStr(ext)
  {
  }

  lemma CanonLower(season: nat, episode: nat)
    ensures IsLowerStr(Canon(season, episode))
  {
    var ps, pe := Pad2(season), Pad2(episode);
    var se := Canon(season, episode);
    forall i | 0 <= i < |se| ensures !IsUpper(se[i]) {
      if 1 <= i < 1 + |ps| {
        assert se[i] == ps[i - 1] && IsDigit(ps[i - 1]);
      } else if 2 + |ps| <= i {
        assert se[i] == pe[i - 2 - |ps|] && IsDigit(pe[i - 2 - |ps|]);
      }
    }
  }

  /** Lower-case parts and no flags: the TV name is the plain concatenation. */
  lemma FormatLowerParts(name: String, se: String, ext: String)
    requires IsLowerStr(name) && IsLowerStr(se) && IsLowerStr(ext)
    ensures FormatTvShowName(name, se, "", ext) == name + "_" + se + ext
  {
    LowerStrOfLower(name);
    LowerStrOfLower(se);
    LowerStrOfLower(ext);
    LowerStrOfLower("");
  }

  /** Every tag in `tags` begins with `hdr`, the first of them. */
  predicate HdrTags(tags: seq<String>)
  {
    |tags| >= 1 && tags[0] == "hdr" && forall i :: 0 <= i < |tags| ==> |tags[i]| >= 3 && tags[i][..3] == "hdr"
  }

  /** Looking for any tag that begins with `hdr` is looking for `hdr`. */
  lemma {:induction false} HdrTagsReduce(s: String, tags: seq<String>)
    requires HdrTags(tags)
    ensures ContainsAny(s, tags) <==> exists k :: OccursAt(s, "hdr", k)
  {
    ContainsAnyIff(s, tags);
    if ContainsAny(s, tags) {
      var i: nat, k: nat :| i < |tags| && OccursAt(s, tags[i], k);
      SliceOfSlice(s, k, k + |tags[i]|, 3);
      assert OccursAt(s, "hdr", k);
    }
    if exists k :: OccursAt(s, "hdr", k) {
      var k :| OccursAt(s, "hdr", k);
      assert OccursAt(s, tags[0], k);
    }
  }

  /** `fk + hdr` of `_format_movie_name`: `"2160p" in name`, and a tag of `["hdr", "hdr10plus"]` in name. */
  function MovieTags(name: String): (r: String)
    ensures r == (if exists k :: OccursAt(name, "2160p", k) then "-4K" else "") +
                 (if exists k :: OccursAt(name, "hdr", k) then "-hdr" else "")
  {
    ContainsIff(name, "2160p");
    HdrTagsReduce(name, ["hdr", "hdr10plus"]);
    (if Contains(name, "2160p") then "-4K" else "") + (if ContainsAny(name, ["hdr", "hdr10plus"]) then "-hdr" else "")
  }

  /**
   * The cleaning of `_format_movie_name`: dots to underscores (the
   * `"_".join(name.split("."))` of a name with a dot, then lower-cased),
   * `" ("` and spaces to underscores, apostrophes removed, lower-cased.
   */
  function CleanMovieName(name: String): (r: String)
    ensures IsLowerStr(r) && '.' !in r && ' ' !in r && '\'' !in r
    ensures !Contains(name, " (") ==> r == RemoveChars(CleanChars(name), {'\''})
  {
    var dotted := if Contains(name, ".") then LowerStr(Replace(name, ".", "_")) else name;
    var a := Replace(dotted, " (", "_");
    var b := Replace(a, " ", "_");
    var c := Replace(b, "'", "");
    CleanMovieNameProps(name, dotted, a, b, c);
    CleanMovieNameChars(name, dotted, a, b, c);
    LowerStrIsLower(c);
    LowerStr(c)
  }

  /** Character by character: every dot and every space becomes `_`, and letters are lower-cased. */
  function CleanChars(name: String): String
  {
    seq(|name|, i requires 0 <= i < |name| => if name[i] == '.' || name[i] == ' ' then '_' else Lower(name[i]))
  }

  /** Without a `" ("`, the replace chain is the per-character cleaning with apostrophes dropped. */
  lemma CleanMovieNameChars(name: String, dotted: String, a: String, b: String, c: String)
    requires dotted == if Contains(name, ".") then LowerStr(Replace(name, ".", "_")) else name
    requires a == Replace(dotted, " (", "_") && b == Replace(a, " ", "_") && c == Replace(b, "'", "")
    ensures !Contains(name, " (") ==> LowerStr(c) == RemoveChars(CleanChars(name), {'\''})
  {
    if !Contains(name, " (") {
      DottedChars(name, dotted);
      NoOpenParen(name, dotted);
      ReplaceNowhere(dotted, " (", "_");
      ReplaceCharByChar(a, ' ', '_');
      SpacesSwapped(name, a, b);
      ReplaceCharByNothing(b, '\'');
      LowerRemoveChars(b, {'\''});
    }
  }

  /** The dot step keeps spaces and parentheses where they are, so it adds no `" ("`. */
  lemma NoOpenParen(name: String, dotted: String)
    requires !Contains(name, " (") && |dotted| == |name|
    requires forall i :: 0 <= i < |name| ==> (dotted[i] == ' ' <==> name[i] == ' ') && (dotted[i] == '(' <==> name[i] == '(')
    ensures forall k :: !OccursAt(dotted, " (", k)
  {
    ContainsIff(name, " (");
    forall k | 0 <= k
      ensures !OccursAt(dotted, " (", k)
    {
      assert !OccursAt(name, " (", k);
      if k + 2 <= |dotted| {
        assert dotted[k..k + 2] == [dotted[k], dotted[k + 1]];
        assert name[k..k + 2] == [name[k], name[k + 1]];
      }
    }
  }

  /** The space step, lower-cased, is the per-character cleaning. */
  lemma SpacesSwapped(name: String, a: String, b: String)
    requires |a| == |name| && b == SwapChar(a, ' ', '_')
    requires forall i :: 0 <= i < |name| ==>
      Lower(a[i]) == (if name[i] == '.' then '_' else Lower(name[i])) && (a[i] == ' ' <==> name[i] == ' ')
    ensures LowerStr(b) == CleanChars(name)
  {
    forall i | 0 <= i < |name|
      ensures LowerStr(b)[i] == CleanChars(name)[i]
    {
      SpaceCharCleaned(name[i], a[i], b[i]);
    }
  }

  lemma SpaceCharCleaned(x: char, y: char, z: char)
    requires Lower(y) == (if x == '.' then '_' else Lower(x)) && (y == ' ' <==> x == ' ')
    requires z == if y == ' ' then '_' else y
    ensures Lower(z) == if x == '.' || x == ' ' then '_' else Lower(x)
  {
  }

  /** The dot step: a dot becomes `_`, and nothing else changes beyond its case. */
  lemma DottedChars(name: String, dotted: String)
    requires dotted == if Contains(name, ".") then LowerStr(Replace(name, ".", "_")) else name
    ensures |dotted| == |name|
    ensures forall i :: 0 <= i < |name| ==>
      Lower(dotted[i]) == (if name[i] == '.' then '_' else Lower(name[i])) &&
      (dotted[i] == ' ' <==> name[i] == ' ') && (dotted[i] == '(' <==> name[i] == '(')
  {
    if Contains(name, ".") {
      ReplaceCharByChar(name, '.', '_');
      DotsLowered(name, dotted);
    } else {
      NoDots(name);
    }
  }

  lemma DotsLowered(name: String, dotted: String)
    requires dotted == LowerStr(SwapChar(name, '.', '_'))
    ensures |dotted| == |name|
    ensures forall i :: 0 <= i < |name| ==>
      Lower(dotted[i]) == (if name[i] == '.' then '_' else Lower(name[i])) &&
      (dotted[i] == ' ' <==> name[i] == ' ') && (dotted[i] == '(' <==> name[i] == '(')
  {
    var sw := SwapChar(name, '.', '_');
    forall i | 0 <= i < |name|
      ensures Lower(dotted[i]) == (if name[i] == '.' then '_' else Lower(name[i])) &&
        (dotted[i] == ' ' <==> name[i] == ' ') && (dotted[i] == '(' <==> name[i] == '(')
    {
      DotCharCleaned(name[i], sw[i], dotted[i]);
    }
  }

  lemma NoDots(name: String)
    requires !Contains(name, ".")
    ensures forall i :: 0 <= i < |name| ==> name[i] != '.'
  {
    ContainsIff(name, ".");
    forall i | 0 <= i < |name|
      ensures name[i] != '.'
    {
      assert !OccursAt(name, ".", i);
      assert name[i..i + 1] == [name[i]];
    }
  }

  lemma DotCharCleaned(x: char, y: char, z: char)
    requires y == (if x == '.' then '_' else x) && z == Lower(y)
    ensures Lower(z) == (if x == '.' then '_' else Lower(x))
    ensures (z == ' ' <==> x == ' ') && (z == '(' <==> x == '(')
  {
  }

  lemma {:induction false} CleanMovieNameProps(name: String, dotted: String, a: String, b: String, c: String)
    requires dotted == if Contains(name, ".") then LowerStr(Replace(name, ".", "_")) else name
    requires a == Replace(dotted, " (", "_") && b == Replace(a, " ", "_") && c == Replace(b, "'", "")
    ensures '.' !in LowerStr(c) && ' ' !in LowerStr(c) && '\'' !in LowerStr(c)
  {
    if Contains(name, ".") {
      ReplaceCharRemoves(name, '.', "_");
      LowerStrKeepsOut(Replace(name, ".", "_"), '.');
    } else {
      ContainsIff(name, ".");
      if '.' in name {
        var k :| 0 <= k < |name| && name[k] == '.';
        assert name[k..k + 1] == ".";
        assert OccursAt(name, ".", k);
      }
    }
    ReplaceKeepsOut(dotted, " (", "_", '.');
    ReplaceKeepsOut(a, " ", "_", '.');
    ReplaceCharRemoves(a, ' ', "_");
    ReplaceKeepsOut(b, "'", "", '.');
    ReplaceKeepsOut(b, "'", "", ' ');
    ReplaceCharRemoves(b, '\'', "");
    LowerStrKeepsOut(c, '.');
    LowerStrKeepsOut(c, ' ');
    LowerStrKeepsOut(c, '\'');
  }

  /**
   * `_format_movie_name(name, ext)`: with an in-range year, the cleaned name
   * up to the first occurrence of that year, the year in parentheses, the
   * tags and the extension; with none, the cleaned name and the extension.
   */
  function FormatMovieName(nameWoExt: String, fileExt: String, yearMin: int, yearMax: int): (r: String)
    ensures var c := CleanMovieName(nameWoExt);
      GetYear(c, yearMin, yearMax).None? ==> r == c + fileExt
    ensures var c := CleanMovieName(nameWoExt);
      var y := GetYear(c, yearMin, yearMax);
      y.Some? ==>
        exists k: nat :: FirstAt(c, y.value, k) && r == c[..k] + "(" + y.value + ")" + MovieTags(nameWoExt) + fileExt
  {
    var cleaned := CleanMovieName(nameWoExt);
    match GetYear(cleaned, yearMin, yearMax)
    case Some(year) =>
      GetYearFound(cleaned, yearMin, yearMax);
      var head := SplitHead(cleaned, year);
      assert FirstAt(cleaned, year, |head|);
      head + "(" + year + ")" + MovieTags(nameWoExt) + fileExt
    case None => cleaned + fileExt
  }

  // ---------------------------------------------------------------------------
  // _rename, rename_files
  // ---------------------------------------------------------------------------

  /**
   * `flags_name` of `_rename`, from the lower-cased file name: `"2160p"` gives
   * `4K`, a tag of `["hdr", "hdr10", "hdr10plus"]` gives `hdr`, joined by `_`
   * inside `_[...]`.
   */
  function FlagsName(lowered: String): (r: String)
    ensures var fourK := exists k :: OccursAt(lowered, "2160p", k);
      var hdr := exists k :: OccursAt(lowered, "hdr", k);
      r == if fourK && hdr then "_[4K_hdr]" else if fourK then "_[4K]" else if hdr then "_[hdr]" else ""
  {
    ContainsIff(lowered, "2160p");
    HdrTagsReduce(lowered, ["hdr", "hdr10", "hdr10plus"]);
    var flags := (if Contains(lowered, "2160p") then ["4K"] else []) +
                 (if ContainsAny(lowered, ["hdr", "hdr10", "hdr10plus"]) then ["hdr"] else []);
    assert Join(["4K", "hdr"], "_") == "4K" + "_" + Join(["hdr"], "_");
    if flags == [] then "" else "_[" + Join(flags, "_") + "]"
  }

  /** `sep.join(items)` */
  function Join(items: seq<String>, sep: String): String
  {
    if items == [] then ""
    else if |items| == 1 then items[0]
    else items[0] + sep + Join(items[1..], sep)
  }

  /** Lower-casing a name lower-cases both parts `os.path.splitext` cuts it into. */
  lemma SplitExtLower(lowered: String)
    requires IsLowerStr(lowered)
    ensures IsLowerStr(SplitExt(lowered).0) && IsLowerStr(SplitExt(lowered).1)
  {
    var (wo, ext) := SplitExt(lowered);
    assert forall i :: 0 <= i < |wo| ==> wo[i] == lowered[i];
    assert forall i :: 0 <= i < |ext| ==> ext[i] == lowered[|wo| + i];
  }

  /**
   * The new name `_rename` computes: the lower-cased name is split at its
   * extension, and a show name with a season/episode token gives a TV name,
   * anything else a movie name. Lower-casing first means `parse_filename`
   * never raises here.
   */
  function NewName(rules: Rules, fileName: String): (r: String)
    ensures var (wo, ext) := SplitExt(LowerStr(fileName));
      var p := ParseFilename(wo);
      !p.Raises? &&
      (p.Parsed? && p.showName != [] && p.seasonEpisode != [] ==>
        r == FormatTvShowName(SanitizedShowName(p.showName, rules.nameCleanupFlags), SanitizeSeasonEpisode(p.seasonEpisode),
                              FlagsName(LowerStr(fileName)), ext) &&
        IsLowerStr(r) && EndsWith(r, ext) &&
        IsPrefix(SanitizedShowName(p.showName, rules.nameCleanupFlags) + "_" + LowerStr(SanitizeSeasonEpisode(p.seasonEpisode)), r)) &&
      (!(p.Parsed? && p.showName != [] && p.seasonEpisode != []) ==> r == FormatMovieName(wo, ext, rules.yearMin, rules.yearMax))
  {
    var lowered := LowerStr(fileName);
    var flagsName := FlagsName(lowered);
    var (wo, ext) := SplitExt(lowered);
    LowerStrIsLower(fileName);
    SplitExtLower(lowered);
    ParseFilenameLowerCase(wo);
    match ParseFilename(wo)
    case Parsed(show, se) =>
      if show != [] && se != [] then
        var name := SanitizedShowName(show, rules.nameCleanupFlags);
        var tv := SanitizeSeasonEpisode(se);
        var r := FormatTvShowName(name, tv, flagsName, ext);
        SanitizedShowNameClean(show, rules.nameCleanupFlags);
        LowerStrOfLower(name);
        LowerStrOfLower(ext);
        PrefixAndSuffix(name + "_" + LowerStr(tv), LowerStr(flagsName), ext);
        r
      else FormatMovieName(wo, ext, rules.yearMin, rules.yearMax)
    case Unparsed => FormatMovieName(wo, ext, rules.yearMin, rules.yearMax)
    case Raises => assert false; []
  }

  lemma PrefixAndSuffix(a: String, b: String, c: String)
    ensures IsPrefix(a, a + b + c) && EndsWith(a + b + c, c)
  {
    assert (a + b + c)[..|a|] == a;
    assert (a + b + c)[|a + b|..] == c;
  }

  /** A canonical `s##e##` token has nothing for `_sanitize_season_episode` to remove. */
  lemma SanitizeCanonical(season: nat, episode: nat)
    ensures SanitizeSeasonEpisode(Canon(season, episode)) == Canon(season, episode)
  {
    var t := Canon(season, episode);
    var ps, pe := Pad2(season), Pad2(episode);
    assert t == "s" + ps + "e" + pe;
    forall i | 0 <= i < |t| ensures t[i] !in {'.', ' ', '_'} {
      if 1 <= i < 1 + |ps| {
        assert t[i] == ps[i - 1];
      } else if 2 + |ps| <= i {
        assert t[i] == pe[i - 2 - |ps|];
      }
    }
    RemoveCharsNone(t, {'.', ' ', '_'});
  }

  /** `.`, space or `_`: the separators `_sanitize_season_episode` deletes. */
  predicate IsTokenSeparator(sep: String)
  {
    sep == "" || (|sep| == 1 && (sep[0] == '.' || sep[0] == ' ' || sep[0] == '_'))
  }

  /**
   * A canonical token with a `.`, space or `_` (or nothing) on either side, as
   * the TV pattern reports it for a dotted, spaced or underscored name,
   * sanitizes to the canonical token.
   */
  lemma SanitizeSeparatedCanon(lead: String, season: nat, episode: nat, tail: String)
    requires IsTokenSeparator(lead) && IsTokenSeparator(tail)
    ensures SanitizeSeasonEpisode(lead + Canon(season, episode) + tail) == Canon(season, episode)
  {
    SanitizeCanonical(season, episode);
    SeparatorsRemoved(lead, Canon(season, episode), tail);
  }

  lemma SeparatorsRemoved(lead: String, c: String, tail: String)
    requires IsTokenSeparator(lead) && IsTokenSeparator(tail)
    requires RemoveChars(c, {'.', ' ', '_'}) == c
    ensures RemoveChars(lead + c + tail, {'.', ' ', '_'}) == c
  {
    var cs := {'.', ' ', '_'};
    RemoveCharsConcat(lead + c, tail, cs);
    RemoveCharsConcat(lead, c, cs);
    assert RemoveChars(lead, cs) == [] && RemoveChars(tail, cs) == [];
  }

  /**
   * A show whose name sanitizes to a clean name, whose token sanitizes to a
   * canonical one (`.s01e02` and `_s01e02_` do), with a clean extension and no
   * flags, is renamed to a properly formatted name, so the next run leaves it
   * alone.
   */
  lemma RenamedShowIsProper(rules: Rules, fileName: String)
    requires var p := ParseFilename(SplitExt(LowerStr(fileName)).0);
      p.Parsed? && p.showName != [] && Canonical(SanitizeSeasonEpisode(p.seasonEpisode)) &&
      IsCleanName(SanitizedShowName(p.showName, rules.nameCleanupFlags))
    requires FlagsName(LowerStr(fileName)) == "" && IsCleanExt(SplitExt(LowerStr(fileName)).1)
    ensures IsProperlyFormatted(NewName(rules, fileName))
  {
    var (wo, ext) := SplitExt(LowerStr(fileName));
    var p := ParseFilename(wo);
    var n: nat, m: nat :| n <= 9999 && m <= 99 && SanitizeSeasonEpisode(p.seasonEpisode) == Canon(n, m);
    assert p.seasonEpisode != [];
    var name := SanitizedShowName(p.showName, rules.nameCleanupFlags);
    assert NewName(rules, fileName) == FormatTvShowName(name, Canon(n, m), "", ext);
    FormattedShowIsProper(name, n, m, ext);
  }

  /** What `_rename` does with one file. */
  datatype RenameOutcome =
    | AlreadyFormatted         // skipped, name unchanged
    | Renamed(target: String)  // `os.rename` to `target`
    | TargetExists(target: String)  // left alone: `target` is taken

  /**
   * `_rename(file_obj)` for a file called `fileName` in directory `dir`, where
   * `existing` holds the paths that exist: a properly formatted name is kept,
   * and a file is never renamed onto an existing path.
   */
  function Rename(rules: Rules, fileName: String, dir: String, existing: set<String>): (r: RenameOutcome)
    ensures r.AlreadyFormatted? <==> IsProperlyFormatted(fileName)
    ensures !r.AlreadyFormatted? ==> r.target == JoinPath(dir, NewName(rules, fileName))
    ensures r.Renamed? ==> r.target !in existing
    ensures r.TargetExists? ==> r.target in existing
  {
    if IsProperlyFormatted(fileName) then AlreadyFormatted
    else
      var target := JoinPath(dir, NewName(rules, fileName));
      if target in existing then TargetExists(target) else Renamed(target)
  }

  /** What `rename_files` does with one entry of the directory. */
  datatype FileAction = Delete | Attempt(outcome: RenameOutcome) | Ignore

  /**
   * One step of `rename_files`: a name with a deletion flag is deleted; a name
   * whose own extension (case as written) is a video extension and not an
   * excluded one goes through `_rename`; anything else is left.
   */
  function RenameFilesStep(rules: Rules, fileName: String, dir: String, existing: set<String>): (a: FileAction)
    ensures a.Delete? <==> exists i, k :: 0 <= i < |rules.filesToDelete| && OccursAt(fileName, rules.filesToDelete[i], k)
    ensures a.Attempt? <==>
      !a.Delete? && SplitExt(fileName).1 in rules.videoFileExtensions && SplitExt(fileName).1 !in rules.fileExcludes
    ensures a.Attempt? ==> a.outcome == Rename(rules, fileName, dir, existing)
  {
    if ShouldDelete(fileName, rules.filesToDelete) then Delete
    else
      var ext := SplitExt(fileName).1;
      if ext in rules.videoFileExtensions && ext !in rules.fileExcludes then Attempt(Rename(rules, fileName, dir, existing))
      else Ignore
  }

  /**
   * A movie that gets a `-4K` or `-hdr` tag is given a name that is never
   * properly formatted, so every later run renames it again.
   */
  lemma TaggedMovieNotProper(nameWoExt: String, fileExt: String, yearMin: int, yearMax: int)
    requires GetYear(CleanMovieName(nameWoExt), yearMin, yearMax).Some?
    requires MovieTags(nameWoExt) != ""
    ensures !IsProperlyFormatted(FormatMovieName(nameWoExt, fileExt, yearMin, yearMax))
  {
    var i := TaggedMovieDash(nameWoExt, fileExt, yearMin, yearMax);
    StrayCharNotProper(FormatMovieName(nameWoExt, fileExt, yearMin, yearMax), i);
  }

  /** A tagged movie name has the tag's `-` right after the year's closing parenthesis. */
  lemma TaggedMovieDash(nameWoExt: String, fileExt: String, yearMin: int, yearMax: int) returns (i: nat)
    requires GetYear(CleanMovieName(nameWoExt), yearMin, yearMax).Some?
    requires MovieTags(nameWoExt) != ""
    ensures var r := FormatMovieName(nameWoExt, fileExt, yearMin, yearMax);
      i < |r| && r[i] == '-'
  {
    var r := FormatMovieName(nameWoExt, fileExt, yearMin, yearMax);
    var c := CleanMovieName(nameWoExt);
    var y := GetYear(c, yearMin, yearMax).value;
    var k: nat :| FirstAt(c, y, k) && r == c[..k] + "(" + y + ")" + MovieTags(nameWoExt) + fileExt;
    i := k + |y| + 2;
  }

  /** A name with a character outside the shape's alphabet is not properly formatted. */
  lemma StrayCharNotProper(s: String, i: nat)
    requires i < |s| && !ShapeChar(s[i])
    ensures !IsProperlyFormatted(s)
  {
    if IsProperlyFormatted(s) {
      ProperlyFormattedChars(s);
      assert false;
    }
  }
}
