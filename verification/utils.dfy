/**
 * filetools/utils.py: the season/episode recognisers, their normaliser,
 * `parse_filename`, the media triage loop of `sort_media` and the
 * show-folder dictionary built by `make_shows_map`.
 *
 * Each regular expression is a hand-written matcher with the semantics of
 * Python's `re.search`: the leftmost start wins; at one start the
 * alternatives are tried in order; a greedy quantifier tries its largest
 * count first and a lazy one its smallest, falling back one count at a time
 * when the rest of the pattern fails. Beside each matcher a ghost predicate
 * states the language of the pattern, and lemmas show that the matcher finds
 * a match exactly when the language has one, at the leftmost start.
 */
module Utils {
  import opened Text

  /**
   * The configuration the three modules read: the lists and the year range
   * that `CONFIG` supplies, as explicit values.
   */
  datatype Rules = Rules(
    filesToDelete: seq<String>,
    fileExcludes: seq<String>,
    videoFileExtensions: seq<String>,
    doNotDelete: seq<String>,
    fileNameIgnores: seq<String>,
    nameCleanupFlags: seq<String>,
    yearMin: int,
    yearMax: int)

  /** The span `s[start..end]` of a match object. */
  datatype Span = Span(start: nat, end: nat)

  function Min(a: nat, b: nat): nat { if a < b then a else b }

  // ---------------------------------------------------------------------------
  // Pattern pieces
  // ---------------------------------------------------------------------------

  predicate DigitsAt(s: String, p: nat, n: nat)
  {
    p + n <= |s| && forall k :: p <= k < p + n ==> IsDigit(s[k])
  }

  predicate SepsAt(s: String, p: nat, n: nat)
  {
    p + n <= |s| && forall k :: p <= k < p + n ==> IsSep(s[k])
  }

  predicate SpacesAt(s: String, p: nat, n: nat)
  {
    p + n <= |s| && forall k :: p <= k < p + n ==> IsSpace(s[k])
  }

  /** The lower-case literal `lit` at `p`, matched case-insensitively. */
  predicate LiteralAt(s: String, p: nat, lit: String)
  {
    p + |lit| <= |s| && forall k :: 0 <= k < |lit| ==> Lower(s[p + k]) == lit[k]
  }

  /** Python's `$` without MULTILINE: at the end, or just before a final newline. */
  predicate AtEnd(s: String, j: nat)
  {
    j == |s| || (j + 1 == |s| && s[j] == '\n')
  }

  /** `\b` */
  predicate WordBoundary(s: String, i: nat)
    requires i <= |s|
  {
    (i > 0 && IsWordChar(s[i - 1])) != (i < |s| && IsWordChar(s[i]))
  }

  /** `(?:$|[\W_])` between `p` and `j`. */
  predicate EndAt(s: String, p: nat, j: nat)
  {
    p <= |s| && ((j == p && AtEnd(s, p)) || (j == p + 1 && p < |s| && IsSep(s[p])))
  }

  /**
   * `re.search` over a pattern given by `at`, which returns what the pattern
   * matches when it is tried at one start: the starts are tried left to right
   * and the first that matches wins.
   */
  function Search<T>(s: String, i: nat, at: (String, nat) -> Option<T>): (r: Option<(nat, T)>)
    requires i <= |s|
    ensures r.Some? ==> i <= r.value.0 <= |s| && at(s, r.value.0) == Some(r.value.1)
    decreases |s| - i
  {
    var here := at(s, i);
    if here.Some? then Some((i, here.value))
    else if i == |s| then None
    else Search(s, i + 1, at)
  }

  /** No start before the one `Search` reports, and none at all when it reports none, matches. */
  lemma {:induction false} SearchLeftmost<T>(s: String, i: nat, at: (String, nat) -> Option<T>, i': nat)
    requires i <= i' <= |s|
    requires Search(s, i, at).Some? ==> i' < Search(s, i, at).value.0
    ensures at(s, i').None?
    decreases i' - i
  {
    if i < i' {
      SearchLeftmost(s, i + 1, at, i');
    }
  }

  /** `(?:$|[\W_])` matched at `p`: `$` is tried first. */
  function EndBoundary(s: String, p: nat): (r: Option<nat>)
    requires p <= |s|
    ensures r.Some? ==> EndAt(s, p, r.value)
    ensures forall j :: EndAt(s, p, j) ==> r.Some?
  {
    if AtEnd(s, p) then Some(p)
    else if p < |s| && IsSep(s[p]) then Some(p + 1)
    else None
  }

  // ---------------------------------------------------------------------------
  // match_for_tv: three alternatives, each between boundaries
  //   (?:^|[\W_]) s(\d{2,4})[\W_]*e(\d{2})                      (?:$|[\W_])
  // | (?:^|[\W_]) season[\W_]*?(\d{2})[\W_]*?episode[\W_]*?(\d{2}) (?:$|[\W_])
  // | (?:^|[\W_]) season(\d{2})episode(\d{2})                   (?:$|[\W_])
  // ---------------------------------------------------------------------------

  /** `e(\d{2})(?:$|[\W_])` from `q` to `j`. */
  ghost predicate EpisodeShape(s: String, q: nat, j: nat)
  {
    q + 3 <= |s| && Lower(s[q]) == 'e' && DigitsAt(s, q + 1, 2) && EndAt(s, q + 3, j)
  }

  ghost predicate SepsThenEpisode(s: String, p: nat, j: nat)
  {
    exists m :: SepsAt(s, p, m) && EpisodeShape(s, p + m, j)
  }

  ghost predicate SeasonDigitsThenEpisode(s: String, p: nat, j: nat)
  {
    exists d :: 2 <= d <= 4 && DigitsAt(s, p, d) && SepsThenEpisode(s, p + d, j)
  }

  /** `s(\d{2,4})[\W_]*e(\d{2})(?:$|[\W_])` from `k` to `j`. */
  ghost predicate CompactShape(s: String, k: nat, j: nat)
  {
    k < |s| && Lower(s[k]) == 's' && SeasonDigitsThenEpisode(s, k + 1, j)
  }

  /** `(\d{2})(?:$|[\W_])` from `q` to `j`. */
  ghost predicate NumberEnd(s: String, q: nat, j: nat)
  {
    DigitsAt(s, q, 2) && EndAt(s, q + 2, j)
  }

  ghost predicate SepsThenNumberEnd(s: String, p: nat, j: nat)
  {
    exists m :: SepsAt(s, p, m) && NumberEnd(s, p + m, j)
  }

  ghost predicate EpisodeWordThenNumber(s: String, q: nat, j: nat)
  {
    LiteralAt(s, q, "episode") && SepsThenNumberEnd(s, q + 7, j)
  }

  ghost predicate SepsThenEpisodeWord(s: String, p: nat, j: nat)
  {
    exists m :: SepsAt(s, p, m) && EpisodeWordThenNumber(s, p + m, j)
  }

  ghost predicate SeasonNumberThenRest(s: String, q: nat, j: nat)
  {
    DigitsAt(s, q, 2) && SepsThenEpisodeWord(s, q + 2, j)
  }

  ghost predicate SepsThenSeasonNumber(s: String, p: nat, j: nat)
  {
    exists m :: SepsAt(s, p, m) && SeasonNumberThenRest(s, p + m, j)
  }

  /** `season[\W_]*?(\d{2})[\W_]*?episode[\W_]*?(\d{2})(?:$|[\W_])` from `k` to `j`. */
  ghost predicate WordShape(s: String, k: nat, j: nat)
  {
    LiteralAt(s, k, "season") && SepsThenSeasonNumber(s, k + 6, j)
  }

  /** `season(\d{2})episode(\d{2})(?:$|[\W_])` from `k` to `j`. */
  ghost predicate JoinedShape(s: String, k: nat, j: nat)
  {
    LiteralAt(s, k, "season") && DigitsAt(s, k + 6, 2) && LiteralAt(s, k + 8, "episode") &&
    DigitsAt(s, k + 15, 2) && EndAt(s, k + 17, j)
  }

  ghost predicate TvBody(s: String, k: nat, j: nat)
  {
    CompactShape(s, k, j) || WordShape(s, k, j) || JoinedShape(s, k, j)
  }

  /** The whole `match_for_tv` pattern matches `s[i..j]`, leading boundary included. */
  ghost predicate TvToken(s: String, i: nat, j: nat)
  {
    (i == 0 && TvBody(s, 0, j)) || (i < |s| && IsSep(s[i]) && TvBody(s, i + 1, j))
  }

  ghost predicate TvTokenAt(s: String, i: nat)
  {
    exists j :: TvToken(s, i, j)
  }

  function EpisodeTail(s: String, q: nat): (r: Option<nat>)
    requires q <= |s|
    ensures r.Some? ==> EpisodeShape(s, q, r.value)
    ensures forall j :: EpisodeShape(s, q, j) ==> r.Some?
  {
    if q + 3 <= |s| && Lower(s[q]) == 'e' && IsDigit(s[q + 1]) && IsDigit(s[q + 2])
    then EndBoundary(s, q + 3)
    else None
  }

  /** `[\W_]*` (greedy) then the episode: `m` separators first, then fewer. */
  function CompactSeps(s: String, p: nat, m: nat): (r: Option<nat>)
    requires SepsAt(s, p, m)
    ensures r.Some? ==> SepsThenEpisode(s, p, r.value)
    decreases m
  {
    match EpisodeTail(s, p + m)
    case Some(j) => assert SepsAt(s, p, m) && EpisodeShape(s, p + m, j); Some(j)
    case None => if m == 0 then None else CompactSeps(s, p, m - 1)
  }

  /** `\d{2,4}` (greedy) then the rest: `d` digits first, then fewer. */
  function CompactSeason(s: String, p: nat, d: nat): (r: Option<nat>)
    requires DigitsAt(s, p, d)
    ensures r.Some? ==> exists d' :: 2 <= d' <= d && DigitsAt(s, p, d') && SepsThenEpisode(s, p + d', r.value)
    decreases d
  {
    if d < 2 then None
    else
      RunOfSpans(s, p + d, IsSep);
      match CompactSeps(s, p + d, RunOf(s, p + d, IsSep))
      case Some(j) => Some(j)
      case None => CompactSeason(s, p, d - 1)
  }

  function CompactForm(s: String, k: nat): (r: Option<nat>)
    requires k <= |s|
    ensures r.Some? ==> CompactShape(s, k, r.value)
  {
    if k < |s| && Lower(s[k]) == 's' then
      RunOfSpans(s, k + 1, IsDigit);
      CompactSeason(s, k + 1, Min(4, RunOf(s, k + 1, IsDigit)))
    else None
  }

  /*
   * The lazy separator counts of the word form never need more than one try:
   * each is followed by a digit or a letter, which no separator is, so the
   * only count that can match is the whole run of separators.
   */

  /** `[\W_]*?(\d{2})(?:$|[\W_])` from `p`. */
  function WordEpisodeNumber(s: String, p: nat): (r: Option<nat>)
    requires p <= |s|
    ensures r.Some? ==> SepsThenNumberEnd(s, p, r.value)
  {
    var m := RunOf(s, p, IsSep);
    var q := p + m;
    if q + 2 <= |s| && IsDigit(s[q]) && IsDigit(s[q + 1]) then
      match EndBoundary(s, q + 2)
      case Some(j) =>
        SepsWithin(s, p, m);
        assert SepsAt(s, p, m) && NumberEnd(s, q, j);
        Some(j)
      case None => None
    else None
  }

  /** `[\W_]*?episode` from `p`, then the rest. */
  function WordEpisode(s: String, p: nat): (r: Option<nat>)
    requires p <= |s|
    ensures r.Some? ==> SepsThenEpisodeWord(s, p, r.value)
  {
    var m := RunOf(s, p, IsSep);
    var q := p + m;
    if LiteralAt(s, q, "episode") then
      match WordEpisodeNumber(s, q + 7)
      case Some(j) =>
        SepsWithin(s, p, m);
        assert SepsAt(s, p, m) && EpisodeWordThenNumber(s, q, j);
        Some(j)
      case None => None
    else None
  }

  /** `[\W_]*?(\d{2})` from `p`, then the rest. */
  function WordSeason(s: String, p: nat): (r: Option<nat>)
    requires p <= |s|
    ensures r.Some? ==> SepsThenSeasonNumber(s, p, r.value)
  {
    var m := RunOf(s, p, IsSep);
    var q := p + m;
    if q + 2 <= |s| && IsDigit(s[q]) && IsDigit(s[q + 1]) then
      match WordEpisode(s, q + 2)
      case Some(j) =>
        SepsWithin(s, p, m);
        assert SepsAt(s, p, m) && SeasonNumberThenRest(s, q, j);
        Some(j)
      case None => None
    else None
  }

  function WordForm(s: String, k: nat): (r: Option<nat>)
    requires k <= |s|
    ensures r.Some? ==> WordShape(s, k, r.value)
  {
    if LiteralAt(s, k, "season") then WordSeason(s, k + 6) else None
  }

  function JoinedForm(s: String, k: nat): (r: Option<nat>)
    requires k <= |s|
    ensures r.Some? ==> JoinedShape(s, k, r.value)
    ensures forall j :: JoinedShape(s, k, j) ==> r.Some?
  {
    if k + 17 <= |s| && LiteralAt(s, k, "season") && DigitsAt(s, k + 6, 2) &&
       LiteralAt(s, k + 8, "episode") && DigitsAt(s, k + 15, 2)
    then EndBoundary(s, k + 17)
    else None
  }

  function TvAlternative(s: String, k: nat, alt: nat): (r: Option<nat>)
    requires k <= |s|
    ensures r.Some? ==> TvBody(s, k, r.value)
  {
    if alt == 1 then CompactForm(s, k)
    else if alt == 2 then WordForm(s, k)
    else JoinedForm(s, k)
  }

  /** `(?:^|[\W_])` then alternative `alt`: `^` is tried first. */
  function WithLead(s: String, i: nat, alt: nat): (r: Option<nat>)
    requires i <= |s|
    ensures r.Some? ==> TvToken(s, i, r.value)
  {
    var atStart := if i == 0 then TvAlternative(s, i, alt) else None;
    if atStart.Some? then atStart
    else if i < |s| && IsSep(s[i]) then TvAlternative(s, i + 1, alt)
    else None
  }

  /** The end of the match of the whole pattern starting at `i`, alternatives in order. */
  function TvMatchAt(s: String, i: nat): (r: Option<nat>)
    ensures r.Some? ==> TvToken(s, i, r.value)
  {
    if i > |s| then None
    else
    var first := WithLead(s, i, 1);
    if first.Some? then first
    else
      var second := WithLead(s, i, 2);
      if second.Some? then second else WithLead(s, i, 3)
  }

  // Completeness: every way the pattern can match at a start is found.

  /**
   * Neither greedy count of the compact form ever gives back: the digits are
   * followed by a separator or the `e`, and the separators by the `e`, so the
   * first count tried is the only one that can match.
   */
  lemma {:induction false} CompactSeasonComplete(s: String, p: nat, d: nat, d': nat, j: nat)
    requires DigitsAt(s, p, d) && 2 <= d' <= d && SepsThenEpisode(s, p + d', j)
    ensures CompactSeason(s, p, d).Some?
  {
    var m: nat :| SepsAt(s, p + d', m) && EpisodeShape(s, p + d' + m, j);
    assert d' == d by {
      assert !IsDigit(s[p + d']);
    }
    RunOfAtLeast(s, p + d, IsSep, m);
    assert m == RunOf(s, p + d, IsSep) by {
      RunOfSpans(s, p + d, IsSep);
      assert !IsSep(s[p + d + m]);
    }
    assert EpisodeTail(s, p + d + m).Some?;
    assert CompactSeps(s, p + d, m).Some?;
  }

  lemma CompactFormComplete(s: String, k: nat, j: nat)
    requires k <= |s| && CompactShape(s, k, j)
    ensures CompactForm(s, k).Some?
  {
    var d: nat :| 2 <= d <= 4 && DigitsAt(s, k + 1, d) && SepsThenEpisode(s, k + 1 + d, j);
    RunOfAtLeast(s, k + 1, IsDigit, d);
    var top := Min(4, RunOf(s, k + 1, IsDigit));
    RunOfSpans(s, k + 1, IsDigit);
    CompactSeasonComplete(s, k + 1, top, d, j);
  }

  /** A prefix of the greedy run of separators is all separators. */
  lemma SepsWithin(s: String, p: nat, m: nat)
    requires p <= |s| && m <= RunOf(s, p, IsSep)
    ensures SepsAt(s, p, m)
  {
    RunOfSpans(s, p, IsSep);
  }

  /** A run of separators that stops at `m` is the longest one. */
  lemma SepRunIs(s: String, p: nat, m: nat)
    requires SepsAt(s, p, m) && (p + m == |s| || !IsSep(s[p + m]))
    ensures RunOf(s, p, IsSep) == m
  {
    RunOfAtLeast(s, p, IsSep, m);
    RunOfSpans(s, p, IsSep);
  }

  lemma WordEpisodeNumberComplete(s: String, p: nat, m: nat, j: nat)
    requires SepsAt(s, p, m) && NumberEnd(s, p + m, j)
    ensures WordEpisodeNumber(s, p).Some?
  {
    assert IsDigit(s[p + m]);
    SepRunIs(s, p, m);
    assert EndBoundary(s, p + m + 2).Some?;
  }

  lemma WordEpisodeComplete(s: String, p: nat, m: nat, j: nat)
    requires SepsAt(s, p, m) && EpisodeWordThenNumber(s, p + m, j)
    ensures WordEpisode(s, p).Some?
  {
    LiteralStartsAlnum(s, p + m, "episode");
    SepRunIs(s, p, m);
    var q := p + m + 7;
    var n: nat :| SepsAt(s, q, n) && NumberEnd(s, q + n, j);
    WordEpisodeNumberComplete(s, q, n, j);
  }

  lemma WordSeasonComplete(s: String, p: nat, m: nat, j: nat)
    requires SepsAt(s, p, m) && SeasonNumberThenRest(s, p + m, j)
    ensures WordSeason(s, p).Some?
  {
    assert IsDigit(s[p + m]);
    SepRunIs(s, p, m);
    var q := p + m + 2;
    var n: nat :| SepsAt(s, q, n) && EpisodeWordThenNumber(s, q + n, j);
    WordEpisodeComplete(s, q, n, j);
  }

  lemma WordFormComplete(s: String, k: nat, j: nat)
    requires k <= |s| && WordShape(s, k, j)
    ensures WordForm(s, k).Some?
  {
    var m: nat :| SepsAt(s, k + 6, m) && SeasonNumberThenRest(s, k + 6 + m, j);
    WordSeasonComplete(s, k + 6, m, j);
  }

  lemma TvBodyComplete(s: String, k: nat, j: nat)
    requires k <= |s| && TvBody(s, k, j)
    ensures exists alt :: 1 <= alt <= 3 && TvAlternative(s, k, alt).Some?
  {
    if CompactShape(s, k, j) {
      CompactFormComplete(s, k, j);
      assert TvAlternative(s, k, 1).Some?;
    } else if WordShape(s, k, j) {
      WordFormComplete(s, k, j);
      assert TvAlternative(s, k, 2).Some?;
    } else {
      assert TvAlternative(s, k, 3).Some?;
    }
  }

  /** The matcher finds a match at `i` whenever the pattern has one there. */
  lemma TvMatchAtComplete(s: String, i: nat, j: nat)
    requires TvToken(s, i, j)
    ensures TvMatchAt(s, i).Some?
  {
    var k := if i == 0 && TvBody(s, 0, j) then 0 else i + 1;
    TvTokenInside(s, i, j);
    TvBodyComplete(s, k, j);
    var alt :| 1 <= alt <= 3 && TvAlternative(s, k, alt).Some?;
    assert WithLead(s, i, alt).Some?;
  }

  lemma TvTokenInside(s: String, i: nat, j: nat)
    requires TvToken(s, i, j)
    ensures i < j <= |s|
  {
  }

  /**
   * `match_for_tv(filename)`: the span of the match, whose text
   * `filename[start..end]` is what the source returns beside `True`.
   */
  function MatchForTv(s: String): (r: Option<Span>)
    ensures r.Some? ==> TvToken(s, r.value.start, r.value.end)
    ensures r.Some? ==> r.value.start < r.value.end <= |s|
  {
    match Search(s, 0, TvMatchAt)
    case Some((i, j)) => TvTokenInside(s, i, j); Some(Span(i, j))
    case None => None
  }

  /** `match_for_tv` reports the leftmost start at which the pattern matches, or no match when none does. */
  lemma MatchForTvLeftmost(s: String)
    ensures MatchForTv(s).None? ==> forall i: nat :: !TvTokenAt(s, i)
    ensures MatchForTv(s).Some? ==> forall i: nat :: i < MatchForTv(s).value.start ==> !TvTokenAt(s, i)
  {
    forall i: nat | MatchForTv(s).None? || i < MatchForTv(s).value.start
      ensures !TvTokenAt(s, i)
    {
      if TvTokenAt(s, i) {
        var j :| TvToken(s, i, j);
        TvTokenInside(s, i, j);
        TvMatchAtComplete(s, i, j);
        SearchLeftmost(s, 0, TvMatchAt, i);
      }
    }
  }

  /** The third alternative adds nothing: whatever it matches, the second matches too. */
  lemma JoinedFormRedundant(s: String, k: nat, j: nat)
    requires JoinedShape(s, k, j)
    ensures WordShape(s, k, j)
  {
    assert SepsAt(s, k + 15, 0) && NumberEnd(s, k + 15, j);
    assert SepsAt(s, k + 8, 0) && EpisodeWordThenNumber(s, k + 8, j);
    assert SepsAt(s, k + 6, 0) && SeasonNumberThenRest(s, k + 6, j);
  }

  // ---------------------------------------------------------------------------
  // match_for_altseason: \b(\d{1,2})\s*of\s*(\d{1,2})\b, case-insensitive
  // ---------------------------------------------------------------------------

  /** `(\d{1,2})\b` from `q` to `j`. */
  ghost predicate LastNumber(s: String, q: nat, j: nat)
  {
    q < j <= q + 2 && DigitsAt(s, q, j - q) && WordBoundary(s, j)
  }

  ghost predicate SpacesThenLastNumber(s: String, p: nat, j: nat)
  {
    exists m :: SpacesAt(s, p, m) && LastNumber(s, p + m, j)
  }

  ghost predicate SpacesThenOf(s: String, p: nat, j: nat)
  {
    exists m :: SpacesAt(s, p, m) && LiteralAt(s, p + m, "of") && SpacesThenLastNumber(s, p + m + 2, j)
  }

  ghost predicate FirstNumberThenRest(s: String, p: nat, j: nat)
  {
    exists d :: 1 <= d <= 2 && DigitsAt(s, p, d) && SpacesThenOf(s, p + d, j)
  }

  /** The `match_for_altseason` pattern matches `s[i..j]`. */
  ghost predicate AltToken(s: String, i: nat, j: nat)
  {
    i <= |s| && WordBoundary(s, i) && FirstNumberThenRest(s, i, j)
  }

  ghost predicate AltTokenAt(s: String, i: nat)
  {
    exists j :: AltToken(s, i, j)
  }

  /**
   * The end of the match of the alternate pattern starting at `i`. None of its
   * greedy counts ever gives back: each is followed by a character that the
   * next piece cannot start with, so the counts tried first are the only ones
   * that can match, and backtracking is not needed.
   */
  function AltMatchAt(s: String, i: nat): Option<nat>
  {
    if i <= |s| && WordBoundary(s, i) then
      var d := Min(2, RunOf(s, i, IsDigit));
      var o := i + d + RunOf(s, i + d, IsSpace);
      if 0 < d && LiteralAt(s, o, "of") then AltSecondNumber(s, o) else None
    else None
  }

  /** The alternate pattern after its `of` at `o`: spaces, one or two digits, then a word boundary. */
  function AltSecondNumber(s: String, o: nat): Option<nat>
    requires o + 2 <= |s|
  {
    var q := o + 2 + RunOf(s, o + 2, IsSpace);
    var j := q + Min(2, RunOf(s, q, IsDigit));
    if q < j && WordBoundary(s, j) then Some(j) else None
  }

  /**
   * Every end the matcher reports closes a match. This is a lemma rather than
   * a postcondition so that unfolding the matcher does not bring the match's
   * existentials along.
   */
  lemma AltMatchAtSound(s: String, i: nat)
    ensures AltMatchAt(s, i).Some? ==> AltToken(s, i, AltMatchAt(s, i).value)
  {
    if AltMatchAt(s, i).Some? {
      var d := Min(2, RunOf(s, i, IsDigit));
      var o := i + d + RunOf(s, i + d, IsSpace);
      AltSecondNumberSound(s, i, d, o);
    }
  }

  lemma AltSecondNumberSound(s: String, i: nat, d: nat, o: nat)
    requires i <= |s| && WordBoundary(s, i) && 0 < d == Min(2, RunOf(s, i, IsDigit))
    requires o == i + d + RunOf(s, i + d, IsSpace) && LiteralAt(s, o, "of")
    ensures AltSecondNumber(s, o).Some? ==> AltToken(s, i, AltSecondNumber(s, o).value)
  {
    if AltSecondNumber(s, o).Some? {
      var q := o + 2 + RunOf(s, o + 2, IsSpace);
      var j := q + Min(2, RunOf(s, q, IsDigit));
      AltRunsSound(s, i, d, o, q, j);
    }
  }

  /** The greedy runs `AltMatchAt` takes are the pieces of a match. */
  lemma AltRunsSound(s: String, i: nat, d: nat, o: nat, q: nat, j: nat)
    requires i <= |s| && WordBoundary(s, i) && 0 < d == Min(2, RunOf(s, i, IsDigit))
    requires o == i + d + RunOf(s, i + d, IsSpace) && LiteralAt(s, o, "of")
    requires q == o + 2 + RunOf(s, o + 2, IsSpace)
    requires q < j == q + Min(2, RunOf(s, q, IsDigit)) && WordBoundary(s, j)
    ensures AltToken(s, i, j)
  {
    DigitRunFacts(s, i);
    SpaceRunFacts(s, i + d);
    SpaceRunFacts(s, o + 2);
    DigitRunFacts(s, q);
    AltTokenIntro(s, i, d, o, q, j);
  }

  /** `SpacesAt` of the greedy run of spaces, and what stops it. */
  lemma SpaceRunFacts(s: String, p: nat)
    requires p <= |s|
    ensures SpacesAt(s, p, RunOf(s, p, IsSpace))
    ensures p + RunOf(s, p, IsSpace) == |s| || !IsSpace(s[p + RunOf(s, p, IsSpace)])
  {
    RunOfSpans(s, p, IsSpace);
  }

  /** `DigitsAt` of the greedy run of digits, and what stops it. */
  lemma DigitRunFacts(s: String, p: nat)
    requires p <= |s|
    ensures DigitsAt(s, p, RunOf(s, p, IsDigit))
    ensures p + RunOf(s, p, IsDigit) == |s| || !IsDigit(s[p + RunOf(s, p, IsDigit)])
  {
    RunOfSpans(s, p, IsDigit);
  }

  /** The pieces of the alternate pattern, laid end to end, are a match. */
  lemma AltTokenIntro(s: String, i: nat, d: nat, o: nat, q: nat, j: nat)
    requires i <= |s| && WordBoundary(s, i) && 1 <= d <= 2 && DigitsAt(s, i, d)
    requires i + d <= o && SpacesAt(s, i + d, o - (i + d)) && LiteralAt(s, o, "of")
    requires o + 2 <= q && SpacesAt(s, o + 2, q - (o + 2)) && LastNumber(s, q, j)
    ensures AltToken(s, i, j)
  {
    assert SpacesThenLastNumber(s, o + 2, j) by {
      assert SpacesAt(s, o + 2, q - (o + 2)) && LastNumber(s, (o + 2) + (q - (o + 2)), j);
    }
    assert SpacesThenOf(s, i + d, j) by {
      assert SpacesAt(s, i + d, o - (i + d)) && LiteralAt(s, (i + d) + (o - (i + d)), "of");
    }
  }

  lemma AltTokenInside(s: String, i: nat, j: nat)
    requires AltToken(s, i, j)
    ensures i < j <= |s|
  {
  }

  /** `match_for_altseason(filename)`: the span of the match object, if any. */
  function MatchForAltSeason(s: String): (r: Option<Span>)
    ensures r.Some? ==> AltToken(s, r.value.start, r.value.end)
    ensures r.Some? ==> r.value.start < r.value.end <= |s|
  {
    match Search(s, 0, AltMatchAt)
    case Some((i, j)) => AltMatchAtSound(s, i); AltTokenInside(s, i, j); Some(Span(i, j))
    case None => None
  }

  /** A lower-case literal starting with a letter or digit starts with a letter or digit in `s`. */
  lemma LiteralStartsAlnum(s: String, q: nat, lit: String)
    requires LiteralAt(s, q, lit) && lit != [] && IsAlnum(lit[0])
    ensures q < |s| && IsAlnum(s[q]) && !IsSpace(s[q])
  {
    assert Lower(s[q + 0]) == lit[0];
    AlnumNotSpace(s[q]);
  }

  /** A run of `m` spaces followed by something else is the run `RunOf` counts. */
  lemma SpaceRunIs(s: String, p: nat, m: nat)
    requires SpacesAt(s, p, m) && (p + m == |s| || !IsSpace(s[p + m]))
    ensures RunOf(s, p, IsSpace) == m
  {
    RunOfAtLeast(s, p, IsSpace, m);
    RunOfSpans(s, p, IsSpace);
  }

  /** The first number's greedy count is the one the pattern needs. */
  lemma AltFirstCount(s: String, i: nat, d: nat, m: nat)
    requires 1 <= d <= 2 && DigitsAt(s, i, d) && SpacesAt(s, i + d, m) && LiteralAt(s, i + d + m, "of")
    ensures d == Min(2, RunOf(s, i, IsDigit))
  {
    RunOfAtLeast(s, i, IsDigit, d);
    if d < 2 {
      LiteralStartsAlnum(s, i + d + m, "of");
      if m > 0 {
        DigitNotSpace(s[i + d]);
      }
      assert !IsDigit(s[i + d]);
    }
  }

  /** The second number's greedy count is the one the pattern needs. */
  lemma LastNumberCount(s: String, q: nat, j: nat)
    requires LastNumber(s, q, j)
    ensures j == q + Min(2, RunOf(s, q, IsDigit))
  {
    RunOfAtLeast(s, q, IsDigit, j - q);
    if j < q + Min(2, RunOf(s, q, IsDigit)) {
      assert IsWordChar(s[j - 1]) && IsWordChar(s[j]);
    }
  }

  /** The witnesses of `\s*of\s*(\d{1,2})\b`. */
  lemma SpacesThenOfParts(s: String, p: nat, j: nat) returns (m: nat, n: nat)
    requires SpacesThenOf(s, p, j)
    ensures SpacesAt(s, p, m) && LiteralAt(s, p + m, "of") && SpacesAt(s, p + m + 2, n) && LastNumber(s, p + m + 2 + n, j)
  {
    m :| SpacesAt(s, p, m) && LiteralAt(s, p + m, "of") && SpacesThenLastNumber(s, p + m + 2, j);
    n :| SpacesAt(s, p + m + 2, n) && LastNumber(s, p + m + 2 + n, j);
  }

  /** The matcher finds the match at `i` whenever the alternate pattern has one there. */
  lemma AltMatchAtComplete(s: String, i: nat, j: nat)
    requires AltToken(s, i, j)
    ensures AltMatchAt(s, i) == Some(j)
  {
    var d, m, n := AltTokenRuns(s, i, j);
    AltMatchAtFromRuns(s, i, d, m, n, j);
  }

  /** The matcher's answer, from the lengths of the greedy runs. */
  lemma AltMatchAtFromRuns(s: String, i: nat, d: nat, m: nat, n: nat, j: nat)
    requires i <= |s| && WordBoundary(s, i) && 0 < d == Min(2, RunOf(s, i, IsDigit))
    requires RunOf(s, i + d, IsSpace) == m && LiteralAt(s, i + d + m, "of")
    requires RunOf(s, i + d + m + 2, IsSpace) == n
    requires i + d + m + 2 + n < j == i + d + m + 2 + n + Min(2, RunOf(s, i + d + m + 2 + n, IsDigit))
    requires WordBoundary(s, j)
    ensures AltMatchAt(s, i) == Some(j)
  {
    AltSecondNumberRuns(s, i + d + m, n, j);
    AltMatchAtRuns(s, i, d, i + d + m, j);
  }

  /** The greedy runs of an alternate match, as `AltMatchAt` counts them. */
  lemma AltTokenRuns(s: String, i: nat, j: nat) returns (d: nat, m: nat, n: nat)
    requires AltToken(s, i, j)
    ensures i <= |s| && WordBoundary(s, i) && 0 < d == Min(2, RunOf(s, i, IsDigit))
    ensures RunOf(s, i + d, IsSpace) == m && LiteralAt(s, i + d + m, "of")
    ensures RunOf(s, i + d + m + 2, IsSpace) == n
    ensures i + d + m + 2 + n < j == i + d + m + 2 + n + Min(2, RunOf(s, i + d + m + 2 + n, IsDigit))
    ensures WordBoundary(s, j)
  {
    d := FirstNumberParts(s, i, j);
    m, n := AltRestRuns(s, i, d, j);
  }

  /** The runs after the first number of an alternate match. */
  lemma AltRestRuns(s: String, i: nat, d: nat, j: nat) returns (m: nat, n: nat)
    requires i <= |s| && WordBoundary(s, i) && 1 <= d <= 2 && DigitsAt(s, i, d) && SpacesThenOf(s, i + d, j)
    ensures 0 < d == Min(2, RunOf(s, i, IsDigit))
    ensures RunOf(s, i + d, IsSpace) == m && LiteralAt(s, i + d + m, "of")
    ensures RunOf(s, i + d + m + 2, IsSpace) == n
    ensures i + d + m + 2 + n < j == i + d + m + 2 + n + Min(2, RunOf(s, i + d + m + 2 + n, IsDigit))
  {
    m, n := SpacesThenOfParts(s, i + d, j);
    AltPartsRuns(s, i, d, m, n, j);
  }

  /** The pieces of an alternate match are the greedy runs. */
  lemma AltPartsRuns(s: String, i: nat, d: nat, m: nat, n: nat, j: nat)
    requires i <= |s| && WordBoundary(s, i) && 1 <= d <= 2 && DigitsAt(s, i, d)
    requires SpacesAt(s, i + d, m) && LiteralAt(s, i + d + m, "of")
    requires SpacesAt(s, i + d + m + 2, n) && LastNumber(s, i + d + m + 2 + n, j)
    ensures 0 < d == Min(2, RunOf(s, i, IsDigit))
    ensures RunOf(s, i + d, IsSpace) == m && RunOf(s, i + d + m + 2, IsSpace) == n
    ensures i + d + m + 2 + n < j == i + d + m + 2 + n + Min(2, RunOf(s, i + d + m + 2 + n, IsDigit))
  {
    AltFirstCount(s, i, d, m);
    AltRunsCount(s, i + d, m, n, j);
  }

  /** The witness of `(\d{1,2})` and the rest. */
  lemma FirstNumberParts(s: String, p: nat, j: nat) returns (d: nat)
    requires FirstNumberThenRest(s, p, j)
    ensures 1 <= d <= 2 && DigitsAt(s, p, d) && SpacesThenOf(s, p + d, j)
  {
    d :| 1 <= d <= 2 && DigitsAt(s, p, d) && SpacesThenOf(s, p + d, j);
  }

  /** The greedy runs after the first number are the ones the pattern needs. */
  lemma AltRunsCount(s: String, p: nat, m: nat, n: nat, j: nat)
    requires SpacesAt(s, p, m) && LiteralAt(s, p + m, "of")
    requires SpacesAt(s, p + m + 2, n) && LastNumber(s, p + m + 2 + n, j)
    ensures RunOf(s, p, IsSpace) == m && RunOf(s, p + m + 2, IsSpace) == n
    ensures j == p + m + 2 + n + Min(2, RunOf(s, p + m + 2 + n, IsDigit))
  {
    LiteralStartsAlnum(s, p + m, "of");
    SpaceRunIs(s, p, m);
    DigitNotSpace(s[p + m + 2 + n]);
    SpaceRunIs(s, p + m + 2, n);
    LastNumberCount(s, p + m + 2 + n, j);
  }

  /** What the matcher computes from the greedy runs. */
  lemma AltMatchAtRuns(s: String, i: nat, d: nat, o: nat, j: nat)
    requires i <= |s| && WordBoundary(s, i) && 0 < d == Min(2, RunOf(s, i, IsDigit))
    requires o == i + d + RunOf(s, i + d, IsSpace) && LiteralAt(s, o, "of")
    requires AltSecondNumber(s, o) == Some(j)
    ensures AltMatchAt(s, i) == Some(j)
  {
  }

  lemma AltSecondNumberRuns(s: String, o: nat, n: nat, j: nat)
    requires o + 2 <= |s| && RunOf(s, o + 2, IsSpace) == n
    requires o + 2 + n < j == o + 2 + n + Min(2, RunOf(s, o + 2 + n, IsDigit))
    requires WordBoundary(s, j)
    ensures AltSecondNumber(s, o) == Some(j)
  {
  }

  /** `match_for_altseason` reports the leftmost start at which the pattern matches, or none when none does. */
  lemma MatchForAltSeasonLeftmost(s: String)
    ensures MatchForAltSeason(s).None? ==> forall i: nat :: !AltTokenAt(s, i)
    ensures MatchForAltSeason(s).Some? ==> forall i: nat :: i < MatchForAltSeason(s).value.start ==> !AltTokenAt(s, i)
  {
    forall i: nat | MatchForAltSeason(s).None? || i < MatchForAltSeason(s).value.start
      ensures !AltTokenAt(s, i)
    {
      if AltTokenAt(s, i) {
        var j :| AltToken(s, i, j);
        AltMatchAtComplete(s, i, j);
        SearchLeftmost(s, 0, AltMatchAt, i);
      }
    }
  }

  /** `Search` reports the first start from `i0` at which `at` matches. */
  lemma {:induction false} SearchFinds<T>(s: String, i0: nat, at: (String, nat) -> Option<T>, i: nat)
    requires i0 <= i <= |s| && at(s, i).Some?
    requires forall i' :: i0 <= i' < i ==> at(s, i').None?
    ensures Search(s, i0, at) == Some((i, at(s, i).value))
    decreases i - i0
  {
    if i0 < i {
      SearchFinds(s, i0 + 1, at, i);
    }
  }

  // ---------------------------------------------------------------------------
  // normalize_tv_format, case-insensitive:
  //     ^s(\d{2,4})e(\d{2})$
  //   | season\s*(\d{2})\s*episode\s*(\d{2})
  //   | season(\d{2})\s*episode(\d{2})
  //   | season(\d{2})episode(\d{2})
  // ---------------------------------------------------------------------------

  /** Captured season (two to four digits) and episode (two digits). */
  predicate Groups(g: (String, String))
  {
    AllDigits(g.0) && 2 <= |g.0| <= 4 && AllDigits(g.1) && |g.1| == 2
  }

  /** `e(\d{2})$` from `q`. */
  predicate CompactEpisodeEnd(s: String, q: nat)
  {
    q + 3 <= |s| && Lower(s[q]) == 'e' && DigitsAt(s, q + 1, 2) && AtEnd(s, q + 3)
  }

  ghost predicate SeasonDigitsThenEnd(s: String, p: nat)
  {
    exists d :: 2 <= d <= 4 && DigitsAt(s, p, d) && CompactEpisodeEnd(s, p + d)
  }

  /** `^s(\d{2,4})e(\d{2})$`: the whole input. */
  ghost predicate NormCompactShape(s: String)
  {
    0 < |s| && Lower(s[0]) == 's' && SeasonDigitsThenEnd(s, 1)
  }

  ghost predicate SpacedNumberShape(s: String, p: nat)
  {
    exists m :: SpacesAt(s, p, m) && DigitsAt(s, p + m, 2)
  }

  ghost predicate SpacedEpisodeShape(s: String, p: nat)
  {
    exists m :: SpacesAt(s, p, m) && LiteralAt(s, p + m, "episode") && SpacedNumberShape(s, p + m + 7)
  }

  ghost predicate SpacedSeasonShape(s: String, p: nat)
  {
    exists m :: SpacesAt(s, p, m) && DigitsAt(s, p + m, 2) && SpacedEpisodeShape(s, p + m + 2)
  }

  /** `season\s*(\d{2})\s*episode\s*(\d{2})` from `i`. */
  ghost predicate NormSpacedShape(s: String, i: nat)
  {
    LiteralAt(s, i, "season") && SpacedSeasonShape(s, i + 6)
  }

  /** The `normalize_tv_format` pattern matches at `i`. */
  ghost predicate NormTokenAt(s: String, i: nat)
  {
    (i == 0 && NormCompactShape(s)) || NormSpacedShape(s, i)
  }

  /** `\d{2,4}` (greedy) then `e(\d{2})$`. */
  function NormCompactSeason(s: String, d: nat): (r: Option<(String, String)>)
    requires 0 < |s| && Lower(s[0]) == 's' && DigitsAt(s, 1, d) && d <= 4
    ensures r.Some? ==> Groups(r.value) && NormCompactShape(s)
    decreases d
  {
    if d < 2 then None
    else if CompactEpisodeEnd(s, 1 + d) then
      assert DigitsAt(s, 1, d) && CompactEpisodeEnd(s, 1 + d);
      Some((s[1..1 + d], s[2 + d..4 + d]))
    else NormCompactSeason(s, d - 1)
  }

  function NormCompact(s: String, i: nat): (r: Option<(String, String)>)
    ensures r.Some? ==> Groups(r.value) && i == 0 && NormCompactShape(s)
  {
    if i == 0 && 0 < |s| && Lower(s[0]) == 's' then
      RunOfSpans(s, 1, IsDigit);
      NormCompactSeason(s, Min(4, RunOf(s, 1, IsDigit)))
    else None
  }

  /**
   * `season\s*(\d{2})\s*episode\s*(\d{2})`. Each greedy `\s*` is followed
   * by a digit or a letter, which it cannot take, so it never gives back.
   */
  function NormSpaced(s: String, i: nat): (r: Option<(String, String)>)
    requires i <= |s|
    ensures r.Some? ==> Groups(r.value) && NormSpacedShape(s, i)
  {
    if LiteralAt(s, i, "season") then
      var q := i + 6 + RunOf(s, i + 6, IsSpace);
      if DigitsAt(s, q, 2) then
        var e := q + 2 + RunOf(s, q + 2, IsSpace);
        if LiteralAt(s, e, "episode") then
          var n := e + 7 + RunOf(s, e + 7, IsSpace);
          if DigitsAt(s, n, 2) then
            NormRunsSound(s, i, q, e, n);
            Some((s[q..q + 2], s[n..n + 2]))
          else None
        else None
      else None
    else None
  }

  /** The greedy runs `NormSpaced` takes are the pieces of a match. */
  lemma NormRunsSound(s: String, i: nat, q: nat, e: nat, n: nat)
    requires i + 6 <= |s| && LiteralAt(s, i, "season") && q == i + 6 + RunOf(s, i + 6, IsSpace) && DigitsAt(s, q, 2)
    requires e == q + 2 + RunOf(s, q + 2, IsSpace) && LiteralAt(s, e, "episode")
    requires n == e + 7 + RunOf(s, e + 7, IsSpace) && DigitsAt(s, n, 2)
    ensures Groups((s[q..q + 2], s[n..n + 2])) && NormSpacedShape(s, i)
  {
    SpaceRunFacts(s, i + 6);
    SpaceRunFacts(s, q + 2);
    SpaceRunFacts(s, e + 7);
    NormSpacedIntro(s, i, q, e, n);
  }

  /** The pieces of the spaced form, laid end to end, are a match. */
  lemma NormSpacedIntro(s: String, i: nat, q: nat, e: nat, n: nat)
    requires LiteralAt(s, i, "season") && i + 6 <= q && SpacesAt(s, i + 6, q - (i + 6)) && DigitsAt(s, q, 2)
    requires q + 2 <= e && SpacesAt(s, q + 2, e - (q + 2)) && LiteralAt(s, e, "episode")
    requires e + 7 <= n && SpacesAt(s, e + 7, n - (e + 7)) && DigitsAt(s, n, 2)
    ensures Groups((s[q..q + 2], s[n..n + 2])) && NormSpacedShape(s, i)
  {
    assert SpacedNumberShape(s, e + 7) by {
      assert SpacesAt(s, e + 7, n - (e + 7)) && DigitsAt(s, (e + 7) + (n - (e + 7)), 2);
    }
    assert SpacedEpisodeShape(s, q + 2) by {
      assert SpacesAt(s, q + 2, e - (q + 2)) && LiteralAt(s, (q + 2) + (e - (q + 2)), "episode");
    }
    assert SpacedSeasonShape(s, i + 6) by {
      assert SpacesAt(s, i + 6, q - (i + 6)) && DigitsAt(s, (i + 6) + (q - (i + 6)), 2);
    }
    DigitsSlice(s, q, 2);
    DigitsSlice(s, n, 2);
  }

  /** Digits in place are a digit string once sliced out. */
  lemma DigitsSlice(s: String, p: nat, n: nat)
    requires DigitsAt(s, p, n)
    ensures AllDigits(s[p..p + n]) && |s[p..p + n]| == n
  {
  }

  /** `season(\d{2})\s*episode(\d{2})`: the same reasoning for its one `\s*`. */
  function NormHalfSpaced(s: String, i: nat): (r: Option<(String, String)>)
    requires i <= |s|
    ensures r.Some? ==> Groups(r.value) && NormSpacedShape(s, i)
  {
    if LiteralAt(s, i, "season") && DigitsAt(s, i + 6, 2) then
      var e := i + 8 + RunOf(s, i + 8, IsSpace);
      if LiteralAt(s, e, "episode") && DigitsAt(s, e + 7, 2) then
        RunOfSpans(s, i + 8, IsSpace);
        NormSpacedIntro(s, i, i + 6, e, e + 7);
        Some((s[i + 6..i + 8], s[e + 7..e + 9]))
      else None
    else None
  }

  /** `season(\d{2})episode(\d{2})` */
  function NormJoined(s: String, i: nat): (r: Option<(String, String)>)
    requires i <= |s|
    ensures r.Some? ==> Groups(r.value) && NormSpacedShape(s, i)
  {
    if LiteralAt(s, i, "season") && DigitsAt(s, i + 6, 2) && LiteralAt(s, i + 8, "episode") && DigitsAt(s, i + 15, 2) then
      NormSpacedIntro(s, i, i + 6, i + 8, i + 15);
      Some((s[i + 6..i + 8], s[i + 15..i + 17]))
    else None
  }

  /** The groups captured by the pattern when tried at `i`, alternatives in order. */
  function NormAt(s: String, i: nat): (r: Option<(String, String)>)
    ensures r.Some? ==> Groups(r.value) && NormTokenAt(s, i)
  {
    if i > |s| then None
    else
      var first := NormCompact(s, i);
      if first.Some? then first
      else
        var second := NormSpaced(s, i);
        if second.Some? then second
        else
          var third := NormHalfSpaced(s, i);
          if third.Some? then third else NormJoined(s, i)
  }

  /** The canonical `s##e##` / `s####e##` form: zero-padded to two digits. */
  ghost predicate Canonical(t: String)
  {
    exists n: nat, m: nat :: n <= 9999 && m <= 99 && t == Canon(n, m)
  }

  /** `f"s{season:02}e{episode:02}"` */
  function Canon(season: nat, episode: nat): String
  {
    "s" + Pad2(season) + "e" + Pad2(episode)
  }

  /** `normalize_tv_format(season_episode)` */
  function NormalizeTvFormat(se: String): (r: String)
    ensures r == se || Canonical(r)
  {
    match Search(se, 0, NormAt)
    case Some((_, g)) =>
      ValueBound(g.0);
      ValueBound(g.1);
      Canon(Value(g.0), Value(g.1))
    case None => se
  }

  /** The compact form's digit count is forced: the digits are followed by the `e`. */
  lemma NormCompactComplete(s: String)
    requires NormCompactShape(s)
    ensures NormCompact(s, 0).Some?
  {
    var d: nat :| 2 <= d <= 4 && DigitsAt(s, 1, d) && CompactEpisodeEnd(s, 1 + d);
    RunOfAtLeast(s, 1, IsDigit, d);
    assert d == Min(4, RunOf(s, 1, IsDigit)) by {
      RunOfSpans(s, 1, IsDigit);
      if d < 4 {
        assert !IsDigit(s[1 + d]);
      }
    }
  }

  /** The pieces of a spaced match. */
  lemma NormSpacedParts(s: String, i: nat) returns (a: nat, b: nat, c: nat)
    requires NormSpacedShape(s, i)
    ensures LiteralAt(s, i, "season") && SpacesAt(s, i + 6, a) && DigitsAt(s, i + 6 + a, 2)
    ensures SpacesAt(s, i + 8 + a, b) && LiteralAt(s, i + 8 + a + b, "episode")
    ensures SpacesAt(s, i + 15 + a + b, c) && DigitsAt(s, i + 15 + a + b + c, 2)
  {
    a :| SpacesAt(s, i + 6, a) && DigitsAt(s, i + 6 + a, 2) && SpacedEpisodeShape(s, i + 6 + a + 2);
    b :| SpacesAt(s, i + 8 + a, b) && LiteralAt(s, i + 8 + a + b, "episode") && SpacedNumberShape(s, i + 8 + a + b + 7);
    c :| SpacesAt(s, i + 15 + a + b, c) && DigitsAt(s, i + 15 + a + b + c, 2);
  }

  /** A run of `m` spaces followed by a digit is the run `RunOf` counts. */
  lemma SpacesBeforeDigit(s: String, p: nat, m: nat)
    requires SpacesAt(s, p, m) && DigitsAt(s, p + m, 2)
    ensures RunOf(s, p, IsSpace) == m
  {
    DigitNotSpace(s[p + m]);
    SpaceRunIs(s, p, m);
  }

  /** Each greedy `\s*` of the spaced form is forced, so the matcher finds every spaced match. */
  lemma NormSpacedComplete(s: String, i: nat)
    requires NormSpacedShape(s, i)
    ensures i <= |s| && NormSpaced(s, i).Some?
  {
    var a, b, c := NormSpacedParts(s, i);
    NormSpacedCaptures(s, i, a, b, c);
  }

  /** What the spaced matcher computes from the greedy runs. */
  lemma NormSpacedRuns(s: String, i: nat, a: nat, b: nat, c: nat)
    requires i + 6 <= |s| && LiteralAt(s, i, "season")
    requires RunOf(s, i + 6, IsSpace) == a && DigitsAt(s, i + 6 + a, 2)
    requires RunOf(s, i + 8 + a, IsSpace) == b && LiteralAt(s, i + 8 + a + b, "episode")
    requires RunOf(s, i + 15 + a + b, IsSpace) == c && DigitsAt(s, i + 15 + a + b + c, 2)
    ensures NormSpaced(s, i) == Some((s[i + 6 + a..i + 8 + a], s[i + 15 + a + b + c..i + 17 + a + b + c]))
  {
  }

  /** The matcher finds a match at `i` whenever the pattern has one there. */
  lemma NormAtComplete(s: String, i: nat)
    requires NormTokenAt(s, i)
    ensures NormAt(s, i).Some?
  {
    if i == 0 && NormCompactShape(s) {
      NormCompactComplete(s);
    } else {
      NormSpacedComplete(s, i);
    }
  }

  /** Without a match anywhere the input comes back unchanged; with one it comes back canonical. */
  lemma NormalizeMatchOrSame(s: String)
    ensures (forall i: nat :: !NormTokenAt(s, i)) ==> NormalizeTvFormat(s) == s
    ensures (exists i: nat :: NormTokenAt(s, i)) ==> Canonical(NormalizeTvFormat(s))
  {
    if i: nat :| NormTokenAt(s, i) {
      NormAtComplete(s, i);
      var r := Search(s, 0, NormAt);
      if r.None? {
        SearchLeftmost(s, 0, NormAt, i);
      } else {
        var g := r.value.1;
        ValueBound(g.0);
        ValueBound(g.1);
        assert NormalizeTvFormat(s) == Canon(Value(g.0), Value(g.1));
      }
    }
  }

  /** An exact `s##e##` / `s####e##` input (any case) is read number by number. */
  lemma NormalizeCompactInput(s: String, d: nat)
    requires 0 < |s| && Lower(s[0]) == 's' && 2 <= d <= 4 && DigitsAt(s, 1, d) && CompactEpisodeEnd(s, 1 + d)
    ensures AllDigits(s[1..1 + d]) && AllDigits(s[2 + d..4 + d])
    ensures NormalizeTvFormat(s) == Canon(Value(s[1..1 + d]), Value(s[2 + d..4 + d]))
  {
    NormCompactComplete(s);
    RunOfAtLeast(s, 1, IsDigit, d);
    assert d == Min(4, RunOf(s, 1, IsDigit)) by {
      RunOfSpans(s, 1, IsDigit);
      if d < 4 {
        assert !IsDigit(s[1 + d]);
      }
    }
    assert NormAt(s, 0) == Some((s[1..1 + d], s[2 + d..4 + d]));
  }

  /** A spaced match with space runs `a`, `b` and `c` captures its two numbers. */
  lemma NormSpacedCaptures(s: String, i: nat, a: nat, b: nat, c: nat)
    requires LiteralAt(s, i, "season") && SpacesAt(s, i + 6, a) && DigitsAt(s, i + 6 + a, 2)
    requires SpacesAt(s, i + 8 + a, b) && LiteralAt(s, i + 8 + a + b, "episode")
    requires SpacesAt(s, i + 15 + a + b, c) && DigitsAt(s, i + 15 + a + b + c, 2)
    ensures i <= |s|
    ensures NormSpaced(s, i) == Some((s[i + 6 + a..i + 8 + a], s[i + 15 + a + b + c..i + 17 + a + b + c]))
  {
    SpacesBeforeDigit(s, i + 6, a);
    LiteralStartsAlnum(s, i + 8 + a + b, "episode");
    SpaceRunIs(s, i + 8 + a, b);
    SpacesBeforeDigit(s, i + 15 + a + b, c);
    NormSpacedRuns(s, i, a, b, c);
  }

  /** The compact form cannot start where `season` does: its second character is a digit. */
  lemma SeasonNotCompact(s: String, i: nat)
    requires LiteralAt(s, i, "season")
    ensures NormCompact(s, i).None?
  {
    if i == 0 {
      assert Lower(s[0 + 1]) == "season"[1];
      assert !IsDigit(s[1]);
    }
  }

  /**
   * When the leftmost match is the `season NN episode NN` form, with space
   * runs `a`, `b` and `c`, the result is `s` and `e` followed by the two
   * numbers read as integers and padded to two digits.
   */
  lemma NormalizeSpacedInput(s: String, i: nat, a: nat, b: nat, c: nat)
    requires LiteralAt(s, i, "season") && SpacesAt(s, i + 6, a) && DigitsAt(s, i + 6 + a, 2)
    requires SpacesAt(s, i + 8 + a, b) && LiteralAt(s, i + 8 + a + b, "episode")
    requires SpacesAt(s, i + 15 + a + b, c) && DigitsAt(s, i + 15 + a + b + c, 2)
    requires forall j: nat :: j < i ==> !NormTokenAt(s, j)
    ensures AllDigits(s[i + 6 + a..i + 8 + a]) && AllDigits(s[i + 15 + a + b + c..i + 17 + a + b + c])
    ensures NormalizeTvFormat(s) ==
      Canon(Value(s[i + 6 + a..i + 8 + a]), Value(s[i + 15 + a + b + c..i + 17 + a + b + c]))
  {
    NormSpacedCaptures(s, i, a, b, c);
    SeasonNotCompact(s, i);
    assert NormAt(s, i) == NormSpaced(s, i);
    forall j | 0 <= j < i
      ensures NormAt(s, j).None?
    {
    }
    SearchFinds(s, 0, NormAt, i);
  }

  /** The canonical form is a fixed point. */
  lemma NormalizeCanonical(n: nat, m: nat)
    requires n <= 9999 && m <= 99
    ensures NormalizeTvFormat(Canon(n, m)) == Canon(n, m)
  {
    var t := Canon(n, m);
    var d := CanonLayout(n, m);
    NormalizeCompactInput(t, d);
  }

  /** Where the two numbers sit in `Canon(n, m)`. */
  lemma CanonLayout(n: nat, m: nat) returns (d: nat)
    requires n <= 9999 && m <= 99
    ensures var t := Canon(n, m);
      0 < |t| && Lower(t[0]) == 's' && 2 <= d <= 4 && DigitsAt(t, 1, d) && CompactEpisodeEnd(t, 1 + d) &&
      t[1..1 + d] == Pad2(n) && t[2 + d..4 + d] == Pad2(m)
  {
    var t := Canon(n, m);
    d := |Pad2(n)|;
    assert t[1..1 + d] == Pad2(n);
    assert t[2 + d..4 + d] == Pad2(m);
    assert Lower(t[0]) == 's';
    assert Lower(t[1 + d]) == 'e';
  }

  lemma NormalizeIdempotent(s: String)
    ensures NormalizeTvFormat(NormalizeTvFormat(s)) == NormalizeTvFormat(s)
  {
    var r := NormalizeTvFormat(s);
    if r != s {
      var n: nat, m: nat :| n <= 9999 && m <= 99 && r == Canon(n, m);
      NormalizeCanonical(n, m);
    }
  }

  // ---------------------------------------------------------------------------
  // _fix_season_episode and parse_filename
  // ---------------------------------------------------------------------------

  /**
   * `_fix_season_episode(text)`: `int()` of the text before the first `of`,
   * as episode of season one. `None` is the `ValueError` that `int()` raises.
   */
  function FixSeasonEpisode(text: String): (r: Option<String>)
    ensures r.Some? ==> |r.value| >= 6 && r.value[..4] == "s01e"
  {
    match PyInt(SplitHead(text, "of"))
    case Some(n) => Some("s01e" + Pad2(n))
    case None => None
  }

  /** `int()` of digits followed by whitespace is the value of the digits. */
  lemma PyIntOfDigitsThenSpaces(h: String, d: nat)
    requires 1 <= d <= |h| && DigitsAt(h, 0, d)
    requires forall k :: d <= k < |h| ==> h[k] in Whitespace
    ensures AllDigits(h[..d]) && PyInt(h) == Some(Value(h[..d]))
  {
    DigitNotWhitespace(h[0]);
    DigitNotWhitespace(h[d - 1]);
    assert LStrip(h, Whitespace) == h;
    RStripAfter(h, d, Whitespace);
    assert Strip(h, Whitespace) == h[..d];
  }

  /** Stripping trailing `cs` stops at the last character not in `cs`. */
  lemma RStripAfter(h: String, d: nat, cs: set<char>)
    requires 1 <= d <= |h| && h[d - 1] !in cs
    requires forall k :: d <= k < |h| ==> h[k] in cs
    ensures RStrip(h, cs) == h[..d]
  {
    var r := RStrip(h, cs);
    assert |r| <= d by {
      assert r == [] || r[|r| - 1] == h[|r| - 1];
    }
  }

  /** Number, spaces, then a lower-case `of`: the episode is the number, zero-padded. */
  lemma FixSeasonEpisodeReads(t: String, d: nat, m: nat)
    requires 1 <= d && DigitsAt(t, 0, d) && SpacesAt(t, d, m) && OccursAt(t, "of", d + m)
    ensures AllDigits(t[..d])
    ensures FixSeasonEpisode(t) == Some("s01e" + Pad2(Value(t[..d])))
  {
    HeadBeforeOf(t, d, m);
    PyIntOfHead(t, d, m);
  }

  /** The text before the first `of` is the leading digits and spaces. */
  lemma HeadBeforeOf(t: String, d: nat, m: nat)
    requires DigitsAt(t, 0, d) && SpacesAt(t, d, m) && OccursAt(t, "of", d + m)
    ensures SplitHead(t, "of") == t[..d + m]
  {
    NoOfAmongDigitsAndSpaces(t, d, m);
    SplitHeadAt(t, "of", d + m);
  }

  /** `int()` of the leading digits and spaces reads the digits. */
  lemma PyIntOfHead(t: String, d: nat, m: nat)
    requires 1 <= d && DigitsAt(t, 0, d) && SpacesAt(t, d, m)
    ensures AllDigits(t[..d]) && PyInt(t[..d + m]) == Some(Value(t[..d]))
  {
    var h := t[..d + m];
    forall k | d <= k < |h| ensures h[k] in Whitespace {
      SpaceIsWhitespace(h[k]);
    }
    PyIntOfDigitsThenSpaces(h, d);
    assert h[..d] == t[..d];
  }

  /** `of` does not start inside the leading digits and spaces. */
  lemma NoOfAmongDigitsAndSpaces(t: String, d: nat, m: nat)
    requires DigitsAt(t, 0, d) && SpacesAt(t, d, m)
    ensures forall k :: 0 <= k < d + m ==> !OccursAt(t, "of", k)
  {
    forall k | 0 <= k < d + m
      ensures !OccursAt(t, "of", k)
    {
      assert IsDigit(t[k]) || IsSpace(t[k]);
      if k + 2 <= |t| {
        assert t[k..k + 2][0] == t[k];
      }
    }
  }

  /** What `parse_filename` gives back; `Raises` is the `ValueError` from `_fix_season_episode`. */
  datatype ParseOutcome = Parsed(showName: String, seasonEpisode: String) | Unparsed | Raises

  /** `parse_filename(filename)`: the alternate `# of #` form is tried first. */
  function ParseFilename(filename: String): (r: ParseOutcome)
    ensures r.Parsed? ==> IsStripped(r.showName)
  {
    match MatchForAltSeason(filename)
    case Some(span) =>
      var text := filename[span.start..span.end];
      var show := Strip(SplitHead(Strip(SplitHead(filename, text), Whitespace), "series"), Whitespace);
      StripIsStripped(SplitHead(Strip(SplitHead(filename, text), Whitespace), "series"));
      var se := FixSeasonEpisode(text);
      if se.Some? then Parsed(show, se.value) else Raises
    case None =>
      match MatchForTv(filename)
      case Some(span) =>
        var text := filename[span.start..span.end];
        StripIsStripped(SplitHead(filename, text));
        Parsed(Strip(SplitHead(filename, text), Whitespace), NormalizeTvFormat(text))
      case None => Unparsed
  }

  /** No whitespace at either end. */
  predicate IsStripped(t: String)
  {
    t == [] || (t[0] !in Whitespace && t[|t| - 1] !in Whitespace)
  }

  lemma StripIsStripped(t: String)
    ensures IsStripped(Strip(t, Whitespace))
  {
    var l := LStrip(t, Whitespace);
    var r := RStrip(l, Whitespace);
    if r != [] {
      assert r[0] == l[0];
    }
  }

  /** Stripping text that is already stripped changes nothing. */
  lemma StrippedStrip(t: String)
    requires IsStripped(t)
    ensures Strip(t, Whitespace) == t
  {
  }

  /**
   * The show name of a standard match: the name up to the first occurrence
   * of the matched text, whitespace stripped.
   */
  lemma ParseFilenameShowNameTv(s: String)
    requires MatchForAltSeason(s).None? && MatchForTv(s).Some?
    ensures var m := MatchForTv(s).value;
      var text := s[m.start..m.end];
      ParseFilename(s).Parsed? &&
      exists k: nat :: k <= m.start && FirstAt(s, text, k) && ParseFilename(s).showName == Strip(s[..k], Whitespace)
  {
    var m := MatchForTv(s).value;
    var text := s[m.start..m.end];
    ParseFilenameTvBranch(s);
    TvShowNameCut(s, text, m.start);
  }

  /**
   * The show name of an alternate match: the name up to the first occurrence
   * of the matched text, stripped, then cut before its first `series` and
   * stripped again.
   */
  lemma ParseFilenameShowNameAlt(s: String)
    requires MatchForAltSeason(s).Some? && ParseFilename(s).Parsed?
    ensures var m := MatchForAltSeason(s).value;
      var text := s[m.start..m.end];
      exists k: nat ::
        k <= m.start && FirstAt(s, text, k) &&
        var h := Strip(s[..k], Whitespace);
        (forall k2: nat :: FirstAt(h, "series", k2) ==> ParseFilename(s).showName == Strip(h[..k2], Whitespace)) &&
        (!Contains(h, "series") ==> ParseFilename(s).showName == h)
  {
    var m := MatchForAltSeason(s).value;
    var text := s[m.start..m.end];
    ParseFilenameAltBranch(s);
    AltShowNameCut(s, text, m.start);
  }

  lemma ParseFilenameTvBranch(s: String)
    requires MatchForAltSeason(s).None? && MatchForTv(s).Some?
    ensures var m := MatchForTv(s).value;
      var text := s[m.start..m.end];
      text != [] && OccursAt(s, text, m.start) &&
      ParseFilename(s) == Parsed(Strip(SplitHead(s, text), Whitespace), NormalizeTvFormat(text))
  {
    var m := MatchForTv(s).value;
    SpanOccurs(s, m.start, m.end);
  }

  lemma ParseFilenameAltBranch(s: String)
    requires MatchForAltSeason(s).Some? && ParseFilename(s).Parsed?
    ensures var m := MatchForAltSeason(s).value;
      var text := s[m.start..m.end];
      text != [] && OccursAt(s, text, m.start) &&
      ParseFilename(s).showName == Strip(SplitHead(Strip(SplitHead(s, text), Whitespace), "series"), Whitespace)
  {
    var m := MatchForAltSeason(s).value;
    SpanOccurs(s, m.start, m.end);
  }

  /** The text of a span occurs where the span starts. */
  lemma SpanOccurs(s: String, i: nat, j: nat)
    requires i < j <= |s|
    ensures s[i..j] != [] && OccursAt(s, s[i..j], i)
  {
  }

  /** The text before the first occurrence of `text`, stripped. */
  lemma TvShowNameCut(s: String, text: String, p: nat)
    requires text != [] && OccursAt(s, text, p)
    ensures exists k: nat :: k <= p && FirstAt(s, text, k) && Strip(SplitHead(s, text), Whitespace) == Strip(s[..k], Whitespace)
  {
    var k := SplitHeadOccurring(s, text, p);
  }

  /** The same, then cut before the first `series` and stripped again. */
  lemma AltShowNameCut(s: String, text: String, p: nat)
    requires text != [] && OccursAt(s, text, p)
    ensures var show := Strip(SplitHead(Strip(SplitHead(s, text), Whitespace), "series"), Whitespace);
      exists k: nat ::
        k <= p && FirstAt(s, text, k) &&
        var h := Strip(s[..k], Whitespace);
        (forall k2: nat :: FirstAt(h, "series", k2) ==> show == Strip(h[..k2], Whitespace)) &&
        (!Contains(h, "series") ==> show == h)
  {
    var k := SplitHeadOccurring(s, text, p);
    var h := Strip(s[..k], Whitespace);
    StripIsStripped(s[..k]);
    SeriesCut(h);
  }

  /** `h.split("series")[0].strip()` for a stripped `h`. */
  lemma SeriesCut(h: String)
    requires IsStripped(h)
    ensures forall k2: nat :: FirstAt(h, "series", k2) ==>
      Strip(SplitHead(h, "series"), Whitespace) == Strip(h[..k2], Whitespace)
    ensures !Contains(h, "series") ==> Strip(SplitHead(h, "series"), Whitespace) == h
  {
    SplitHeadCut(h, "series");
    if !Contains(h, "series") {
      StrippedStrip(h);
    }
  }

  /** Nothing is parsed exactly when neither pattern matches anywhere in the name. */
  lemma ParseFilenameUnparsed(s: String)
    ensures ParseFilename(s).Unparsed? <==> (forall i: nat :: !AltTokenAt(s, i)) && (forall i: nat :: !TvTokenAt(s, i))
  {
    MatchForAltSeasonLeftmost(s);
    MatchForTvLeftmost(s);
    var a := MatchForAltSeason(s);
    var t := MatchForTv(s);
    if a.Some? {
      assert AltTokenAt(s, a.value.start);
    } else if t.Some? {
      assert TvTokenAt(s, t.value.start);
    }
  }

  /**
   * When the alternate form occurs anywhere it decides the outcome: the
   * episode of season one, or the error when its `of` is not lower case.
   */
  lemma ParseFilenameAlternateFirst(s: String)
    requires exists i: nat :: AltTokenAt(s, i)
    ensures var r := ParseFilename(s);
      r.Raises? || (r.Parsed? && |r.seasonEpisode| >= 6 && r.seasonEpisode[..4] == "s01e")
  {
    MatchForAltSeasonLeftmost(s);
  }

  /** The digits, spaces and `of` of an alternate match, seen from the match text. */
  lemma AlternateTextLayout(s: String, i: nat, j: nat, d: nat, m: nat)
    requires i + d + m + 2 <= j <= |s| && DigitsAt(s, i, d) && SpacesAt(s, i + d, m)
    requires s[i + d + m] == 'o' && s[i + d + m + 1] == 'f'
    ensures DigitsAt(s[i..j], 0, d) && SpacesAt(s[i..j], d, m) && OccursAt(s[i..j], "of", d + m)
  {
    var t := s[i..j];
    assert t[d + m] == 'o' && t[d + m + 1] == 'f';
    assert t[d + m..d + m + 2] == ['o', 'f'];
  }

  lemma FixSeasonEpisodeOnSlice(s: String, i: nat, j: nat, d: nat, m: nat)
    requires 1 <= d && i + d + m + 2 <= j <= |s| && DigitsAt(s, i, d) && SpacesAt(s, i + d, m)
    requires s[i + d + m] == 'o' && s[i + d + m + 1] == 'f'
    ensures AllDigits(s[i..i + d])
    ensures FixSeasonEpisode(s[i..j]) == Some("s01e" + Pad2(Value(s[i..i + d])))
  {
    AlternateTextLayout(s, i, j, d, m);
    SliceOfSlice(s, i, j, d);
    FixSeasonEpisodeReads(s[i..j], d, m);
  }

  lemma LowerCaseOf(s: String, q: nat)
    requires IsLowerStr(s) && LiteralAt(s, q, "of")
    ensures s[q] == 'o' && s[q + 1] == 'f'
  {
    assert "of"[0] == 'o' && "of"[1] == 'f';
    assert Lower(s[q + 0]) == 'o' && Lower(s[q + 1]) == 'f';
  }

  /** Where the first number and the `of` of an alternate match lie. */
  lemma AltTokenLayout(s: String, i: nat, j: nat) returns (d: nat, m: nat)
    requires AltToken(s, i, j)
    ensures 1 <= d <= 2 && i + d + m + 2 <= j <= |s| && DigitsAt(s, i, d)
    ensures SpacesAt(s, i + d, m) && LiteralAt(s, i + d + m, "of")
  {
    d := FirstNumberParts(s, i, j);
    m := OfLayout(s, i + d, j);
  }

  lemma OfLayout(s: String, p: nat, j: nat) returns (m: nat)
    requires SpacesThenOf(s, p, j)
    ensures p + m + 2 <= j <= |s| && SpacesAt(s, p, m) && LiteralAt(s, p + m, "of")
  {
    var n;
    m, n := SpacesThenOfParts(s, p, j);
  }

  /** The run of digits a text starts with. */
  function DigitPrefix(t: String): (r: String)
    ensures AllDigits(r) && |r| <= |t| && r == t[..|r|]
    ensures |r| == |t| || !IsDigit(t[|r|])
  {
    if t != [] && IsDigit(t[0]) then [t[0]] + DigitPrefix(t[1..]) else []
  }

  lemma {:induction false} DigitPrefixIs(t: String, d: nat)
    requires DigitsAt(t, 0, d) && (d == |t| || !IsDigit(t[d]))
    ensures DigitPrefix(t) == t[..d]
  {
  }

  /** On a lower-case name, the alternate form's text reads as `s01e` and the number it starts with. */
  lemma FixSeasonEpisodeOnLowerCase(s: String, i: nat, j: nat)
    requires IsLowerStr(s) && AltToken(s, i, j)
    ensures i < j <= |s|
    ensures FixSeasonEpisode(s[i..j]) == Some("s01e" + Pad2(Value(DigitPrefix(s[i..j]))))
  {
    var d, m := AltTokenLayout(s, i, j);
    LowerCaseOf(s, i + d + m);
    FixSeasonEpisodeOnSlice(s, i, j, d, m);
    DigitPrefixOfSlice(s, i, j, d, m);
  }

  lemma DigitPrefixOfSlice(s: String, i: nat, j: nat, d: nat, m: nat)
    requires i + d + m < j <= |s| && DigitsAt(s, i, d) && SpacesAt(s, i + d, m) && s[i + d + m] == 'o'
    ensures DigitPrefix(s[i..j]) == s[i..i + d]
  {
    if m > 0 {
      DigitNotSpace(s[i + d]);
    }
    var t := s[i..j];
    assert DigitsAt(t, 0, d) && t[d] == s[i + d];
    DigitPrefixIs(t, d);
    SliceOfSlice(s, i, j, d);
  }

  /**
   * A lower-case name never raises, and the alternate form reads as
   * `s01e` and the number its match text starts with, zero-padded.
   */
  lemma ParseFilenameLowerCase(s: String)
    requires IsLowerStr(s)
    ensures !ParseFilename(s).Raises?
    ensures MatchForAltSeason(s).Some? ==>
      var span := MatchForAltSeason(s).value;
      ParseFilename(s).Parsed? &&
      ParseFilename(s).seasonEpisode == "s01e" + Pad2(Value(DigitPrefix(s[span.start..span.end])))
  {
    var a := MatchForAltSeason(s);
    if a.Some? {
      FixSeasonEpisodeOnLowerCase(s, a.value.start, a.value.end);
    }
  }

  /**
   * Without the alternate form, the standard form's match text is
   * normalised: the result is canonical, or the match text itself.
   */
  lemma ParseFilenameStandard(s: String)
    requires forall i: nat :: !AltTokenAt(s, i)
    requires MatchForTv(s).Some?
    ensures ParseFilename(s).Parsed?
    ensures var span := MatchForTv(s).value;
      Canonical(ParseFilename(s).seasonEpisode) || ParseFilename(s).seasonEpisode == s[span.start..span.end]
  {
    var a := MatchForAltSeason(s);
    assert a.Some? ==> AltTokenAt(s, a.value.start);
  }

  // ---------------------------------------------------------------------------
  // _should_delete, _should_exclude
  // ---------------------------------------------------------------------------

  /** `_should_delete`: some listed item occurs in the name, case-sensitively. */
  function ShouldDelete(fileName: String, filesToDelete: seq<String>): (b: bool)
    ensures b <==> exists i, k :: 0 <= i < |filesToDelete| && OccursAt(fileName, filesToDelete[i], k)
  {
    ContainsAnyIff(fileName, filesToDelete);
    ContainsAny(fileName, filesToDelete)
  }

  /**
   * `_should_exclude`: some listed item occurs in the name, case-sensitively.
   * Its source is the same test as `_should_delete`, over the exclusion list.
   */
  function ShouldExclude(fileName: String, fileExcludes: seq<String>): (b: bool)
    ensures b <==> exists i, k :: 0 <= i < |fileExcludes| && OccursAt(fileName, fileExcludes[i], k)
  {
    ShouldDelete(fileName, fileExcludes)
  }

  // ---------------------------------------------------------------------------
  // sort_media
  // ---------------------------------------------------------------------------

  /** A scanned file: its name and its path. */
  datatype FileEntry = FileEntry(name: String, path: String)

  /** Where `sort_media` puts a file. */
  datatype Verdict = Invalid | Deleted | Excluded | Show | Movie

  /** The checks of one `sort_media` iteration, in their order. */
  function VerdictOf(rules: Rules, name: String): Verdict
  {
    if !EndsWithAny(LowerStr(name), rules.videoFileExtensions) then Invalid
    else if ShouldDelete(name, rules.filesToDelete) then Deleted
    else if ShouldExclude(name, rules.fileExcludes) then Excluded
    else if MatchForTv(name).Some? then Show
    else Movie
  }

  /** `VerdictOf` under fixed rules, as a value. */
  function Triage(rules: Rules): String -> Verdict
  {
    name => VerdictOf(rules, name)
  }

  /** The paths of the files that `verdict` sends to `v`, in input order. */
  function PathsWith(verdict: String -> Verdict, files: seq<FileEntry>, v: Verdict): (r: seq<String>)
    ensures |r| <= |files|
  {
    if files == [] then []
    else
      var rest := PathsWith(verdict, files[..|files| - 1], v);
      if verdict(files[|files| - 1].name) == v then rest + [files[|files| - 1].path] else rest
  }

  /**
   * `sort_media(files)`: the movies and the shows, and the files it removes
   * from disk, each in input order.
   */
  method SortMedia(rules: Rules, files: seq<FileEntry>) returns (movies: seq<String>, shows: seq<String>, deleted: seq<String>)
    ensures movies == PathsWith(Triage(rules), files, Movie)
    ensures shows == PathsWith(Triage(rules), files, Show)
    ensures deleted == PathsWith(Triage(rules), files, Deleted)
  {
    movies, shows, deleted := [], [], [];
    for i := 0 to |files|
      invariant movies == PathsWith(Triage(rules), files[..i], Movie)
      invariant shows == PathsWith(Triage(rules), files[..i], Show)
      invariant deleted == PathsWith(Triage(rules), files[..i], Deleted)
    {
      var file := files[i];
      assert files[..i + 1][..i] == files[..i];
      if !EndsWithAny(LowerStr(file.name), rules.videoFileExtensions) {
        continue;
      }
      if ShouldDelete(file.name, rules.filesToDelete) {
        deleted := deleted + [file.path];
        continue;
      }
      if ShouldExclude(file.name, rules.fileExcludes) {
        continue;
      }
      if MatchForTv(file.name).Some? {
        shows := shows + [file.path];
      } else {
        movies := movies + [file.path];
      }
    }
    assert files[..|files|] == files;
  }

  /** A file that passes the extension, delete and exclude checks. */
  ghost predicate PassesChecks(rules: Rules, name: String)
  {
    (exists e :: 0 <= e < |rules.videoFileExtensions| && EndsWith(LowerStr(name), rules.videoFileExtensions[e])) &&
    (forall d, k :: 0 <= d < |rules.filesToDelete| ==> !OccursAt(name, rules.filesToDelete[d], k)) &&
    (forall x, k :: 0 <= x < |rules.fileExcludes| ==> !OccursAt(name, rules.fileExcludes[x], k))
  }

  /**
   * A file that passes the first three checks is a show when a TV token
   * occurs anywhere in its name and a movie otherwise; a file that fails
   * one of them is neither.
   */
  lemma VerdictShowOrMovie(rules: Rules, name: String)
    ensures VerdictOf(rules, name) == Show <==> PassesChecks(rules, name) && exists i: nat :: TvTokenAt(name, i)
    ensures VerdictOf(rules, name) == Movie <==> PassesChecks(rules, name) && forall i: nat :: !TvTokenAt(name, i)
  {
    PassesChecksIff(rules, name);
    MatchForTvSomewhere(name);
  }

  lemma PassesChecksIff(rules: Rules, name: String)
    ensures PassesChecks(rules, name) <==>
      EndsWithAny(LowerStr(name), rules.videoFileExtensions) &&
      !ShouldDelete(name, rules.filesToDelete) && !ShouldExclude(name, rules.fileExcludes)
  {
  }

  /** `match_for_tv` finds a match exactly when a TV token occurs somewhere in the name. */
  lemma MatchForTvSomewhere(name: String)
    ensures MatchForTv(name).Some? <==> exists i: nat :: TvTokenAt(name, i)
  {
    MatchForTvLeftmost(name);
    var t := MatchForTv(name);
    if t.Some? {
      assert TvTokenAt(name, t.value.start);
    }
  }

  /** The verdicts partition the files: each lands in exactly one list. */
  lemma {:induction false} PathsWithPartition(verdict: String -> Verdict, files: seq<FileEntry>)
    ensures |PathsWith(verdict, files, Invalid)| + |PathsWith(verdict, files, Deleted)| +
            |PathsWith(verdict, files, Excluded)| + |PathsWith(verdict, files, Show)| +
            |PathsWith(verdict, files, Movie)| == |files|
  {
    if files != [] {
      PathsWithPartition(verdict, files[..|files| - 1]);
    }
  }

  /** Sorting keeps input order: the lists of a concatenation are concatenated. */
  lemma {:induction false} PathsWithAppend(verdict: String -> Verdict, a: seq<FileEntry>, b: seq<FileEntry>, v: Verdict)
    ensures PathsWith(verdict, a + b, v) == PathsWith(verdict, a, v) + PathsWith(verdict, b, v)
  {
    if b != [] {
      assert (a + b)[..|a + b| - 1] == a + b[..|b| - 1];
      PathsWithAppend(verdict, a, b[..|b| - 1], v);
    } else {
      assert a + b == a;
    }
  }

  /** A path is listed under `v` exactly when some file with that path gets `v`. */
  lemma {:induction false} PathsWithMember(verdict: String -> Verdict, files: seq<FileEntry>, v: Verdict, p: String)
    ensures p in PathsWith(verdict, files, v) <==>
      exists i :: 0 <= i < |files| && files[i].path == p && verdict(files[i].name) == v
  {
    if files != [] {
      var n := |files| - 1;
      var init := files[..n];
      PathsWithMember(verdict, init, v, p);
      var hit := verdict(files[n].name) == v;
      assert PathsWith(verdict, files, v) == PathsWith(verdict, init, v) + (if hit then [files[n].path] else []);
      forall i | 0 <= i < n ensures init[i] == files[i] { }
    }
  }

  // ---------------------------------------------------------------------------
  // make_shows_map
  // ---------------------------------------------------------------------------

  /** An entry of a directory listing. */
  datatype DirEntry = DirEntry(name: String, path: String, isDir: bool)

  /** A network folder of a show library and the show folders listed in it. */
  datatype NetworkListing = NetworkListing(entry: DirEntry, shows: seq<DirEntry>)

  /** A show library: whether its path is a directory, and the network folders listed in it. */
  datatype LibraryListing = LibraryListing(isDir: bool, networks: seq<NetworkListing>)

  /** The show folders of the listed networks that are directories, in scan order. */
  function NetworkShows(networks: seq<NetworkListing>): seq<DirEntry>
  {
    if networks == [] then []
    else
      var last := networks[|networks| - 1];
      NetworkShows(networks[..|networks| - 1]) + (if last.entry.isDir then last.shows else [])
  }

  /** The show folders `make_shows_map` visits, in visiting order; missing libraries are skipped. */
  function ShowFolders(libraries: seq<LibraryListing>): seq<DirEntry>
  {
    if libraries == [] then []
    else
      var last := libraries[|libraries| - 1];
      ShowFolders(libraries[..|libraries| - 1]) + (if last.isDir then NetworkShows(last.networks) else [])
  }

  /** The dictionary after recording `folders` in order, skipping any named `empty` in any case. */
  function ShowsMap(folders: seq<DirEntry>): (d: Dict)
    ensures DistinctKeys(d)
  {
    if folders == [] then []
    else
      var d := ShowsMap(folders[..|folders| - 1]);
      var f := folders[|folders| - 1];
      if LowerStr(f.name) != "empty" then Put(d, f.name, f.path) else d
  }

  lemma ShowFoldersStep(libraries: seq<LibraryListing>, li: nat)
    requires li < |libraries|
    ensures ShowFolders(libraries[..li + 1]) ==
      ShowFolders(libraries[..li]) + (if libraries[li].isDir then NetworkShows(libraries[li].networks) else [])
  {
    assert libraries[..li + 1][..li] == libraries[..li];
  }

  lemma NetworkShowsStep(networks: seq<NetworkListing>, ni: nat)
    requires ni < |networks|
    ensures NetworkShows(networks[..ni + 1]) ==
      NetworkShows(networks[..ni]) + (if networks[ni].entry.isDir then networks[ni].shows else [])
  {
    assert networks[..ni + 1][..ni] == networks[..ni];
  }

  lemma VisitedNetworksStep(visited: seq<DirEntry>, networks: seq<NetworkListing>, ni: nat)
    requires ni < |networks|
    ensures visited + NetworkShows(networks[..ni + 1]) ==
      visited + NetworkShows(networks[..ni]) + (if networks[ni].entry.isDir then networks[ni].shows else [])
  {
    NetworkShowsStep(networks, ni);
    ConcatAssoc(visited, NetworkShows(networks[..ni]), if networks[ni].entry.isDir then networks[ni].shows else []);
  }

  lemma ExtendPrefix<T>(a: seq<T>, s: seq<T>, i: nat)
    requires i < |s|
    ensures a + s[..i] + [s[i]] == a + s[..i + 1]
  {
    assert s[..i + 1] == s[..i] + [s[i]];
  }

  lemma ConcatAssoc<T>(a: seq<T>, b: seq<T>, c: seq<T>)
    ensures a + b + c == a + (b + c)
  {
  }

  lemma {:induction false} ShowsMapStep(visited: seq<DirEntry>, f: DirEntry)
    ensures var d := ShowsMap(visited);
      ShowsMap(visited + [f]) == if LowerStr(f.name) != "empty" then Put(d, f.name, f.path) else d
  {
    assert (visited + [f])[..|visited|] == visited;
  }

  /** The dictionary-building loops of `make_shows_map`: the outer loop over the show libraries. */
  method MakeShowsMap(libraries: seq<LibraryListing>) returns (showsDict: Dict)
    ensures showsDict == ShowsMap(ShowFolders(libraries))
  {
    showsDict := [];
    for li := 0 to |libraries|
      invariant showsDict == ShowsMap(ShowFolders(libraries[..li]))
    {
      var library := libraries[li];
      ShowFoldersStep(libraries, li);
      if !library.isDir {
        assert ShowFolders(libraries[..li]) + [] == ShowFolders(libraries[..li]);
        continue;
      }
      showsDict := RecordNetworks(showsDict, ShowFolders(libraries[..li]), library.networks);
    }
    assert libraries[..|libraries|] == libraries;
  }

  /**
   * The loop over the networks of one library: only networks that are
   * directories are scanned. `visited` is what was recorded before.
   */
  method RecordNetworks(d0: Dict, ghost visited: seq<DirEntry>, networks: seq<NetworkListing>) returns (d: Dict)
    requires d0 == ShowsMap(visited)
    ensures d == ShowsMap(visited + NetworkShows(networks))
  {
    d := d0;
    assert networks[..0] == [] && visited + [] == visited;
    for ni := 0 to |networks|
      invariant d == ShowsMap(visited + NetworkShows(networks[..ni]))
    {
      var network := networks[ni];
      ghost var seen := visited + NetworkShows(networks[..ni]);
      VisitedNetworksStep(visited, networks, ni);
      if network.entry.isDir {
        d := RecordShows(d, seen, network.shows);
      } else {
        assert seen + [] == seen;
      }
    }
    assert networks[..|networks|] == networks;
  }

  /** The loop over the show folders of one network, skipping any named `empty` in any case. */
  method RecordShows(d0: Dict, ghost visited: seq<DirEntry>, shows: seq<DirEntry>) returns (d: Dict)
    requires d0 == ShowsMap(visited)
    ensures d == ShowsMap(visited + shows)
  {
    d := d0;
    assert visited + shows[..0] == visited;
    for si := 0 to |shows|
      invariant d == ShowsMap(visited + shows[..si])
    {
      var show := shows[si];
      ShowsMapStep(visited + shows[..si], show);
      ExtendPrefix(visited, shows, si);
      if LowerStr(show.name) != "empty" {
        d := Put(d, show.name, show.path);
      }
    }
    assert shows[..|shows|] == shows;
  }

  /** A name is a key exactly when some visited folder has it and it is not `empty` in any case. */
  lemma {:induction false} ShowsMapKeys(folders: seq<DirEntry>, k: String)
    ensures k in Keys(ShowsMap(folders)) <==>
      LowerStr(k) != "empty" && exists i :: 0 <= i < |folders| && folders[i].name == k
  {
    if folders != [] {
      var init := folders[..|folders| - 1];
      ShowsMapKeys(init, k);
      if exists i :: 0 <= i < |init| && init[i].name == k {
        var i :| 0 <= i < |init| && init[i].name == k;
        assert folders[i] == init[i];
      }
      if exists i :: 0 <= i < |folders| && folders[i].name == k {
        var i :| 0 <= i < |folders| && folders[i].name == k;
        if i < |init| {
          assert init[i] == folders[i];
        }
      }
    }
  }

  /** The last visited folder with a name decides its path: later folders overwrite earlier ones. */
  lemma {:induction false} ShowsMapLastWins(folders: seq<DirEntry>, i: nat)
    requires i < |folders| && LowerStr(folders[i].name) != "empty"
    requires forall j :: i < j < |folders| ==> folders[j].name != folders[i].name
    ensures Get(ShowsMap(folders), folders[i].name) == Some(folders[i].path)
  {
    if i < |folders| - 1 {
      ShowsMapLastWins(folders[..|folders| - 1], i);
    }
  }
}
