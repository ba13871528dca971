# filetools in Dafny

A model of the file-name rules of the `filetools` package, a media-library
helper that tidies downloaded videos. It decides three things for each
downloaded file:

- what it is (a show episode, a movie, junk to delete);
- what it should be renamed to;
- where it should be moved.

It also decides which download folders are ready to be emptied and which can
be removed.

The project has four modules:

- **`Text`** (`text.dfy`): the Python string and path built-ins the package
  leans on, written over `seq<char>`. These are `lower`, `strip`,
  `split(sep)[0]`, `replace`, `in`, `int()`, the `:02` format,
  `os.path.splitext`, `Path.stem` and `Path.joinpath`, plus an
  insertion-ordered `dict` held as a sequence of pairs.
- **`Utils`** (`utils.dfy`): `filetools/utils.py`. Each regular expression
  becomes an explicit matcher with Python `re.search` semantics:
  - the leftmost start wins;
  - alternatives are tried in order;
  - greedy counts give back from the longest, lazy counts take from the
    shortest; where the next piece can never start with a character the
    count takes, the whole run is the only count that can match, and the
    matcher tries only that one (the word form of the TV pattern and the
    whole alternate pattern);
  - `$` also matches before a final newline.

  Beside each matcher, a ghost predicate states the language of the pattern,
  and lemmas show that the matcher finds the leftmost match of that language.
  Built on these are `parse_filename`, `normalize_tv_format`, the `sort_media`
  triage loop and the `make_shows_map` loops.
- **`Naming`** (`naming.dfy`): `filetools/naming_files.py`. This covers year
  extraction, the two accepted name shapes, name sanitizing and formatting,
  the new name `_rename` computes and its never-overwrite decision, and one
  step of `rename_files`.
- **`Moving`** (`moving.dfy`): `filetools/moving_files.py`. This covers:
  - season folders, show and movie destinations, and library choice;
  - the extraction scan, all or nothing per folder;
  - the empty-folder scan;
  - the loops that collect `files_to_move`;
  - `_perform_moves` on a `FileSystem` object whose map from paths to
    contents is changed in place.

Everything the package reads from outside becomes a parameter:

- **Configuration:** the lists and year bounds from the settings file are a
  `Rules` value. The modules read attribute names that `filetools/settings.py`
  does not define, so the lists are passed explicitly.
- **Listings and lookups:** directory listings are sequences. The show index
  is a map whose keys are lower-cased, as `configparser` stores them.
- **User answers:** the new-show prompt and the yes/no confirmation are
  inputs, and so is the library pick of the intended `_choose_library`.
- **The disk:** paths that exist on disk are a set or a map.

The inner loops of `_get_files_to_extract` and `_get_empty_dirs` are methods
of their own (`ScanDirectory`, `ScanForDelete`), and so is the loop body of
`move_show_files` (`ShowMoveOf`). Each is specified by the same function as
the loop that calls it.

Characters are modelled as ASCII:

- `\d` is `0-9` and `\w` is `[A-Za-z0-9_]`;
- `re.I` and `lower()` fold only `A-Z`;
- whitespace is the ASCII set Python's `str.strip()` and `int()` use.

## Model

| member | source | states |
|---|---|---|
| `Text.PyInt` | filetools/utils.py:321 | `int()` on the text before `of`: a number exactly when the whitespace-stripped text is a non-empty run of ASCII digits; anything else is the `ValueError` |
| `Text.Stem` | filetools/moving_files.py:145 | `Path.stem`: a prefix of the name; shorter than the name exactly when the last dot is neither the first nor the last character, and then it stops right before that dot |
| `Text.SplitExt` | filetools/naming_files.py:143 | `os.path.splitext`: the two parts concatenate to the name; the extension is empty or a dot with no further dot and no `/` |
| `Text.SplitExtNamed` | filetools/naming_files.py:143 | a name with a character other than a dot after its last `/`, then a dot and an extension without dots or slashes, splits exactly at that dot |
| `Text.JoinPath` | filetools/moving_files.py:383 | `Path.joinpath`: an empty name adds nothing; an absolute name, or any name joined to an empty path, is the result; a relative name is appended to the path after one `/`, so the result starts with the path, ends with `/name` and is at most one character longer than the two |
| `Text.Put` | filetools/moving_files.py:282 | `d[k] = v`: afterwards `k` maps to `v`, every other key keeps its value, the keys gain `k`, and keys stay distinct |
| `Text.Update` | filetools/moving_files.py:285 | `d.update(e)`: the keys are those of `d` and `e`, and stay distinct |
| `Text.PutEntries` | filetools/moving_files.py:282 | every entry after `d[k] = v` is `(k, v)` or was already in `d` |
| `Text.UpdateEntries` | filetools/moving_files.py:285 | every entry after `d.update(e)` comes from `d` or from `e` |
| `Utils.MatchForTv` | filetools/utils.py:149-175 | `match_for_tv`: a reported span is a token of the pattern: a boundary (start or `[\W_]`), then `s` with 2-4 digits and `e` with 2 digits, or a `season NN episode NN` variant, then end or `[\W_]`; the span includes the boundary characters |
| `Utils.MatchForTvLeftmost` | filetools/utils.py:149-175 | `match_for_tv` finds a match whenever the pattern occurs, and no token starts before the one it reports |
| `Utils.MatchForTvSomewhere` | filetools/utils.py:170-175 | `match_for_tv` reports a match exactly when a token of the pattern occurs somewhere in the name |
| `Utils.WordFormComplete` | filetools/utils.py:156-160 | wherever the `season … episode …` alternative matches, its matcher succeeds: each lazy separator count can only stop at the end of its run |
| `Utils.JoinedFormRedundant` | filetools/utils.py:160-167 | the third alternative, `season(\d{2})episode(\d{2})`, matches nothing the second does not |
| `Utils.MatchForAltSeason` | filetools/utils.py:187 | `match_for_altseason`: a reported span is `\b`, 1-2 digits, spaces, `of`, spaces, 1-2 digits, `\b` |
| `Utils.AltMatchAtSound` | filetools/utils.py:187 | every end the alternate matcher reports closes a match of `\b(\d{1,2})\s*of\s*(\d{1,2})\b` from that start |
| `Utils.AltMatchAtComplete` | filetools/utils.py:187 | wherever the alternate pattern matches from a start, the matcher reports exactly that end: no greedy count ever gives back |
| `Utils.MatchForAltSeasonLeftmost` | filetools/utils.py:187 | the alternate matcher finds the leftmost occurrence, or none when there is none |
| `Utils.NormalizeTvFormat` | filetools/utils.py:221-264 | `normalize_tv_format` returns its input or a canonical `s##e##` / `s####e##` token; which numbers the token carries is stated by `NormalizeCompactInput` and `NormalizeSpacedInput` |
| `Utils.NormalizeMatchOrSame` | filetools/utils.py:233-264 | with no match anywhere the input comes back unchanged; with a match the result is canonical |
| `Utils.NormSpacedCaptures` | filetools/utils.py:236 | `season\s*(\d{2})\s*episode\s*(\d{2})` at a position captures exactly the two 2-digit numbers after `season` and after `episode`, whatever spaces lie between |
| `Utils.NormalizeSpacedInput` | filetools/utils.py:233-260 | when the leftmost match is the `season NN episode NN` form (any case, any spaces), the result is `s` + int of the season digits padded to 2 + `e` + int of the episode digits padded to 2 |
| `Utils.NormalizeCompactInput` | filetools/utils.py:235-260 | an exact `s` + 2-4 digits + `e` + 2 digits input (any case) becomes `s` + the season number padded to 2 + `e` + the episode padded to 2 |
| `Utils.NormalizeCanonical` | filetools/utils.py:235-260 | every canonical token normalises to itself |
| `Utils.NormalizeIdempotent` | filetools/utils.py:221-264 | normalising twice equals normalising once |
| `Utils.FixSeasonEpisode` | filetools/utils.py:317-322 | `_fix_season_episode`: a result is `s01e` and at least two more characters (the padded episode); `None` stands for the `ValueError` of `int()` |
| `Utils.FixSeasonEpisodeReads` | filetools/utils.py:317-322 | for a number, spaces and a lower-case `of`, the result is `s01e` + the number padded to two digits; the second number is discarded |
| `Utils.ParseFilename` | filetools/utils.py:99-132 | `parse_filename`: a parsed show name has no surrounding whitespace; where it is cut is stated by `ParseFilenameShowNameTv` and `ParseFilenameShowNameAlt` |
| `Utils.ParseFilenameUnparsed` | filetools/utils.py:110-132 | `(None, None)` exactly when neither the alternate nor the TV pattern occurs anywhere |
| `Utils.ParseFilenameAlternateFirst` | filetools/utils.py:110-118 | when the alternate form occurs anywhere, it decides the result whatever TV pattern also occurs: either the `ValueError`, or a token of `s01e` and the padded episode |
| `Utils.ParseFilenameLowerCase` | filetools/utils.py:110-118 | on a lower-case name `parse_filename` never raises (its `_fix_season_episode` call included), and the alternate form reads as `s01e` + the first number padded |
| `Utils.ParseFilenameShowNameTv` | filetools/utils.py:120-125 | without the alternate form, the show name is the name up to the first occurrence of the matched text (at or before the match), whitespace stripped |
| `Utils.ParseFilenameShowNameAlt` | filetools/utils.py:110-118 | with the alternate form, the name up to the first occurrence of the matched text is stripped, then cut before its first `series` (all of it without one) and stripped again |
| `Utils.ParseFilenameStandard` | filetools/utils.py:120-129 | without the alternate form, a TV match always parses, and the token is canonical or the match text itself |
| `Utils.ShouldDelete` | filetools/utils.py:325-327 | `_should_delete`: true exactly when some listed item occurs in the name, case-sensitively |
| `Utils.ShouldExclude` | filetools/utils.py:330-332 | `_should_exclude`: true exactly when some listed item occurs in the name, case-sensitively; the source repeats `_should_delete`'s test, and so does the model |
| `Utils.SortMedia` | filetools/utils.py:267-311 | the triage loop: the movies, the shows and the removed files are exactly the files the ordered checks (extension, delete, exclude, TV token) send to each list, in input order |
| `Utils.VerdictShowOrMovie` | filetools/utils.py:284-309 | a file that passes the extension, delete and exclude checks is a show exactly when a TV token occurs in its name and a movie otherwise; a file failing a check is neither |
| `Utils.PathsWithPartition` | filetools/utils.py:284-311 | every file lands in exactly one of invalid, deleted, excluded, show, movie |
| `Utils.PathsWithAppend` | filetools/utils.py:284-311 | the lists keep input order: sorting a concatenation concatenates the lists |
| `Utils.PathsWithMember` | filetools/utils.py:284-311 | a path is in a list exactly when some file with that path gets that verdict |
| `Utils.MakeShowsMap` | filetools/utils.py:199-212 | the loop over the libraries builds the dictionary of all visited show folders, skipping libraries that are not directories |
| `Utils.RecordNetworks` | filetools/utils.py:205-210 | the loop over one library's networks adds exactly the shows of the networks that are directories, in order |
| `Utils.RecordShows` | filetools/utils.py:208-210 | the loop over one network's folders records each folder not named `empty` in any case, later names overwriting earlier ones |
| `Utils.ShowsMap` | filetools/utils.py:207-210 | the show dictionary never repeats a key |
| `Utils.ShowsMapKeys` | filetools/utils.py:207-210 | a name is a key exactly when some visited folder has it and it does not lower-case to `empty` |
| `Utils.ShowsMapLastWins` | filetools/utils.py:207-210 | a name maps to the path of the last folder with that name: a folder followed by no namesake gives the value |
| `Naming.YearRuns` | filetools/naming_files.py:97 | `re.findall("[0-9]{4}")`: four-digit runs, left to right, without overlap |
| `Naming.YearRunsComplete` | filetools/naming_files.py:97 | every four-digit run of the text lies inside one of the matches; runs are not word-bounded |
| `Naming.GetYear` | filetools/naming_files.py:84-107 | `_get_year`: `None` exactly when no run is within `[year_min, year_max]`; otherwise the last run that is |
| `Naming.GetYearFound` | filetools/naming_files.py:102-107 | a found year is four digits, in range, and occurs in the text |
| `Naming.IsProperlyFormatted` | filetools/naming_files.py:110-123 | `_is_properly_formatted` is true exactly for the movie shape `^[a-z0-9_]+_\(\d{4}\)\.[a-z0-9]+$` or the show shape `^[a-z0-9_]+_s\d{2,4}e\d{2,3}\.[a-z0-9]+$` |
| `Naming.MovieMatchIff` | filetools/naming_files.py:120 | the movie-pattern matcher accepts exactly the movie shape |
| `Naming.ShowMatchIff` | filetools/naming_files.py:121 | the show-pattern matcher accepts exactly the show shape |
| `Naming.ProperlyFormattedChars` | filetools/naming_files.py:120-123 | a properly formatted name uses only `[a-z0-9_().]`, plus `\n`, which `$` lets through as one final newline: an upper-case letter or a bracket makes it false |
| `Naming.SanitizeShowName` | filetools/naming_files.py:166-184 | the loop over the cleanup flags, then the clean-up chain, gives the sanitized name |
| `Naming.SanitizedShowNameClean` | filetools/naming_files.py:170-184 | a sanitized show name is lower case and has no space, `.`, `'`, `,`, `!` or `?` |
| `Naming.SanitizeSeasonEpisode` | filetools/naming_files.py:187-190 | `_sanitize_season_episode` deletes exactly `.`, space and `_`, and keeps every other character in order with its case |
| `Naming.SanitizeSeasonEpisodeIdempotent` | filetools/naming_files.py:187-190 | sanitizing twice equals sanitizing once |
| `Naming.SanitizeCanonical` | filetools/naming_files.py:187-190 | a canonical token is left unchanged |
| `Naming.FormatTvShowName` | filetools/naming_files.py:52-60 | `_format_tv_show_name` is the lower-cased name, `_`, season/episode, flags and extension; the result is lower case |
| `Naming.FormattedShowIsProper` | filetools/naming_files.py:52-60 | a TV name built from a clean name, a canonical token and a clean extension, with no flags, is properly formatted by the `_is_properly_formatted` test |
| `Naming.ShowLayoutIsProper` | filetools/naming_files.py:121 | `name_s<2-4 digits>e<2 digits>.ext` with clean parts has the show shape |
| `Naming.MovieTags` | filetools/naming_files.py:65-69 | the movie tags are `-4K` when `2160p` occurs, then `-hdr` when `hdr` occurs |
| `Naming.HdrTagsReduce` | filetools/naming_files.py:138 | for any list of tags that contains `hdr` and whose tags all start with `hdr`, looking for any of them is looking for `hdr`; this covers `_rename`'s list `hdr`, `hdr10`, `hdr10plus` and `_format_movie_name`'s list `hdr`, `hdr10plus` (filetools/naming_files.py:67) |
| `Naming.CleanMovieName` | filetools/naming_files.py:71-73 | the cleaned movie name is lower case, with no `.`, space or `'`; for a name without `" ("` it is the name character by character with every dot and space turned into `_`, letters lower-cased and apostrophes dropped |
| `Naming.FormatMovieName` | filetools/naming_files.py:63-81 | `_format_movie_name`: with an in-range year, the cleaned name up to the first occurrence of that year, `(year)`, the tags and the extension; with none, the cleaned name and the extension |
| `Naming.TaggedMovieNotProper` | filetools/naming_files.py:63-81 | a movie name that gets a `-4K` or `-hdr` tag is never properly formatted, so every later run renames it again |
| `Naming.FlagsName` | filetools/naming_files.py:136-140 | the flag suffix is `_[4K_hdr]`, `_[4K]`, `_[hdr]` or empty, by whether `2160p` and an hdr tag occur in the lower-cased name |
| `Naming.SplitExtLower` | filetools/naming_files.py:130-143 | splitting a lower-cased name gives lower-case parts |
| `Naming.NewName` | filetools/naming_files.py:128-155 | the name `_rename` computes: `parse_filename` never raises on the lower-cased name; with a show name and a token, the result is the TV name of the sanitized name, the sanitized token, the flag suffix (`_[4K]`, `_[hdr]`, `_[4K_hdr]` or nothing) and the extension, so it is lower case, starts with the sanitized name, `_` and the token, and ends with the extension; otherwise it is the movie name |
| `Naming.SanitizeSeparatedCanon` | filetools/naming_files.py:187-190 | a canonical token with a `.`, space or `_` (or nothing) on each side, as the TV pattern reports it, sanitizes to the canonical token |
| `Naming.RenamedShowIsProper` | filetools/naming_files.py:128-155 | a show whose token sanitizes to a canonical one (dotted, spaced and underscored names included), with a clean sanitized name, no flags and a clean extension, is renamed to a properly formatted name, so the next run leaves it alone |
| `Naming.Rename` | filetools/naming_files.py:126-163 | `_rename`: the name is kept exactly when it is properly formatted; otherwise the target is the new name in the same directory, renamed only when that path does not exist |
| `Naming.RenameFilesStep` | filetools/naming_files.py:33-44 | one `rename_files` step: delete exactly when a deletion item occurs in the name; otherwise `_rename` exactly when the extension (case as written) is a video extension and not an excluded one |
| `Moving.SplitSeasonEpisode` | filetools/moving_files.py:415-429 | `_split_season_episode`: the error exactly when the underscore-trimmed token has no `e`; otherwise the text before the first `e` and `e` + the text up to the next `e`, which together are a prefix of the token |
| `Moving.SplitAtE` | filetools/moving_files.py:426-429 | the same split on an already trimmed token |
| `Moving.SplitCanonical` | filetools/moving_files.py:425-429 | a canonical token splits into `s` + the padded season and `e` + the padded episode |
| `Moving.SeasonFolder` | filetools/moving_files.py:180-182 | the season folder: a season text without `s` is kept unless it is `00`, and the result is never `season_00` (that one becomes `specials`) |
| `Moving.SeasonFolderCanonical` | filetools/moving_files.py:180-182 | for a canonical token the folder is `specials` for season 0 and `season_` + the padded season otherwise |
| `Moving.BaseShowName` | filetools/moving_files.py:179 | the base show name is the show name up to the first occurrence of the season/episode token (all of it without one) with `_` trimmed at both ends, so it has no `_` at either end |
| `Moving.BuildShowDestination` | filetools/moving_files.py:157-194 | `_build_show_destination`: `None` exactly when no season/episode is parsed; the split error exactly when the token has no `e`; an indexed show goes to index path / season folder / unchanged file name; an unknown show goes to the prompt with the base name, folder and file name |
| `Moving.ShowDestinationCanonical` | filetools/moving_files.py:173-191 | an episode of an indexed show whose token is a canonical one after a `_` or nothing, with any tail (as in `x_s01e02_[4k].mkv`), goes to its `season_##` or `specials` folder and keeps its file name |
| `Moving.CanonTokenSeason` | filetools/moving_files.py:425-429 | such a token splits with `s` and the padded season in front |
| `Moving.ChooseLibrary` | filetools/moving_files.py:197-214 | `_choose_library` as written, for libraries with distinct names (the keys of a dict): `None` exactly for no libraries; one library without asking; `TypeError` exactly for several |
| `Moving.PickLibrary` | filetools/moving_files.py:197-214 | `_choose_library` as intended, for libraries with distinct names: `None` exactly for no libraries; one library without asking; several, the picked one |
| `Moving.ChooseLibraryTypeError` | filetools/moving_files.py:210-214 | the two agree for at most one library; for several the call raises where the intended pick returns the picked library |
| `Moving.TwoLibrariesRaise` | filetools/moving_files.py:212 | with two libraries the call raises, while the intended pick of the second gives its path |
| `Moving.MovieFolder` | filetools/moving_files.py:145-146 | the movie folder is the file's stem with the `-4K` and `-hdr` tags removed: a stem holding neither tag (in particular one without `-`) is the folder itself, and a file name without `/` gives a folder without `/` |
| `Moving.MovieDestinationIn` | filetools/moving_files.py:152 | a movie's path in a library ends with `/` and its unchanged file name; for a library path without a trailing `/` and a plain file name with a non-empty folder, it is the library, `/`, the movie folder, `/`, the file name |
| `Moving.BuildMovieDestination` | filetools/moving_files.py:133-154 | `_build_movie_destination`: raises exactly when `_choose_library` does (several libraries); `None` exactly when there is no library; with one, the library / movie folder / unchanged file name |
| `Moving.TaggedMovieFolder` | filetools/moving_files.py:145-146 | a movie renamed with `-4K` / `-hdr` tags lands in the same folder as the untagged name, for every title without a `.` that does not itself hold `-4K` or `-hdr` (hyphenated titles such as `spider-man_(2002)` included) |
| `Moving.ProcessFile` | filetools/moving_files.py:366-384 | `_process_file`: still downloading exactly for a do-not-delete extension; a new path exactly for a video extension whose lower-cased name is not ignored, and it is the working directory joined with the file name |
| `Moving.InProgressSkipped` | filetools/moving_files.py:432-442 | `_should_skip_directory` in the scan: a folder named `_in-progress` adds nothing to `files_to_extract`, whatever it holds; any other folder with no file still downloading adds its `tmpdict` |
| `Moving.GetFilesToExtract` | filetools/moving_files.py:249-289 | the extraction scan returns the dictionary of the non-skipped folders with no file still downloading, in scan order |
| `Moving.ScanDirectory` | filetools/moving_files.py:275-282 | the inner scan reports a folder still downloading exactly when one of its files is, and otherwise gives its `tmpdict` |
| `Moving.ExtractableSound` | filetools/moving_files.py:275-282 | every `tmpdict` entry is a file of that folder mapped to its processed path |
| `Moving.ExtractableComplete` | filetools/moving_files.py:275-282 | every file the processing keeps has its path in the `tmpdict` |
| `Moving.ExtractableDistinct` | filetools/moving_files.py:275-282 | `tmpdict` never repeats a key |
| `Moving.FilesToExtractSound` | filetools/moving_files.py:268-285 | all or nothing: every entry comes from a folder that is not `_in-progress` and has no file still downloading |
| `Moving.ContributionSound` | filetools/moving_files.py:270-285 | a folder that contributes entries is such a folder, and each entry comes from one of its files |
| `Moving.FilesToExtractComplete` | filetools/moving_files.py:268-285 | every file kept by the processing, in such a folder, is in the result |
| `Moving.FilesToExtractDistinct` | filetools/moving_files.py:266-285 | the result never repeats a key |
| `Moving.GetEmptyDirs` | filetools/moving_files.py:217-246 | the empty-folder scan lists the empty folders, joined to the working directory, in scan order |
| `Moving.ScanForDelete` | filetools/moving_files.py:234-243 | the `delete` flag ends up set exactly when no file has a do-not-delete extension and every video is a sample or a trailer |
| `Moving.EmptyDirsMembers` | filetools/moving_files.py:232-246 | a path is listed exactly when it is the working-directory path of such a folder |
| `Moving.EmptyDirsLength` | filetools/moving_files.py:232-246 | no more paths are listed than there are folders |
| `Moving.KeptFilesKeepDirectory` | filetools/moving_files.py:231-245 | a folder with a file still downloading, or with a video to extract that is not a sample or a trailer, is never listed as empty |
| `Moving.CollectMovesSound` | filetools/moving_files.py:98-102 | for movies, and likewise for shows, every entry of `files_to_move` is the move of one of the items |
| `Moving.CollectMovesComplete` | filetools/moving_files.py:98-102 | for movies, and likewise for shows, every item that has a destination has its source among the keys |
| `Moving.CollectMovesStep` | filetools/moving_files.py:98-102 | one more item adds its move, if it has one |
| `Moving.CollectMovieMoves` | filetools/moving_files.py:96-102 | the loop of `move_movie_files` builds the dictionary of the movies' planned moves, or stops at the first movie when its destination raises |
| `Moving.MovieMovesOutcome` | filetools/moving_files.py:96-104 | `move_movie_files` plans nothing at all exactly when there are several libraries and at least one movie; no library gives an empty dictionary; with one library each movie moves from the working directory to its folder there |
| `Moving.MoviePlanMoves` | filetools/moving_files.py:144-154 | as intended, a movie moves from the working directory to its folder in the picked library; with no library nothing moves |
| `Moving.MoviePlanAgrees` | filetools/moving_files.py:96-104 | with at most one library, the loop as written plans what the intended one plans |
| `Moving.CollectShowMoves` | filetools/moving_files.py:117-123 | the loop of `move_show_files` builds the dictionary of the shows' planned moves, or stops when a destination raises |
| `Moving.ShowMoveOf` | filetools/moving_files.py:120-123 | one iteration: whether building the destination raises, and the planned move |
| `Moving.ShowPlanMoves` | filetools/moving_files.py:170-194 | an indexed show moves to its folder; an unknown show moves only if the prompt answers; a file without a season/episode does not move |
| `Moving.NoneRaisesStep` | filetools/moving_files.py:119-123 | if no earlier show file raised and this one does not, none up to it raised |
| `Moving.MoveStep` | filetools/moving_files.py:355-363 | one move: an existing destination is skipped; otherwise the source's content moves there and the source is gone; other paths are unchanged |
| `Moving.FileSystem.constructor` | filetools/moving_files.py:334 | the file system starts from the given paths |
| `Moving.FileSystem.PerformMoves` | filetools/moving_files.py:334-363 | `_perform_moves`: nothing happens for no moves, no confirmation or debug mode; otherwise the moves are applied in order |
| `Moving.MoveAllNeverOverwrites` | filetools/moving_files.py:350-363 | a file that is not the source of any move keeps its content, even when it is a destination |
| `Moving.MoveAllKeepsCount` | filetools/moving_files.py:350-363 | moving neither loses nor duplicates files |
| `Moving.MoveAllPaths` | filetools/moving_files.py:350-363 | a new path is the destination of some move; a vanished path is the source of some move |

## Left out

- Disk effects. `dir_scan`, `os.remove`, `os.rename`, `mkdir`,
  `shutil.rmtree` and the `.ini` write are not modelled. `_move_file`'s three
  strategies (rename, sendfile, copy plus unlink) and their partial failures
  are not modelled either: a move of an existing source either succeeds, or
  the source is missing and nothing changes. Directories are not modelled,
  only files.
- `get_show_map`, which reads the INI file: the index is an input.
- `clean_empty_dirs` and `extract_from_src`, which only confirm and act on
  the lists computed by `GetEmptyDirs` and `GetFilesToExtract`.
- `_prompt_for_new_show` and `ask_bool`: their answers are inputs (`prompt`,
  `confirmed`). `_prompt_for_new_show`'s own `ask_multichoice` menu
  (Television or Documentaries) is part of that abstracted prompt. Separately,
  `_choose_library`'s two-argument call raises before anything is asked (see
  "Findings"); its intended pick is the input `choice`. Creating the new show
  folder and rebuilding the index are not modelled.
- The `rename_files` loop, which only deletes and renames on disk; one step
  of it is `RenameFilesStep`.
- Logging, the CLI, settings loading, and the `src/` and `scripts/` trees.
- Exceptions in `_get_files_to_extract` are caught and logged. The model has
  no listing that raises.
- `CleanMovieName`: for a name containing `" ("` the contract states only
  the character classes of the result (lower case, no `.`, space or `'`),
  not where each `" ("` pair collapses to a single `_`.
- `NormalizeMatchOrSame`: with a match it states only that the result is
  canonical; the season and episode values are stated by
  `NormalizeCompactInput` and `NormalizeSpacedInput`.
- `MovieDestinationIn`: a library path ending in `/`, a file name holding
  `/` or an empty movie folder is stated only through the final
  `/` + file name, not in closed form.
- `Moving.MoviePlanMoves`: the intended menu returns one of the names, so a
  pick outside the libraries is excluded by its requires, and
  `IntendedMoviePlan` treats one as no move.

### Where the code differs from its tests and documentation

The model follows the code. It differs from the tests and documentation in
these places:

- `match_for_tv` has no `1x02` form.
- Its word form needs exactly two digits.
- `normalize_tv_format` returns a match text with boundary characters, such
  as `.S01E02.`, unchanged: its compact alternative is anchored.
- `_sanitize_season_episode` keeps case.
- `_sanitize_show_name` is not idempotent: `a - - b` becomes `a_-_b`, then
  `a_b`.
- A name with bracketed flags, such as `show_name_s01e01_[4k_hdr].mkv`, is
  never properly formatted (`ProperlyFormattedChars`). So every run
  computes a new name for it.
- A tagged movie, such as `x_(2020)-4K.mkv`, is likewise never properly
  formatted (`TaggedMovieNotProper`). On the next run its lower-cased name
  has neither `2160p` nor `hdr`, so the tag is dropped, and the text before
  the year already ends in `(`. That gives `x_((2020).mkv`, and one more `(`
  on every run after that.
- The current `_build_show_destination` prompts again for every file of a
  show it does not know. It keeps no memory of rejected shows.
- The test of `_choose_library` replaces `ask_multichoice` by a mock that
  accepts the prompt as a second argument. The real `ask_multichoice` takes
  one argument, so the code raises where the test picks a library (see
  "Findings").

## Findings

| source | as written | input that shows it | evidently intended | confidence | as-written member | corrected member |
|---|---|---|---|---|---|---|
| filetools/moving_files.py:212 | `_choose_library` calls `ask_multichoice(library_names, prompt)`, but `ask_multichoice` (filetools/questions.py:47) takes only the list of choices. The call raises `TypeError`, nothing up to `move_movie_files` catches it, and no movie moves | two movie libraries and one movie file | ask which library, then move each movie there | high; not executed | `Moving.ChooseLibrary` (with `Moving.ChooseLibraryTypeError`, `Moving.TwoLibrariesRaise`) | `Moving.PickLibrary` (with `Moving.MoviePlanMoves`) |
