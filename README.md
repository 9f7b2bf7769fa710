# package_statistics in Dafny

`package_statistics` downloads the Debian `Contents-<arch>.gz` index for one
architecture and counts, for each package, the files the index lists for it.
It then prints the packages with the most files. The repository holds two
copies of this logic:

- the package module `package_statistics/package_statistics.py`;
- an older top-level script `package_statistics.py`.

They differ in how they treat bad lines.

This project models both copies:

- **Counting.** `parse_contents_file` folds the decompressed lines into a
  `defaultdict(int)` leaderboard. The leaderboard is updated in place, so it
  is a class, `Leaderboards.Leaderboard`. A Python dict remembers the order in
  which keys were first inserted, and that order later decides ties, so the
  class keeps `counts: map<string, int>` together with `order: seq<string>`.
  The imperative parse methods are proved against recursive specification
  functions (`ContentsParse.ParseContents`,
  `RootContentsParse.ParseContentsRoot`). The properties of the result are
  proved about those functions.
- **Ranking.** `Counter(leaderboard).most_common(n)` is a stable sort by
  count, largest first, cut to `n` entries. It is empty when `n <= 0`.
  `Ranking.SortByCount` is a stable insertion sort. It is proved stable, and
  proved to be the only sort by count that keeps the order of equal counts.
- **Formatting.** `display_leaderboard` prints one line per ranked entry,
  `ljust(str(i) + ".", 5) + ljust(name, 50) + str(count)`. Printing is
  modelled as returning the lines.
- **Fetching.** `fetch_contents_file` builds the mirror URL and turns the
  outcome of the HTTP request into the response or one of three exceptions.
  The outcome is an abstract parameter.

The parse differences between the two copies:

| situation | package module | older script |
|---|---|---|
| a line with fewer than two whitespace tokens | skipped | a single token is counted; an empty or blank line raises `IndexError` |
| a line that is not valid UTF-8 | processed again with the tokens of the previous line; raises `UnboundLocalError` when it is the first line | raises `UnicodeDecodeError` |

In both copies, a Python exception is modelled as the `Failure` case of a
`Result`.

Files:

- `base.dfy`: `Option`, `Result` and distinctness.
- `text.dfy`: `str.split()`, `str.strip()`, `str.split(',')`, `str(int)` and
  `str.ljust`. The whitespace class is exactly the set of code points
  `str.isspace` accepts.
- `leaderboards.dfy`: the leaderboard as a value and as a class.
- `package_parse.dfy`: the package module's `parse_contents_file`.
- `root_parse.dfy`: the script's `parse_contents_file`.
- `ranking.dfy`: `most_common`, and the script's dict round trip.
- `report.dfy`: `display_leaderboard` of both copies.
- `fetch.dfy`: `fetch_contents_file` of both copies.

Behaviour worth knowing:

- In the package module, a line that cannot be decoded is not skipped,
  although the docstring (package_statistics/package_statistics.py:114) and
  the warning "Skipping line due to decode error"
  (package_statistics/package_statistics.py:132-133) say it is. See
  Findings.
- Packages with equal counts are listed in leaderboard insertion order,
  that is, in the order of their first occurrence in the Contents file.
- A `--top-n` below 1 shows nothing, as the comment at
  package_statistics/package_statistics.py:181-183 says.
- An empty comma piece, as in `pkg1,`, is counted as a package named `""`.
- In the older script, one undecodable or blank line raises and ends the
  whole run.

## Model

| member | source | states |
|---|---|---|
| Text.Tokens | package_statistics/package_statistics.py:130 | `s.split()`: the maximal runs of non-whitespace characters, left to right; every token is non-empty and has no whitespace |
| Text.Strip | package_statistics/package_statistics.py:130 | `s.strip()`: `s` without its leading and trailing whitespace |
| Text.TokensEmptyIffAllSpace | package_statistics/package_statistics.py:146 | `line.split()` is empty exactly when the line is empty or all whitespace |
| Text.TokensOfStrip | package_statistics/package_statistics.py:130 | calling `strip()` before `split()` does not change the tokens |
| Text.TokensAppend | package_statistics/package_statistics.py:130 | splitting two texts joined at whitespace is splitting each and concatenating the results |
| Text.SplitComma | package_statistics/package_statistics.py:149 | `s.split(',')` has at least one piece and no piece contains a comma |
| Text.SplitCommaCount | package_statistics/package_statistics.py:149 | `s.split(',')` has one more piece than `s` has commas |
| Text.JoinSplitComma | package_statistics/package_statistics.py:149 | joining the comma pieces with commas gives back the token; empty pieces are kept |
| Text.SplitJoinComma | package_statistics/package_statistics.py:149 | splitting a comma-join of comma-free pieces gives back the pieces |
| Text.IntToString | package_statistics/package_statistics.py:171 | `str(count)`: a minus sign for a negative count, then the decimal digits; never empty and without whitespace |
| Text.NatToString | package_statistics/package_statistics.py:171 | `str(n)` is a non-empty string of digits that starts with `0` only for `0` |
| Text.DecimalOfNatToString | package_statistics/package_statistics.py:171 | reading `str(n)` back as a decimal gives `n` |
| Text.NatToStringOfDecimal | package_statistics/package_statistics.py:171 | every canonical digit string is `str` of its value |
| Text.NatToStringWidth | package_statistics/package_statistics.py:171 | `str(n)` has at most k digits exactly when n < 10^k |
| Text.LJust | package_statistics/package_statistics.py:171 | `ljust(w)` keeps the string as a prefix, pads with spaces up to w and never truncates |
| Leaderboards.BumpEffect | package_statistics/package_statistics.py:156 | `d[k] += 1` on a defaultdict creates `k` at 0 if missing, adds one, changes no other key, and keeps the dict well formed and positive |
| Leaderboards.PutEffect | package_statistics.py:98 | `d[k] = v` stores `v`, changes no other key, keeps insertion order as a prefix, and adds a new key at the end |
| Leaderboards.AddAllAppend | package_statistics/package_statistics.py:150-156 | incrementing for two name lists in turn equals incrementing for their concatenation |
| Leaderboards.AddAllCounts | package_statistics/package_statistics.py:150-156 | each name gains one per occurrence; keys are the old keys plus the names; well-formedness and positivity are preserved |
| Leaderboards.TallyCounts | package_statistics/package_statistics.py:122-157 | a leaderboard built from nothing has exactly the counted names as keys, each with its number of occurrences, so every count is at least 1 |
| Leaderboards.TallyAppend | package_statistics/package_statistics.py:150-156 | counting more names adds each name's occurrences to its count, adds exactly the new names as keys, and raises the total by the number of names |
| Leaderboards.TallyOrder | package_statistics/package_statistics.py:150-156 | the dict's insertion order is the order of first occurrence |
| Leaderboards.TotalAddAll | package_statistics/package_statistics.py:150-156 | the counts sum to the previous total plus the number of increments |
| Leaderboards.Leaderboard.constructor | package_statistics/package_statistics.py:122 | `defaultdict(int)` starts empty and valid |
| Leaderboards.Leaderboard.Increment | package_statistics/package_statistics.py:156 | `leaderboard[package] += 1` in place, keeping the invariant |
| Leaderboards.Leaderboard.IncrementAll | package_statistics/package_statistics.py:150-156 | the inner loop over a line's packages, in place, equals the fold of increments |
| ContentsParse.Step | package_statistics/package_statistics.py:126-156 | one iteration: `split_line` is the tokens of a decoded line or the previous value for an undecodable one; unbound raises `UnboundLocalError`, fewer than two tokens adds nothing, otherwise the comma pieces of the last token are added |
| ContentsParse.ScanLines | package_statistics/package_statistics.py:124-156 | the loop over all lines: the pieces counted so far and `split_line`, or the exception |
| ContentsParse.ParseContents | package_statistics/package_statistics.py:122-157 | the returned leaderboard is the count of all pieces, or the exception the loop raised |
| ContentsParse.ScanSnoc | package_statistics/package_statistics.py:124-156 | the loop over one more line is one more iteration, unless it already raised |
| ContentsParse.ScanFailurePersists | package_statistics/package_statistics.py:129-133 | once the loop raised, later lines change nothing |
| ContentsParse.ParseContentsFile | package_statistics/package_statistics.py:122-157 | the in-place loop carrying `split_line` returns the leaderboard of the specification, or raises where it raises |
| ContentsParse.ScanBinding | package_statistics/package_statistics.py:129-133 | `split_line` is unbound exactly while no line was seen, and the loop fails exactly when the first line is undecodable |
| ContentsParse.ParseFailsIffFirstUndecodable | package_statistics/package_statistics.py:129-133 | the parse raises `UnboundLocalError` if and only if the first line is undecodable |
| ContentsParse.UndecodableRepeatsPrevious | package_statistics/package_statistics.py:129-156 | an undecodable line after a decoded one counts exactly as a second copy of that decoded line |
| ContentsParse.UndecodableRunRepeats | package_statistics/package_statistics.py:129-156 | after a decoded line and any number of undecodable ones, one more undecodable line counts exactly as one more copy of the decoded line |
| ContentsParse.RunKeepsSplitLine | package_statistics/package_statistics.py:129-133 | through a run of undecodable lines `split_line` keeps the tokens of the last decoded line |
| ContentsParse.MalformedLineSkipped | package_statistics/package_statistics.py:146-148 | a line with fewer than two tokens, a blank line included, leaves the result unchanged |
| ContentsParse.NoAcceptedLines | package_statistics/package_statistics.py:146-148 | an empty stream, or a stream of single-token lines, gives an empty leaderboard |
| ContentsParse.AcceptedLinePieces | package_statistics/package_statistics.py:146-156 | a decoded line with at least two tokens contributes the comma pieces of its last token, after everything earlier |
| ContentsParse.AcceptedLineCounts | package_statistics/package_statistics.py:149-156 | an accepted line adds one per occurrence of each comma piece of its last token, empty pieces and repeats included, leaves other keys alone, and raises the total by commas + 1 |
| ContentsParse.ParseCounts | package_statistics/package_statistics.py:122-157 | keys are exactly the contributed pieces, each count is the number of contributions, and every count is at least 1 |
| ContentsParse.FirstLineUndecodableRaises | package_statistics/package_statistics.py:129-133 | as written, one undecodable line raises; with the line skipped, the result is empty |
| ContentsParse.SkippingIgnoresUndecodable | package_statistics/package_statistics.py:131-133 | with the decode error skipped, the result equals that of the decodable lines alone |
| ContentsParse.DecodedStepAgrees | package_statistics/package_statistics.py:129-156 | on a decoded line, one iteration of the code as written and of the skipping parse contribute the same pieces |
| ContentsParse.SkippingAgreesOnDecodableInput | package_statistics/package_statistics.py:129-156 | when every line decodes, the code as written and the skipping parse build the same leaderboard |
| RootContentsParse.LinePackages | package_statistics.py:90 | `line.decode('utf-8').split()[-1].split(',')`: `UnicodeDecodeError` for an undecodable line, `IndexError` for a line without tokens, otherwise the comma pieces of the last token |
| RootContentsParse.ParseContentsRoot | package_statistics.py:83-93 | the returned leaderboard is the count of the pieces of every line, or the exception of the first line that raises |
| RootContentsParse.RootPiecesSnoc | package_statistics.py:85-92 | the loop over one more line is one more iteration, unless it already raised |
| RootContentsParse.RootFailurePersists | package_statistics.py:85-90 | once the loop raised, later lines change nothing |
| RootContentsParse.RootFailsAt | package_statistics.py:85-90 | the first line that raises ends the parse with its exception |
| RootContentsParse.RootStepAt | package_statistics.py:85-92 | a line that does not raise appends its package names to the pieces counted so far |
| RootContentsParse.ParseContentsFileRoot | package_statistics.py:83-93 | the in-place loop returns the leaderboard of the specification, or raises the exception it raises |
| RootContentsParse.RootFailsIffBadLine | package_statistics.py:90 | the parse raises exactly when some line is undecodable, empty or blank, and raises the exception of the first such line |
| RootContentsParse.RootLineCounts | package_statistics.py:90-92 | a decoded line with a token adds one per occurrence of each comma piece of its last token, single-token lines included, changes no other key, and raises the total by commas + 1 |
| RootContentsParse.RootAcceptedLine | package_statistics.py:85-92 | a decoded line with at least one token appends the comma pieces of its last token |
| RootContentsParse.RootParseCounts | package_statistics.py:83-93 | keys are exactly the contributed pieces, counts are their numbers of occurrences, and every count is at least 1 |
| RootContentsParse.VersionsAgreeOnWellFormedInput | package_statistics.py:90-92 | on input where every line decodes and has at least two tokens, both copies build the same leaderboard |
| RootContentsParse.SingleTokenLineDiffers | package_statistics.py:90-92 | a single-token line gives an empty leaderboard in the package module and a non-empty one in the script |
| Ranking.Items | package_statistics/package_statistics.py:165 | the leaderboard's `(key, count)` pairs in insertion order |
| Ranking.MostCommon | package_statistics/package_statistics.py:165 | `most_common(n)`: the items sorted by count, largest first, cut to `n` entries, empty when `n` is below 1 |
| Ranking.Insert | package_statistics/package_statistics.py:165 | insertion adds exactly the one entry (multiset) |
| Ranking.InsertSorted | package_statistics/package_statistics.py:165 | insertion keeps a sequence sorted by count |
| Ranking.SortByCount | package_statistics/package_statistics.py:165 | the sort returns a permutation of its input, sorted by count, largest first |
| Ranking.SortStable | package_statistics/package_statistics.py:165 | for every count, entries with that count keep their input order |
| Ranking.StableSortUnique | package_statistics/package_statistics.py:165 | any arrangement that is sorted by count and keeps the order of equal counts is the sort's result |
| Ranking.MostCommonLength | package_statistics/package_statistics.py:165 | `most_common(n)` has min(max(n, 0), number of keys) entries |
| Ranking.MostCommonOrdered | package_statistics/package_statistics.py:165 | the counts of `most_common(n)` never increase |
| Ranking.MostCommonEntries | package_statistics/package_statistics.py:165-166 | each entry is a key with its own count, and no name is repeated |
| Ranking.MostCommonSelectsLargest | package_statistics/package_statistics.py:165 | a key left out has a count no larger than any selected count |
| Ranking.MostCommonTies | package_statistics/package_statistics.py:165 | for each count, the selected entries are the first ones of that count in insertion order |
| Ranking.FromPairsContents | package_statistics.py:98 | `dict(pairs)` with distinct names holds each pair, keyed in the pairs' order |
| Ranking.ItemsFromPairs | package_statistics.py:98-100 | `dict(pairs).items()` with distinct names gives back the pairs in their order |
| Ranking.MostCommonRoot | package_statistics.py:98-100 | the items of `dict(most_common(n))`, the script's ranking |
| Ranking.RankingsAgree | package_statistics.py:98-100 | the script's dict round trip returns exactly `most_common(n)` |
| Report.FormatLine | package_statistics/package_statistics.py:171 | `f'{str(index + 1) + '.':<5}{package:<50}{num_assoc_files}'` as the rank label left-justified to 5, the name left-justified to 50, then the count |
| Report.Printed | package_statistics/package_statistics.py:166-171 | the text the print loop writes: each line followed by a newline |
| Report.FormatLineLayout | package_statistics/package_statistics.py:171 | the line is the rank label padded with spaces to 5, the name padded with spaces to 50, then the count; its length is max(len(rank)+1, 5) + max(len(name), 50) + len(str(count)) |
| Report.Render | package_statistics/package_statistics.py:166-171 | the print loop emits line i as the format of the i-th entry with rank i + 1 |
| Report.DisplayLeaderboard | package_statistics/package_statistics.py:160-171 | one formatted line per entry of `most_common(top_n)`, min(max(top_n, 0), number of keys) lines |
| Report.DisplayLeaderboardRoot | package_statistics.py:96-101 | the script prints the same lines as the package module |
| Report.PrintedTokens | package_statistics/package_statistics.py:171 | splitting the printed text on whitespace splits each line in turn |
| Report.FormatLineTokens | package_statistics/package_statistics.py:171 | a line with rank below 1000 and a name under 50 characters without whitespace splits into rank label, name and count; an empty name gives no token, so the line splits into rank label and count |
| Report.EmptyNameLine | package_statistics/package_statistics.py:171 | the empty package name prints as `1.` and the count with only blanks between |
| Report.LongNameRunsIntoCount | package_statistics/package_statistics.py:171 | a name of 50 or more characters gets no padding and runs into the count |
| Report.DisplayedColumns | package_statistics/package_statistics.py:166-171 | for names under 50 characters without whitespace, the empty name included, and fewer than 1000 entries, the printed output splits into rank, name, count per entry, with no name token for the empty name |
| Report.TwoPackageExample | tests/test_package_statistics.py:119-128 | {small_pkg: 5, big_pkg: 20} shown with top 5 splits into `1. big_pkg 20 2. small_pkg 5` |
| Fetch.ContentsUrl | package_statistics/package_statistics.py:64-65 | the mirror prefix, the architecture and `.gz` |
| Fetch.ArchitectureOfContentsUrl | package_statistics/package_statistics.py:64-65 | the architecture can be read back from the URL built for it |
| Fetch.ContentsUrlOfArchitecture | package_statistics/package_statistics.py:64-65 | every URL an architecture is read from is the prefix + that architecture + `.gz` |
| Fetch.ContentsUrlInjective | package_statistics/package_statistics.py:64-65 | distinct architectures have distinct URLs |
| Fetch.ValidArchitectureUrlsDistinct | package_statistics/package_statistics.py:37-40 | the eleven accepted architectures have eleven distinct URLs |
| Fetch.FetchContentsFile | package_statistics/package_statistics.py:54-91 | the response of the request for the Contents URL, or FileNotFoundError for 404, SystemError for other HTTP errors and ConnectionError for other request failures, each message naming the URL |
| Fetch.FetchContentsFileRoot | package_statistics.py:49-78 | the same classification of the request for the same URL, with messages that do not name it |
| Fetch.FetchClassifies | package_statistics/package_statistics.py:66-91 | success returns the response unchanged; 404 is FileNotFoundError; other HTTP errors are SystemError; other request failures are ConnectionError |
| Fetch.FetchMessagesNameUrl | package_statistics/package_statistics.py:74-91 | every exception message of the package module ends with the URL it tried |
| Fetch.FetchRootClassifies | package_statistics.py:49-78 | the script requests the same URL and classifies every outcome the same way |
| Fetch.FetchRequestsContentsUrl | package_statistics/package_statistics.py:64-69 | the package module requests the Contents URL of the architecture and nothing else; so does the older script (package_statistics.py:51-56) |
| Fetch.FetchVersionsAgree | package_statistics.py:49-78 | given the same answer to the same URL, both copies return the same response or raise the same kind of exception |

## Left out

- Gzip decompression (RFC 1952), `io.BufferedReader` line splitting and corrupt-stream failures are library code. The model takes the decompressed stream as a given sequence of lines.
- UTF-8 decoding is library code. Each line is given either as its decoded text or as undecodable.
- `requests.get`, its 30-second timeout and `raise_for_status` are network I/O. They are a parameter that maps the requested URL to the outcome; which URL is requested, and how the outcome is classified, is modelled. Which statuses `raise_for_status` turns into an HTTPError (4xx and 5xx) is the library's business, so any status is accepted.
- The `click` command line, and the choice of architecture it validates, are argument parsing. The list of valid architectures appears only to show that their URLs are distinct.
- `setup_logging` and every logger call write diagnostics only, so they are left out. This includes the older script's `logger`, which exists only when the script runs as `__main__`.
- `print` is output. The printed lines are returned as a sequence, and a newline is added per line where the split of the printed text is stated.
- `response.content` buffering in the older script is I/O.
- Fetch.FetchMessagesNameUrl: the messages are modelled exactly, but the only property stated about them is their suffix, the URL.
- Report.FormatLineTokens: the column split is proved only for ranks below 1000 and names under 50 characters without whitespace (the empty name included, which gives no name token). Beyond those bounds, padding no longer separates the columns; `Report.LongNameRunsIntoCount` shows the name case.

## Findings

| source | as written | input that shows it | evidently intended | confidence | as-written member | corrected member |
|---|---|---|---|---|---|---|
| package_statistics/package_statistics.py:129-133 | the decode-error branch logs "Skipping line" and then falls through: the undecodable line is counted again with the previous line's tokens, and as the first line it raises UnboundLocalError | a stream whose first line is not valid UTF-8 raises; `x pkg` followed by an undecodable line counts `pkg` twice | the undecodable line is skipped, with a `continue` after the warning | high, not executed | ContentsParse.FirstLineUndecodableRaises | ContentsParse.SkippingIgnoresUndecodable |

The rest of the model keeps the as-written parse (`ContentsParse.ParseContents`,
`ContentsParse.ParseContentsFile`), because it models what the code does. The
corrected parse is `ContentsParse.ParseContentsSkipping`.
`ContentsParse.SkippingAgreesOnDecodableInput` proves that the two agree on
every input whose lines all decode.
