# Shodan Scout: the result pipeline of `search_shodan`

Shodan Scout is a command-line tool. It sends a search query to the Shodan
host-intelligence API, narrows and reorders the matches on the client side,
and prints one block of text per matching host. This project models that
client-side pipeline, `search_shodan` in `Shodan_Scout.py` lines 22-54, and
proves properties of it. The pipeline has four stages, applied in order:

1. **IP range** (lines 26-30). `ip_range` is split on `-` and every piece is
   converted with `int()`. A match is kept when the first `.`-component of
   its `ip_str`, read with `int()`, lies between the first two bounds.
   Only the first octet is compared, never the whole address.
2. **Since** (lines 33-35). `since` is read with `strptime("%Y-%m-%d")`.
   A match is kept when its `last_update`, read with
   `strptime("%Y-%m-%dT%H:%M:%S.%fZ")`, is at or after that date.
3. **Sort** (lines 38-39). `sorted(..., key=lambda r: r[sort], reverse=True)`:
   a stable sort in descending key order.
4. **Render** (lines 41-54). For each result, in order:
   - a header line `ip (org):`;
   - OS, SSL and Banner lines, each showing `Unknown` for what the host
     lookup lacks;
   - when `exploit` is set and the exploit lookup returns entries, a
     `Vulnerabilities:` line and then one `title (cve)` line per entry.

Every stage can raise in Python. The exceptions below are modelled:

- `int()` rejects a piece. A bound like the help text's `192.168.1.0-192.168.1.255` does this.
- A bound without `-` leaves the upper half missing. The chained comparison `lo <= x <= hi` reads the upper half only when `lo <= x`, so only those matches raise `IndexError`.
- A record lacks `ip_str`, `last_update` or the sort field.
- A timestamp does not parse.
- The sort keys are of mixed types, or include `None`.
- The host lookup's answer lacks `org`.
- `data` is not a dictionary.
- An exploit entry lacks `title` or `cve`.

An exception ends the run. Lines printed before it stay printed, so the
model's output is the printed lines together with the exception, if any.

The modules follow the program's structure:

- `Wrappers`: `Option` and `Result`.
- `Decimal`: Python's `int()` on text and `str()` on integers.
- `Values`: field values, Python's `<` on them, the exceptions, and Python truthiness of an optional argument (`Given`: `None` and `""` both count as absent).
- `Seqs`: `list(filter(...))` with a test that never raises and with one that may raise.
- `Timestamps`: the two `strptime` formats, `strftime`, and datetime comparison.
- `IpRange`: the IP stage.
- `SinceFilter`: the since stage.
- `SortStage`: the sort stage.
- `Render`: the printing loop. It has functions that say what gets printed, and methods `PrintExploits`, `PrintBlock` and `PrintResults` that run the loops of lines 41-54 and are proved to print exactly that.
- `Pipeline`: the whole of `search_shodan`.

The answers of the remote API are inputs to the model:

- the list of matches of the search;
- the host lookup by address, as a map (`api.host`);
- the exploit lookup by address, as a map (`api.exploit`).

An address missing from a map stands for a lookup that raised.

The code has no `try` around `api.host` and `api.exploit` (lines 42, 50),
so the first lookup that raises ends the run; `Render.RenderAllFirstFailure`
states this.

## Model

| member | source | states |
|---|---|---|
| Decimal.ParseShowInt | Shodan_Scout.py:27 | `int()` reads back every integer `str()` writes: `ParseInt(ShowInt(i)) == Some(i)` |
| Decimal.ParseIntRejectsDot | Shodan_Scout.py:27 | a `.` anywhere in the text makes `int()` raise |
| Decimal.TrimStart | Shodan_Scout.py:27 | `int()` skips a maximal run of leading whitespace: the result is a suffix of the input, everything dropped is whitespace, and the result does not start with whitespace |
| Decimal.TrimEnd | Shodan_Scout.py:27 | the same for trailing whitespace |
| Values.KeyLessAgrees | Shodan_Scout.py:39 | where Python's `<` is defined on two keys (two ints or two strings), the total order the model sorts by gives the same answer |
| Values.KeyLessTransitive | Shodan_Scout.py:39 | that order is transitive |
| Values.KeyLessTotal | Shodan_Scout.py:39 | any two distinct keys are ordered one way or the other |
| Values.KeyLessIrreflexive | Shodan_Scout.py:39 | no key is below itself |
| Values.KeyLessAsymmetric | Shodan_Scout.py:39 | no two keys are each below the other |
| Values.StrLessTransitive | Shodan_Scout.py:39 | Python's string `<` is transitive |
| Values.StrLessTotal | Shodan_Scout.py:39 | Python's string `<` orders any two distinct strings |
| Values.StrLessIrreflexive | Shodan_Scout.py:39 | no string is below itself |
| Seqs.TryMap | Shodan_Scout.py:27 | converting every piece with a conversion that may raise succeeds exactly when each piece converts, and then gives one value per piece in order; a failure is the exception of the first piece that fails to convert, every earlier piece converting |
| Seqs.TryFilter | Shodan_Scout.py:28 | `list(filter(test, s))` with a test that may raise succeeds exactly when the test succeeds on every element, and then equals the filter by the test's verdicts |
| Seqs.TryFilterFirstError | Shodan_Scout.py:28 | when it fails, the error is the one from the first element the test raises on |
| Seqs.TryFilterKeepsAll | Shodan_Scout.py:28 | when the test accepts every element, the filter returns the whole list |
| Seqs.FilterMembership | Shodan_Scout.py:28 | an element is kept exactly when it occurs in the input and satisfies the predicate |
| Seqs.FilterIsSubsequence | Shodan_Scout.py:28 | the kept elements are in their input order |
| Seqs.FilterMultiset | Shodan_Scout.py:28 | filtering adds nothing and duplicates nothing |
| Seqs.FilterIdempotent | Shodan_Scout.py:35 | filtering twice by the same predicate is filtering once |
| Seqs.FilterFilter | Shodan_Scout.py:28-35 | filtering by p and then by q is filtering by "p and q" |
| Seqs.FilterAppend | Shodan_Scout.py:28 | filtering distributes over concatenation |
| Seqs.SubsequenceTransitive | Shodan_Scout.py:28-35 | two filters in a row keep the input order |
| Timestamps.ParseDate | Shodan_Scout.py:34 | a date that `strptime("%Y-%m-%d")` accepts is a valid datetime at midnight |
| Timestamps.ParseStamp | Shodan_Scout.py:35 | a timestamp that `strptime("%Y-%m-%dT%H:%M:%S.%fZ")` accepts, with the literals `T` and `Z` in either case, is a valid datetime |
| Timestamps.ParseFormatDate | Shodan_Scout.py:34 | reading a formatted date gives the date back |
| Timestamps.ParseFormatStamp | Shodan_Scout.py:35 | reading a formatted timestamp gives it back, microseconds included |
| Timestamps.NotAfterTransitive | Shodan_Scout.py:35 | datetime `<=` is transitive |
| Timestamps.NotAfterTotal | Shodan_Scout.py:35 | datetime `<=` is total |
| Timestamps.NotAfterAntisymmetric | Shodan_Scout.py:35 | datetime `<=` is antisymmetric |
| IpRange.Split | Shodan_Scout.py:27 | `str.split` gives at least one piece, and no piece contains the separator |
| IpRange.SplitJoin | Shodan_Scout.py:27 | splitting undoes joining pieces that do not contain the separator |
| IpRange.JoinSplit | Shodan_Scout.py:27 | joining undoes splitting |
| IpRange.ParseAll | Shodan_Scout.py:27 | `tuple(map(int, pieces))` succeeds exactly when every piece is an integer, with one value per piece in order; otherwise it raises the `ValueError` of the first piece `int()` rejects |
| IpRange.IpStage | Shodan_Scout.py:26-30 | an absent or empty bound leaves the matches unchanged; an unreadable bound raises the `ValueError` of the parse; a success keeps a subsequence of the matches |
| IpRange.IpFilterSoundComplete | Shodan_Scout.py:26-28 | with bounds lo and hi, the stage succeeds exactly when every match has an integer first component, and then keeps exactly the matches whose first component lies in [lo, hi] |
| IpRange.LowerBoundOnly | Shodan_Scout.py:27-28 | with a single bound lo, the stage succeeds exactly when every first component is below lo, and then keeps nothing |
| IpRange.DottedBoundFails | Shodan_Scout.py:27 | any bound containing a `.` raises `ValueError` before any match is read |
| IpRange.HelpExampleFails | Shodan_Scout.py:27 | the help text's example `192.168.1.0-192.168.1.255` is such a bound |
| IpRange.FirstComponentOnly | Shodan_Scout.py:28 | only the text before the first dot counts: an address `str(n) + "." + rest` has first component n, whatever `rest` is |
| SinceFilter.SinceBound | Shodan_Scout.py:34 | a readable date is a valid midnight datetime; an unreadable one raises `ValueError` naming the text |
| SinceFilter.SinceStage | Shodan_Scout.py:33-35 | an absent or empty since leaves the results unchanged; an unreadable date raises `ValueError`; a success keeps a subsequence |
| SinceFilter.SinceSoundComplete | Shodan_Scout.py:33-35 | the stage succeeds exactly when every result has a readable `last_update`, and then keeps exactly the results stamped at or after the bound |
| SinceFilter.SinceIdempotent | Shodan_Scout.py:33-35 | filtering the output again with the same since changes nothing |
| SinceFilter.SinceLaterBound | Shodan_Scout.py:35 | filtering with a later bound after an earlier one is the same as filtering with the later bound alone |
| SortStage.Insert | Shodan_Scout.py:39 | inserting a record adds exactly that record |
| SortStage.SortDescending | Shodan_Scout.py:39 | the sort is a permutation of its input |
| SortStage.SortDescendingOrders | Shodan_Scout.py:39 | the sort puts the keys in descending order |
| SortStage.SortDescendingStable | Shodan_Scout.py:39 | records with equal keys keep their input order |
| SortStage.SortDescendingOfDescending | Shodan_Scout.py:39 | input already in descending order comes out unchanged |
| SortStage.InsertDescending | Shodan_Scout.py:39 | inserting into a descending list keeps it descending |
| SortStage.SortThree | Shodan_Scout.py:39 | three records x, y, w, where y's key is not below w's and x's key is below w's, come out as y, w, x |
| SortStage.SortStage | Shodan_Scout.py:38-39 | an absent or empty sort field leaves the results unchanged; a given field succeeds exactly when every record has it and the keys are comparable; a missing field raises `KeyError`; keys present but not comparable raise `TypeError`; a success is a permutation |
| SortStage.SortStageOrdersStably | Shodan_Scout.py:38-39 | after a successful sort, no adjacent pair has `a[sort] < b[sort]` under Python's `<`, equal keys keep their order, and nothing is lost or added |
| SortStage.SortStageIdempotent | Shodan_Scout.py:38-39 | sorting the sorted results again gives them back unchanged |
| SortStage.SortByOrgExample | Shodan_Scout.py:38-39 | records with org `Acme`, `Zeta`, `Mono`, sorted by `org`, come out in the order `Zeta`, `Mono`, `Acme` |
| Render.ExploitLinesContents | Shodan_Scout.py:53-54 | the exploit lines print in full exactly when every entry has `title` and `cve`, and then there is one `\t\ttitle (cve)` line per entry, in list order |
| Render.ExploitLinesStops | Shodan_Scout.py:53-54 | an entry that raises ends the exploit lines |
| Render.BlockContents | Shodan_Scout.py:42-54 | a result's block prints without an exception exactly when the result has `ip_str`, the host lookup succeeds and has `org`, `data` is absent or a dictionary, and (with exploit on) the exploit lookup succeeds with complete entries. The block then holds the header, `OS`, `SSL` and `Banner` lines with `Unknown` defaults, and the vulnerabilities section exactly when exploits were found |
| Render.VulnerabilitiesIff | Shodan_Scout.py:49-52 | a `Vulnerabilities:` line appears in a block exactly when exploit is on and the lookup found at least one exploit |
| Render.RenderAllBlocks | Shodan_Scout.py:41-54 | the run prints without an exception exactly when every result's block does, and then prints the blocks one after another in result order |
| Render.RenderAllFirstFailure | Shodan_Scout.py:41-54 | the first block that raises ends the run: the earlier blocks are printed in full, then this block up to the exception, then nothing |
| Render.RenderAllStops | Shodan_Scout.py:41 | once a block has raised, later results add nothing |
| Render.PrintExploits | Shodan_Scout.py:53-54 | the inner loop, where `exploit` is rebound to each entry, prints exactly the exploit lines; after a full run the name is still truthy |
| Render.PrintBlock | Shodan_Scout.py:42-54 | one iteration of the outer loop prints exactly that result's block, and leaves the truthiness of `exploit` as it was |
| Render.PrintResults | Shodan_Scout.py:41-54 | the outer loop prints exactly the lines and the exception of the rendering; the shadowing of `exploit` by the inner loop does not change any later block |
| Pipeline.SearchShodan | Shodan_Scout.py:22-54 | a failure in a filter or sort stage prints nothing and reports that exception; otherwise the output is the rendering of the stage results |
| Pipeline.NoOptionsNoChange | Shodan_Scout.py:26-39 | with no ip_range, since or sort, the results are the matches as the search returned them |
| Pipeline.StagesAreFilters | Shodan_Scout.py:26-35 | when the stages succeed, each filter stage keeps exactly the elements its test accepts, and the given bounds were readable |
| Pipeline.ResultsMembership | Shodan_Scout.py:26-39 | a match is among the results exactly when it passes both filter stages |
| Pipeline.ResultsSoundComplete | Shodan_Scout.py:25-39 | the results are exactly the matches that pass every given filter. Nothing is duplicated. They keep the search order when no sort is given, and are in descending key order when one is |
| Pipeline.ResultsIdempotent | Shodan_Scout.py:25-39 | running filter and sort again on their own output gives the same output |
| Pipeline.BoundsOfRange | Shodan_Scout.py:27 | a bound written `lo-hi` in decimal reads as the pair (lo, hi) |
| Pipeline.KeptByTenToFifteen | Shodan_Scout.py:28 | with bounds (10, 15), an address whose first component is n is kept exactly when 10 <= n <= 15 |
| Pipeline.IpRangeExample | Shodan_Scout.py:26-28 | with bound `10-15`, of the matches `10.1.1.1`, `20.2.2.2` and `15.3.3.3`, exactly the first and the last remain, in order |

## Left out

- `load_api_key` and `save_api_key` (lines 6-20) read and write a JSON file. File I/O is not modelled.
- The remote API calls are not modelled: `api.search`, `api.host` and `api.exploit` (lines 23, 28, 30, 42, 50). Their answers are inputs; a lookup that raises is an address missing from the input map.
- The server-side filters (`country`, `port`, `os`, `ssl`, `banner`) and `limit`, which lines 28 and 30 pass as `per_page`, are not modelled. They only shape the remote search request. `num_results` is never used.
- The code refers to several names it never defines: `api_key` (line 23), `filters` (lines 28, 30), `since` (line 33) and `datetime` (lines 34-35). As written, Python would raise `NameError` on them. The model follows the evident intent: `since` is an optional argument, and `datetime` is the standard class.
- Saving results as JSON or CSV (lines 56-62) is file output and is not modelled. So is verbose mode, which the code never acts on.
- `print_logo` and `main` (lines 64-106) are not modelled. This covers the argument parsing and the short flag `-s`, which `--sort`, `--since` and `--save` all claim.
- Timestamps.ParseDate and Timestamps.ParseStamp accept only fixed-width fields of ASCII digits. Python's `strptime` also accepts one-digit months, days, hours, minutes and seconds, a day padded with a space (`" 5"`), and non-ASCII decimal digits, which its `\d` pattern matches.
- Decimal.ParseInt does not model non-ASCII digits or non-ASCII whitespace, which Python's `int()` also accepts. It handles the ASCII whitespace `int()` skips (space, tab, line feed, vertical tab, form feed, carriage return and U+001C to U+001F), an optional sign, and digits with single underscores.
- Decimal.TrimStart and Decimal.TrimEnd likewise skip only the ASCII whitespace listed above.
- Decimal.ParseInt does not model the 4300-digit limit of `int()` and `str()` on Python 3.11 and later, above which they raise `ValueError`. The model reads and writes integers of any length.
- SortStage.SortStage treats float, list and other non-int, non-string keys as not comparable. Python can compare a float with an int.
- Values.Show prints `str()` of ints and strings exactly. Any other value (dicts, lists, floats, booleans) is an opaque value that carries its own printed form.
- Render.PrintResults collects the printed lines in a sequence instead of writing them to standard output.
- SinceFilter.SinceStage takes `since` to be a date string, as line 34 reads it. `main` (line 103) never passes `since` to `search_shodan`; the `type=` conversion of `--since` (line 91) never reaches the function.
- Render.Block takes the answer of the exploit lookup to be a list of exploit entries. An answer of another shape, such as a dictionary, whose iteration would yield keys, is not modelled.
- The host and exploit lookups are maps keyed by address, so two lookups of the same address always get the same answer. A remote service whose answer changes between calls is not modelled.
