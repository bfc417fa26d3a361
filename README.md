# Company-page record extraction, modelled in Dafny

The scraper in `companies-Scrapaer.py` visits company pages of a job-listings site. From each page
it builds one or more records: dictionaries from column names to values. All three extraction
steps share one accumulator list, `information_list`, and change it in place:

- `extract_information_overview` (lines 17-78) reads every overview container. It takes the
  company name and rating from the container's header. It then walks the `<li>` lines of the
  details list. Each stripped line goes through a fixed chain of tests:
  1. a colon line is split into key and value on ":";
  2. an " in " line is split on "in";
  3. a "Locations" line stores its first space token as `Branches`;
  4. an "Employees" line stores its first space token as `Size`;
  5. a first line that passed no earlier test is the `URL`.

  After the chain, the last line always sets `Industry` to whatever `detail` then holds. The
  finished record is appended to the list.
- `extract_interviews` (lines 81-127) routes the (label, percentage) pairs of the interview
  statistics. Pairs labelled Positive, Negative or Neutral go to `Experience`. All other pairs go to
  `Interview`. It then merges those two lists and the stripped `Difficulty` into the first record.
- `extract_career` (lines 130-149) does nothing when the popular-careers section is missing.
  Otherwise it sets `Popular Careers` on the first record to the anchor text of each career entry.

The project has four modules:

- `PyStr` (`python_str.dfy`) models the Python string operations the code relies on:
  - `strip` with Python's whitespace set;
  - substring `in`;
  - `split` with an explicit separator, which cuts at every occurrence.

  The scraper never calls `str.find` (every `.find` in it is a BeautifulSoup lookup). `Find` and
  `FindFrom` are only helpers that define `Split`: each cut is at the leftmost remaining occurrence.

  It also proves the properties of these operations that the extraction depends on.
- `Records` (`records.dfy`) defines the data model:
  - the field map and its values;
  - the three Python exceptions the code can raise, as values of `ScrapeError`;
  - the page landmarks, given as plain inputs.

  It also defines the functions that specify each step: `LineEffect` for one detail line,
  `ApplyDetails` for the detail loop, `Overview` for one container, and `Overviews` for the
  container loop, which stops at the first failure.
- `Extractor` (`extractor.dfy`) models the accumulator as the class `InformationList`, whose
  `entries` field the three steps update. Each step and each of its loops is a method, proved
  against the functions of `Records`.
- `Properties` (`properties.dfy`) proves what the extraction promises, for all inputs.

A Python exception becomes an `Outcome.Fail` carrying the matching `ScrapeError`:

- `UnpackError`: the `ValueError` of `key, value = ...split(...)`;
- `MissingElement`: an `AttributeError` on a lookup that found nothing;
- `EmptyAccumulator`: the `IndexError` of `information_list[0]`.

The state after a failure is what Python leaves behind. Records appended before the failure stay
in the list. A failed update of the first record changes nothing.

In three places the code does something other than what one might expect from the field
names and the tests it makes. The model follows the code:

- A colon line is split on every ':', not on the first one. So a line with two colons raises
  `ValueError` (`LineEffectOkIff`).
- When the last line is a Locations or Employees line, `detail` has already been rebound to the
  list of its space tokens. `Industry` therefore becomes that token list, not the raw line
  (`IndustryFromLastLine`).
- `split(" ")` cuts at every single space, so a run of spaces yields empty tokens. The first token
  is stored as is.

## Model

| member | source | states |
|---|---|---|
| PyStr.StripLeftDropsSpace | companies-Scrapaer.py:61 | `lstrip` leaves a suffix of the text that is empty or starts with a non-space; everything it dropped is whitespace |
| PyStr.StripRightDropsSpace | companies-Scrapaer.py:61 | `rstrip` leaves a prefix of the text that is empty or ends with a non-space; everything it dropped is whitespace |
| PyStr.StripTrims | companies-Scrapaer.py:61 | `strip` returns the slice between the leading and the trailing whitespace; the result neither starts nor ends with whitespace |
| PyStr.FindFromLeftmost | companies-Scrapaer.py:63 | the search from a position returns the first occurrence at or after it, or none when there is none |
| PyStr.FindLeftmost | companies-Scrapaer.py:62-66 | the search that `split` uses to place each cut returns the leftmost occurrence, and returns none exactly when the substring is not `in` the text |
| PyStr.Split | companies-Scrapaer.py:69-73 | `split` always yields at least one piece, so `detail[0]` on lines 70 and 73 cannot fail |
| PyStr.SplitJoin | companies-Scrapaer.py:63 | joining the pieces of `s.split(sep)` with `sep` gives back `s` |
| PyStr.SplitPiecesFree | companies-Scrapaer.py:63 | no piece of `s.split(sep)` contains `sep` |
| PyStr.SplitHead | companies-Scrapaer.py:69-70 | the first piece is the text up to the first separator, or the whole text when there is none |
| PyStr.SplitCharCount | companies-Scrapaer.py:63 | splitting on one character yields one piece more than that character occurs |
| PyStr.SplitTwoIff | companies-Scrapaer.py:63-66 | the split is exactly `[k, v]` iff the text is `k + sep + v` and neither `k` nor `v` contains `sep` (both directions) |
| PyStr.TwoPiecesOccursOnce | companies-Scrapaer.py:63-66 | a two-piece split means the separator occurs at exactly one place |
| PyStr.OccursOnceTwoPieces | companies-Scrapaer.py:63-66 | a separator occurring at exactly one place gives a two-piece split |
| PyStr.UnpackIffOccursOnce | companies-Scrapaer.py:63-66 | the two-way unpack succeeds iff the separator occurs exactly once |
| Records.CareerNames | companies-Scrapaer.py:148 | the names exist iff every career entry has an anchor; then there is one name per entry, in order, each that entry's anchor text |
| PyStr.Strip | companies-Scrapaer.py:44-61 | `s.strip()` on the heading, the rating and each detail line; characterised by `PyStr.StripTrims` |
| PyStr.Contains | companies-Scrapaer.py:62-71 | Python's `sub in s`: some index where `sub` occurs; tied to `Find` by `PyStr.FindLeftmost` |
| Records.HeaderFields | companies-Scrapaer.py:33-50 | the name and rating taken from a container's header; characterised by `Properties.HeaderFieldsSpec` |
| Records.RuleOf | companies-Scrapaer.py:62-75 | which branch of the if/elif chain a stripped line takes, the first test that holds deciding |
| Records.LineEffect | companies-Scrapaer.py:62-75 | what one line stores and what `detail` holds afterwards, or its unpack error; characterised by `Properties.LineEffectOkIff`, `Properties.KeyValueLineEntry` and `Properties.CountLineEntry` |
| Records.ApplyDetails | companies-Scrapaer.py:60-77 | the detail loop from a given line on; characterised by `Properties.DetailsOkIff`, `Properties.DetailsFirstError`, `Properties.IndustryFromLastLine` and `Properties.LastWriteWins` |
| Records.ApplyPass | companies-Scrapaer.py:60-77 | one pass of the detail loop followed by the rest of it |
| Records.Overview | companies-Scrapaer.py:33-77 | the record of one container, or its error; `Extractor.ReadContainer` computes it |
| Records.Collect | companies-Scrapaer.py:32-78 | the container loop's control over the per-container results; characterised by `Properties.CollectOutcome`, `Properties.CollectRecordAt` and `Properties.CollectBound` |
| Records.Overviews | companies-Scrapaer.py:32-78 | the container loop; characterised by `Properties.OverviewsSpec` |
| Records.Routed | companies-Scrapaer.py:102-112 | the pairs routed to one of the two lists; characterised by `Properties.RoutePartition`, `Properties.RoutedMembership` and `Properties.RoutedConcat` |
| Records.InterviewFields | companies-Scrapaer.py:121-127 | the three entries merged into record 0, which `Extractor.InformationList.ExtractInterviews` applies |
| Properties.HeaderFieldsSpec | companies-Scrapaer.py:33-50 | the header contributes only `Company Name` and `Company Rating`, each present iff its node is, each the stripped node text |
| Properties.LineEffectOkIff | companies-Scrapaer.py:62-77 | a line fails iff it is a colon line with other than one ':' or an " in " line where "in" does not occur exactly once; the Locations, Employees and URL branches never fail; a failure is that line's `UnpackError` |
| Properties.KeyValueLineEntry | companies-Scrapaer.py:62-67 | a key/value line `k sep v` with one separator stores `k.strip()` mapped to `v.strip()` and leaves `detail` as the line |
| Properties.CountLineEntry | companies-Scrapaer.py:68-73 | a Locations or Employees line stores under `Branches` or `Size` the text before its first space: a prefix of the line without a space, followed by a space or the end of the line |
| Properties.InsideWordInFails | companies-Scrapaer.py:65-66 | an " in " line containing "in" at two places fails with `UnpackError` |
| Properties.EngineeringInXFails | companies-Scrapaer.py:65-66 | the line "Engineering in X" takes the " in " branch and fails with `UnpackError` |
| Properties.DetailsOkIff | companies-Scrapaer.py:60-77 | the detail loop completes iff every line from the start position on unpacks |
| Properties.DetailsFirstError | companies-Scrapaer.py:60-77 | a failed detail loop reports the `UnpackError` of the first line that does not unpack; all lines before it unpack |
| Properties.IndustryFromLastLine | companies-Scrapaer.py:61-77 | after a non-empty detail list, `Industry` is present and holds the last line's space-token list when that line took the Locations or Employees branch, and the stripped last line otherwise, whatever any line wrote through its own branch |
| Properties.LastWriteWins | companies-Scrapaer.py:60-75 | for every key except `Industry`, the record holds the value written by the last line whose branch writes that key, or the value it came in with |
| Properties.UrlOnlyFromUnmatchedFirstLine | companies-Scrapaer.py:62-75 | when no key/value line names URL, the record has a `URL` iff the first line passed none of the four tests; that `URL` is the stripped first line |
| Properties.CollectBound | companies-Scrapaer.py:32-78 | the container loop appends at most one record per container |
| Properties.CollectRecordAt | companies-Scrapaer.py:32-78 | the record at position `k` is the result of container `k` |
| Properties.CollectOutcome | companies-Scrapaer.py:32-78 | the loop completes iff every container succeeds; otherwise it fails with the error of the container right after the records it kept |
| Properties.CollectAt | companies-Scrapaer.py:32-78 | after `i` successful containers, container `i` ends the loop with its own error, or supplies record `i` |
| Properties.CollectDone | companies-Scrapaer.py:32-78 | when every container succeeded, the loop completes with one record per container |
| Properties.OverviewsSpec | companies-Scrapaer.py:17-78 | the records are the results of the leading successful containers, in order; the loop completes iff all containers succeed; otherwise it reports the first failing container's error |
| Properties.RoutePartition | companies-Scrapaer.py:102-112 | every pair lands in exactly one of the two lists: the lengths add up, and the two multisets together equal the input's |
| Properties.RoutedMembership | companies-Scrapaer.py:109-112 | a pair is in `Experience` iff it is an input pair with a Positive, Negative or Neutral label, and in `Interview` iff it is one with another label |
| Properties.RoutedConcat | companies-Scrapaer.py:102-104 | routing is order-preserving and compositional: routing sub-blocks one after another equals routing their concatenation |
| Extractor.ClassifyDetail | companies-Scrapaer.py:61-77 | one pass of the detail loop over a stripped line gives the fields or the error that `ApplyLine` specifies |
| Extractor.ExtractDetails | companies-Scrapaer.py:58-77 | the detail loop over the `<li>` texts returns the `ApplyDetails` result for the stripped lines, stopping at the first unpack error |
| Extractor.ReadContainer | companies-Scrapaer.py:33-77 | one container yields its header fields followed by the detail loop; a missing details list counts as an empty one |
| Extractor.RouteInterviewLabels | companies-Scrapaer.py:98-112 | the loop yields exactly the sentiment-labelled pairs and the other pairs, each list in input order |
| Extractor.InformationList.constructor | companies-Scrapaer.py:202 | a fresh accumulator is empty |
| Extractor.InformationList.ExtractInformationOverview | companies-Scrapaer.py:17-78 | appends the records of the leading successful containers after the existing entries, in order; the outcome is the container loop's |
| Extractor.InformationList.ExtractInterviews | companies-Scrapaer.py:92-127 | succeeds iff the statistics section and the difficulty are present and the list is non-empty; each failure is reported as the matching error and changes nothing; on success record 0 gains `Difficulty`, `Experience` and `Interview` and nothing else changes |
| Extractor.InformationList.ExtractCareer | companies-Scrapaer.py:141-149 | succeeds iff the section is missing, or every career entry has an anchor and the list is non-empty; no section means no change; each failure is reported as the matching error and changes nothing; otherwise only `Popular Careers` on record 0 is set |

## Left out

- Selenium navigation in `main` (driver, waits, clicks, window switching, `time.sleep`) is browser I/O and timing, and is not modelled.
- The BeautifulSoup lookups (`find`, `find_all`, `find_next`) and their CSS classes are foreign library calls. Their results are inputs: the header as `Option<Header>`, the `<li>` texts as `Option<seq<string>>`, the label/percentage pairs, the difficulty text and the career anchors.
- The pairing of a label span with the next percentage span in document order (line 106) is part of those lookups. The model takes the pair list as given. If no percentage span follows a label, Python raises `AttributeError`; the model does not represent that case.
- Extractor.InformationList.ExtractInterviews: the nested loops over sub-blocks and spans (lines 102-104) are flattened into one pair list. `Properties.RoutedConcat` proves that routing block by block gives the same lists. A missing difficulty section and a missing difficulty node are reported as the same error.
- `get_text(strip=True)` on labels and percentages is taken as already applied to the given pairs.
- `save_to_csv` is file I/O. The model also does not capture that `DictWriter` raises on keys outside its column list, such as an odd key from a colon line.
- `main` is not modelled: the interactive prompt, the per-card exception handling and the choice of pages are control plumbing around I/O.
- The mutable default argument `information_list=[]` (line 17) is not modelled: `main` always passes a fresh list (lines 202, 219), so the accumulator is an explicit object.
- Python dictionaries keep insertion order; the model's field maps do not, so column order is not modelled.
- A record is a value in the model, so the aliasing of `information_list[0]` with the dictionary appended earlier is not represented; the model updates entry 0 of the list directly.
