# ASN-China list and country-database filters, modelled in Dafny

The repository has two scripts. `scripts/Country_mmdb.py` reads an IPinfo
country MMDB database and keeps only the networks of a few countries
(`DEFAULT_COUNTRIES` = CN, HK, US, JP, SG), counting how many networks each
country keeps. `scripts/ASN_generator.py` scrapes the ASN table of a country
from bgp.he.net and writes it as a rule list of lines
`IP-ASN,<number> // <name>`, for one country or for the configured set
(`COUNTRY_METADATA`, `DEFAULT_COUNTRY_ORDER`).

This project models the logic the scripts themselves contain:

- `common.dfy` (`Common`): `Option`, `Result`, and `FilterMap`, the
  skip-or-append loop shape shared by the row cleaning and the code selection,
  with the lemma that places each output at its input position.
- `text.dfy` (`Text`): Python's `str.strip()` and `str.replace("AS", "")` as
  applied to the scraped cells, and `str.upper()` as applied to country codes.
  `CountOf`, the number of non-overlapping occurrences that `str.count` would
  report, is defined only to state how much `replace` removes.
- `country_mmdb.dfy` (`CountryMmdb`): the single pass of `generate_mmdb` over
  the reader's `(network, record)` pairs, as a method with a loop proved
  against the functions `Kept` and `Tally`, and lemmas about them.
- `asn_generator.dfy` (`AsnGenerator`): row cleaning (`fetch_country_asns`),
  line rendering and counting (`write_asn_entries`), header writing
  (`init_file`), path and display-name resolution and the `ValueError`
  (`generate_country_asn`), and code selection (`generate_multiple`).

A missing `iso_code` reads as `""` (scripts/Country_mmdb.py:61), so a record
without one is kept when `""` is among the requested countries, which only a
command line such as `--countries ""` can ask for
(`CountryMmdb.MissingIsoCodeIsEmpty`).

The MMDB reader yields records as `Option<map<string, map<string, string>>>`
(`None` is a null record) and networks in their `str(network)` form. The web
page of a country is given as the rows its ASN table yields, as a map from
code to rows. A code absent from the map is a request that raises
`requests.RequestException`; a code mapped to `[]` is a page whose table has
no rows. The file system is a map from path to content
that the methods take and return. The local time written into the header is
a parameter.

## Model

| member | source | states |
|---|---|---|
| `CountryMmdb.HasCountry` | scripts/Country_mmdb.py:58 | defines the records the loop looks at: non-null, non-empty, with a `country` entry |
| `CountryMmdb.IsoCode` | scripts/Country_mmdb.py:61 | defines the country code of such a record: its `iso_code`, or `""` when absent |
| `CountryMmdb.Keeps` | scripts/Country_mmdb.py:58-62 | defines which records are kept: those with a country whose code is a target |
| `CountryMmdb.TargetSet` | scripts/Country_mmdb.py:42 | defines `set(countries)` |
| `CountryMmdb.Kept` | scripts/Country_mmdb.py:53-63 | defines the kept list: the kept pairs in input order |
| `CountryMmdb.CountCode` | scripts/Country_mmdb.py:62-64 | defines the number of pairs whose record has a given code |
| `CountryMmdb.Tally` | scripts/Country_mmdb.py:50-64 | defines `stats`: one key per target, each counting the kept pairs with that code |
| `CountryMmdb.FilterCountries` | scripts/Country_mmdb.py:42-64 | `total` is the number of input pairs; the kept list is `Kept` of the input for `set(countries)`; `stats` has exactly the target codes as keys, each the number of kept pairs with that code; the counts add up to the kept list's length, which is at most `total` |
| `CountryMmdb.KeptSelection` | scripts/Country_mmdb.py:53-63 | a pair is kept iff its record is non-empty, has `country`, and its `iso_code` (default `""`) is a target; kept pairs keep their input order |
| `CountryMmdb.KeptAreTargets` | scripts/Country_mmdb.py:61-64 | every kept pair's code is a target, so `stats[country_code] += 1` never meets a missing key |
| `CountryMmdb.SkippedChangesNothing` | scripts/Country_mmdb.py:58-59 | a null, empty or country-less record is not kept and changes no count |
| `CountryMmdb.TallyAppend` | scripts/Country_mmdb.py:62-64 | keeping one more pair raises its own code's count by one and leaves the others |
| `CountryMmdb.MissingIsoCodeIsEmpty` | scripts/Country_mmdb.py:61-62 | a country without `iso_code` has the code `""`, so it is kept exactly when `""` is a target |
| `CountryMmdb.TallySumsToKept` | scripts/Country_mmdb.py:50-64 | the per-country counts sum to the number of kept pairs |
| `CountryMmdb.DefaultCountriesTargets` | scripts/Country_mmdb.py:42-64 | with `DEFAULT_COUNTRIES` (line 13) the tally's keys are exactly CN, HK, US, JP and SG, and every kept pair carries one of those codes |
| `CountryMmdb.DuplicatesIrrelevant` | scripts/Country_mmdb.py:42 | two country lists with the same members give the same kept list and tally |
| `Text.Strip` | scripts/ASN_generator.py:47-48 | defines `str.strip()`: the input without its leading and trailing whitespace |
| `Text.RemoveAll` | scripts/ASN_generator.py:47 | defines `str.replace(pat, "")`: a left-to-right scan deleting each non-overlapping occurrence |
| `Text.Upper` | scripts/ASN_generator.py:67 | `str.upper()` on a code keeps its length |
| `Text.LeadingSpaces` | scripts/ASN_generator.py:47-48 | the number of characters `strip()` removes at the front: all of them whitespace, and the next character (if any) is not |
| `Text.TrailingStart` | scripts/ASN_generator.py:47-48 | where the whitespace `strip()` removes at the end begins: everything from there on is whitespace, and the character before it (if any) is not |
| `Text.StripIsTrim` | scripts/ASN_generator.py:47-48 | `strip()` returns the slice between the leading and the trailing whitespace, and that slice neither starts nor ends with whitespace |
| `Text.StripEmptyIffBlank` | scripts/ASN_generator.py:49 | a stripped cell is empty exactly when the cell is all whitespace |
| `Text.StripIdempotent` | scripts/ASN_generator.py:47-48 | stripping twice equals stripping once |
| `Text.RemoveAllLength` | scripts/ASN_generator.py:47 | `replace(pat, "")` removes `len(pat)` characters per occurrence that `str.count` finds |
| `Text.RemoveAllAbsent` | scripts/ASN_generator.py:47 | a text without `"AS"` is left unchanged |
| `Text.RemoveAllCanLeavePattern` | scripts/ASN_generator.py:47 | `"AASS"` becomes `"AS"` and `"ASAS"` becomes `""`: the cleaned number may still contain `"AS"` |
| `Text.UpperAt` | scripts/ASN_generator.py:67 | each character of the upper-cased code is the upper-cased character |
| `Text.UpperIdempotent` | scripts/ASN_generator.py:90-94 | upper-casing twice equals upper-casing once, so `generate_multiple` upper-casing before `generate_country_asn` changes nothing |
| `Common.FilterMapSelection` | scripts/ASN_generator.py:41-52 | for a skip-or-append loop: an element yields an output iff the step gives a value for it, and outputs keep input order |
| `Common.FilterMapLength` | scripts/ASN_generator.py:41-52 | a skip-or-append loop never yields more outputs than inputs |
| `Common.FilterMapStep` | scripts/ASN_generator.py:41-52 | one more input extends the outputs by that input's value when the step gives one, and by nothing otherwise |
| `AsnGenerator.CellText` | scripts/ASN_generator.py:47-48 | defines `node.text or ""` |
| `AsnGenerator.CleanNumber` | scripts/ASN_generator.py:47 | defines the cleaned number: every `"AS"` removed, then stripped |
| `AsnGenerator.CleanRow` | scripts/ASN_generator.py:43-51 | defines one row's contribution: none when a cell is missing or a cleaned field is empty, else the cleaned pair |
| `AsnGenerator.CleanRows` | scripts/ASN_generator.py:41-52 | defines the cleaned rows, in order |
| `AsnGenerator.FetchCountryAsns` | scripts/ASN_generator.py:34-52 | a failed request raises; otherwise the result is the cleaned rows in order, never more entries than rows |
| `AsnGenerator.CleanRowsSelection` | scripts/ASN_generator.py:42-51 | a row is emitted iff it has both cells and its cleaned number (every `"AS"` removed, then stripped; missing text is `""`) and stripped name are non-empty; emitted entries keep row order |
| `AsnGenerator.CleanRowTrimmed` | scripts/ASN_generator.py:45-51 | an emitted entry's number and name are non-empty and neither starts nor ends with whitespace |
| `AsnGenerator.CleanRowsTrimmed` | scripts/ASN_generator.py:41-52 | every entry of the result is non-empty and trimmed in both fields |
| `AsnGenerator.Line` | scripts/ASN_generator.py:59 | defines the line `IP-ASN,{number} // {name}\n` of one entry |
| `AsnGenerator.Render` | scripts/ASN_generator.py:58-59 | defines the text written for a run of entries: their lines in order |
| `AsnGenerator.ContentOf` | scripts/ASN_generator.py:57 | defines the content a file opened for appending starts from: its content, or `""` when it does not exist |
| `AsnGenerator.WriteAsnEntries` | scripts/ASN_generator.py:55-61 | returns the number of entries; the file keeps its content (or starts empty) and gains one `IP-ASN,{number} // {name}\n` line per entry, in order; no other file changes |
| `AsnGenerator.RenderAppend` | scripts/ASN_generator.py:58-59 | the text written for two runs of entries is the text of the first followed by that of the second |
| `AsnGenerator.RenderLineCount` | scripts/ASN_generator.py:55-61 | when no field holds a newline, the text written has exactly as many lines as the count returned |
| `AsnGenerator.Header` | scripts/ASN_generator.py:27-31 | defines the three header lines: title with the display name, update time, credits and a blank line |
| `AsnGenerator.InitFile` | scripts/ASN_generator.py:24-31 | the file holds exactly the three header lines afterwards (truncated or created) and no other file changes |
| `AsnGenerator.ResolvePath` | scripts/ASN_generator.py:68-73 | the path is the explicit one when non-empty, else the configured file; it is missing (the `ValueError` case) iff there is neither |
| `AsnGenerator.ResolveDisplay` | scripts/ASN_generator.py:70 | the display name is the explicit one when non-empty, else the configured display, else the code |
| `AsnGenerator.ConfiguredResolves` | scripts/ASN_generator.py:13-19 | for a configured code the path resolves without an explicit one and the display name is non-empty |
| `AsnGenerator.CountryFile` | scripts/ASN_generator.py:78-82 | defines the content of a list file after a successful run: the header followed by the entries' lines |
| `AsnGenerator.CountryAsnOutcome` | scripts/ASN_generator.py:64-84 | defines the result and the files after `generate_country_asn` |
| `AsnGenerator.GenerateCountryAsn` | scripts/ASN_generator.py:64-84 | the result and the files are `CountryAsnOutcome` of the inputs: the code is upper-cased, no resolvable path is `ValueError`, a failed request is its error, otherwise the resolved file holds the header followed by the cleaned entries' lines and the result is their number |
| `AsnGenerator.CountryAsnErrorsChangeNothing` | scripts/ASN_generator.py:67-76 | every error leaves the files as they were; `ValueError` happens exactly when there is neither an explicit path nor a configured file, and then before any page is fetched (the pages do not matter) |
| `AsnGenerator.CountryAsnEmptyWritesHeader` | scripts/ASN_generator.py:76-80 | a result of 0 is not an error: the resolved file holds only the header |
| `AsnGenerator.CountryAsnLineCount` | scripts/ASN_generator.py:79-84 | on success the file has the header's lines plus exactly as many lines as the count returned, when no entry field holds a newline |
| `AsnGenerator.EffectiveCodes` | scripts/ASN_generator.py:88 | `None` or an empty list means `DEFAULT_COUNTRY_ORDER`; any other list is used as given |
| `AsnGenerator.SelectCode` | scripts/ASN_generator.py:89-94 | defines the code handed on for one listed code: its upper-case form when configured, else none |
| `AsnGenerator.SelectedCodes` | scripts/ASN_generator.py:88-94 | defines the codes handed on, in order |
| `AsnGenerator.AfterCountry` | scripts/ASN_generator.py:92-95 | defines the files after one configured code: its list file rewritten, or unchanged when the request fails |
| `AsnGenerator.AfterAll` | scripts/ASN_generator.py:88-95 | defines the files after each handed-on code in turn |
| `AsnGenerator.GenerateMultiple` | scripts/ASN_generator.py:87-96 | the codes handed to `generate_country_asn` are the upper-cased configured codes in the order given; failed requests are passed over; the files are those after each of them in turn |
| `AsnGenerator.ConfiguredOutcome` | scripts/ASN_generator.py:92-95 | for a configured upper-case code with no explicit path or name, the only error is a failed request (exactly when the page is missing) and the files become the country's list file rewritten |
| `AsnGenerator.SelectedCodesStep` | scripts/ASN_generator.py:89-92 | each code extends the handled codes by its upper-case form exactly when that form is configured |
| `AsnGenerator.SelectedCodesSelection` | scripts/ASN_generator.py:89-92 | a code is handled iff its upper-case form is a key of `COUNTRY_METADATA`, in the given order |
| `AsnGenerator.SelectedCodesOfConfigured` | scripts/ASN_generator.py:89-94 | upper-case configured codes are all handled, in order |
| `AsnGenerator.DefaultOrderAllConfigured` | scripts/ASN_generator.py:13-21 | with no codes given, every configured country is generated once in `DEFAULT_COUNTRY_ORDER`, whose members are exactly the configured codes |
| `AsnGenerator.AfterAllTouchesOnlyListFiles` | scripts/ASN_generator.py:87-96 | a file that is no configured list file keeps its content |

## Left out

- The MMDB database engine (the metadata scan, the binary trie, the data section, network merging and record dedup) is done by the `maxminddb`, `mmdb_writer` and `netaddr` libraries (scripts/Country_mmdb.py:34-36, 47, 71-84); that code is not part of this model. The reader is its sequence of pairs; the writer is not modelled.
- The writer loop that ignores every exception of `insert_network` (scripts/Country_mmdb.py:77-82): it only calls the library.
- The import check that returns `False` when a library is missing (scripts/Country_mmdb.py:33-40).
- A `country` entry that is not a dictionary, for which `.get` would raise; the record type only has dictionaries there.
- Network access: `urllib.request.urlretrieve` (scripts/Country_mmdb.py:19-28) and `requests.get` with `raise_for_status` (scripts/ASN_generator.py:35-38) become the given rows per code: a code absent from the map is a failed request, and a code mapped to `[]` is a page whose table has no rows.
- HTML parsing and XPath (scripts/ASN_generator.py:39-44): the table is given as rows of cells, each cell absent or a node whose text may be `None`.
- File I/O errors, file sizes, the temporary directory and the clock (scripts/ASN_generator.py:25; scripts/Country_mmdb.py:85, 109-110): files are a map from path to content and the time string is a parameter.
- Console output, `argparse`, `sys.exit` and `main` (scripts/Country_mmdb.py:43, 55-56, 67, 86-91, 96-118; scripts/ASN_generator.py:77, 83, 91, 96, 99-118).
- AsnGenerator.GenerateMultiple: every country's header carries the same `localTime`, whereas each `init_file` reads the clock again (scripts/ASN_generator.py:25), so the headers written in one run may carry different times.
- AsnGenerator.GenerateMultiple: a code listed twice (`["cn", "CN"]`) is fetched twice in the source and may get different pages; the model gives both fetches the same rows.
- AsnGenerator.EffectiveCodes: the argument is `None` or a list. An empty iterator or generator is truthy in Python (scripts/ASN_generator.py:88), so `list(...)` gives `[]` and nothing is generated; that input is not modelled, and an empty argument here always means `DEFAULT_COUNTRY_ORDER`.
- `Text.Upper`: only the ASCII letters `a`..`z` are mapped; Python's Unicode case mapping (for example `ß` to `SS`) is not modelled.
