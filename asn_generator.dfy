/** scripts/ASN_generator.py: turn the rows of a country's ASN table into an
    `IP-ASN,<number> // <name>` list file, for one country or several. The
    web page is given as the rows its table yields, and the file system as a
    map from path to content. */
module AsnGenerator {
  import opened Common
  import Text

  /** One entry of `COUNTRY_METADATA`. */
  datatype CountryInfo = CountryInfo(display: string, file: string)

  /** The entries of `COUNTRY_METADATA`. */
  const China: CountryInfo := CountryInfo("China", "ASN.China.list")
  const UnitedStates: CountryInfo := CountryInfo("US", "ASN.US.list")
  const Japan: CountryInfo := CountryInfo("Japan", "ASN.Japan.list")
  const HongKong: CountryInfo := CountryInfo("Hong Kong", "ASN.HongKong.list")
  const Singapore: CountryInfo := CountryInfo("Singapore", "ASN.Singapore.list")

  /** `COUNTRY_METADATA`: display name and list file per configured code. */
  const CountryMetadata: map<string, CountryInfo> :=
    map["CN" := China, "US" := UnitedStates, "JP" := Japan, "HK" := HongKong, "SG" := Singapore]

  /** `DEFAULT_COUNTRY_ORDER`. */
  const DefaultCountryOrder: seq<string> := ["CN", "US", "JP", "HK", "SG"]

  /** The result of an XPath query for one cell of a row: no node, or the
      first node, whose `.text` may be `None`. */
  datatype Cell = NoNode | Node(text: Option<string>)

  /** One table row: the number cell (`td[1]/a`) and the name cell (`td[2]`). */
  datatype Row = Row(number: Cell, name: Cell)

  /** One ASN of the list. */
  datatype AsnEntry = AsnEntry(number: string, name: string)

  /** The exceptions `generate_country_asn` raises: `ValueError` when no output
      file is known, and a failed request (`requests.RequestException`). */
  datatype AsnError = NoOutputFile(code: string) | RequestFailed(code: string)

  /** The file system: the content of each existing file. */
  type Files = map<string, string>

  /** `node.text or ""`. */
  function CellText(c: Cell): string
    requires c.Node?
  {
    if c.text.Some? then c.text.value else ""
  }

  /** The number as emitted: every `"AS"` removed, then stripped. */
  function CleanNumber(text: string): string
  {
    Text.Strip(Text.RemoveAll(text, "AS"))
  }

  /** One iteration of the row loop of `fetch_country_asns`: `None` for a row
      it skips. */
  function CleanRow(row: Row): Option<AsnEntry>
  {
    if row.number.NoNode? || row.name.NoNode? then None
    else
      var number := CleanNumber(CellText(row.number));
      var name := Text.Strip(CellText(row.name));
      if number == "" || name == "" then None else Some(AsnEntry(number, name))
  }

  /** The entries of the rows that are not skipped, in row order. */
  function CleanRows(rows: seq<Row>): seq<AsnEntry>
  {
    FilterMap(rows, CleanRow)
  }

  /** `fetch_country_asns(code)`: request the page of `code` (a code with no
      page stands for a request that raises) and clean its table rows one by
      one, in order. */
  method FetchCountryAsns(code: string, pages: map<string, seq<Row>>)
    returns (fetched: Result<seq<AsnEntry>, AsnError>)
    ensures code !in pages ==> fetched == Err(RequestFailed(code))
    ensures code in pages ==> fetched == Ok(CleanRows(pages[code]))
    ensures fetched.Ok? ==> |fetched.value| <= |pages[code]|
  {
    if code !in pages {
      return Err(RequestFailed(code));
    }
    var rows := pages[code];
    var results: seq<AsnEntry> := [];
    for i := 0 to |rows|
      invariant results == CleanRows(rows[..i])
      invariant |results| <= i
    {
      assert rows[..i + 1][..i] == rows[..i];
      var row := rows[i];
      if row.number.NoNode? || row.name.NoNode? {
        continue;
      }
      var asnNumber := Text.Strip(Text.RemoveAll(CellText(row.number), "AS"));
      var asnName := Text.Strip(CellText(row.name));
      if asnNumber == "" || asnName == "" {
        continue;
      }
      results := results + [AsnEntry(asnNumber, asnName)];
    }
    assert rows[..|rows|] == rows;
    return Ok(results);
  }

  /** A row is emitted exactly when `CleanRow` accepts it, and the emitted
      entries keep row order: `idx` places each entry at its row. */
  lemma CleanRowsSelection(rows: seq<Row>) returns (idx: seq<nat>)
    ensures |idx| == |CleanRows(rows)| <= |rows|
    ensures IncreasingBelow(idx, |rows|)
    ensures forall k {:trigger CleanRows(rows)[k]} :: 0 <= k < |idx| ==> CleanRow(rows[idx[k]]) == Some(CleanRows(rows)[k])
    ensures forall i :: 0 <= i < |rows| ==> (CleanRow(rows[i]).Some? <==> i in idx)
  {
    idx := FilterMapSelection(rows, CleanRow);
    FilterMapLength(rows, CleanRow);
  }

  /** Non-empty, and neither starting nor ending with whitespace. */
  predicate Trimmed(s: string)
  {
    s != [] && !Text.IsSpace(s[0]) && !Text.IsSpace(s[|s| - 1])
  }

  /** A row that is not skipped yields a trimmed, non-empty number and name. */
  lemma CleanRowTrimmed(row: Row)
    requires CleanRow(row).Some?
    ensures Trimmed(CleanRow(row).value.number) && Trimmed(CleanRow(row).value.name)
  {
  }

  /** Every emitted entry has a non-empty number and name, neither of which
      starts or ends with whitespace. */
  lemma CleanRowsTrimmed(rows: seq<Row>)
    ensures forall k :: 0 <= k < |CleanRows(rows)| ==>
      Trimmed(CleanRows(rows)[k].number) && Trimmed(CleanRows(rows)[k].name)
  {
    var idx := CleanRowsSelection(rows);
    forall k | 0 <= k < |CleanRows(rows)|
      ensures Trimmed(CleanRows(rows)[k].number) && Trimmed(CleanRows(rows)[k].name)
    {
      CleanRowTrimmed(rows[idx[k]]);
    }
  }

  /** The fixed text of a list line. */
  const LinePrefix: string := "IP-ASN,"
  const Separator: string := " // "

  /** One line of the list: `IP-ASN,{number} // {name}` and a newline. */
  function Line(e: AsnEntry): string
  {
    LinePrefix + e.number + Separator + e.name + "\n"
  }

  /** The lines of all entries, in order. */
  function Render(entries: seq<AsnEntry>): string
  {
    if entries == [] then ""
    else Render(entries[..|entries| - 1]) + Line(entries[|entries| - 1])
  }

  /** The content of `path`, or `""` for a file that opening in append mode
      creates. */
  function ContentOf(files: Files, path: string): string
  {
    if path in files then files[path] else ""
  }

  /** `write_asn_entries(path, entries)`: open `path` for appending, write one
      line per entry and return how many were written. `content` is the open
      file's content; closing the file stores it back. */
  method WriteAsnEntries(files: Files, path: string, entries: seq<AsnEntry>)
    returns (files': Files, count: nat)
    ensures count == |entries|
    ensures files' == files[path := ContentOf(files, path) + Render(entries)]
  {
    count := 0;
    var content := ContentOf(files, path);
    assert entries[..0] == [];
    for i := 0 to |entries|
      invariant count == i
      invariant content == ContentOf(files, path) + Render(entries[..i])
    {
      assert entries[..i + 1][..i] == entries[..i];
      content := content + Line(entries[i]);
      count := count + 1;
    }
    assert entries[..|entries|] == entries;
    files' := files[path := content];
  }

  /** Rendering a concatenation is concatenating the renderings. */
  lemma {:induction false} RenderAppend(a: seq<AsnEntry>, b: seq<AsnEntry>)
    ensures Render(a + b) == Render(a) + Render(b)
    decreases |b|
  {
    if b == [] {
      assert a + b == a;
    } else {
      var n := |b| - 1;
      var b' := b[..n];
      assert (a + b)[..|a + b| - 1] == a + b';
      assert (a + b)[|a + b| - 1] == b[n];
      assert Render(a + b) == Render(a + b') + Line(b[n]);
      RenderAppend(a, b');
      assert Render(b) == Render(b') + Line(b[n]);
    }
  }

  /** The number of newline characters in `s`. */
  function Newlines(s: string): nat
  {
    if s == [] then 0 else Newlines(s[..|s| - 1]) + (if s[|s| - 1] == '\n' then 1 else 0)
  }

  /** Newlines of a concatenation add up. */
  lemma {:induction false} NewlinesAppend(a: string, b: string)
    ensures Newlines(a + b) == Newlines(a) + Newlines(b)
    decreases |b|
  {
    if b == [] {
      assert a + b == a;
    } else {
      assert (a + b)[..|a + b| - 1] == a + b[..|b| - 1];
      NewlinesAppend(a, b[..|b| - 1]);
    }
  }

  /** When no number or name holds a newline, the text written has exactly one
      line per entry, so the count returned is the number of lines added. */
  lemma {:induction false} RenderLineCount(entries: seq<AsnEntry>)
    requires forall k :: 0 <= k < |entries| ==> '\n' !in entries[k].number && '\n' !in entries[k].name
    ensures Newlines(Render(entries)) == |entries|
  {
    if entries != [] {
      var n := |entries| - 1;
      var e := entries[n];
      RenderLineCount(entries[..n]);
      NewlinesAppend(Render(entries[..n]), Line(e));
      NoNewlines(LinePrefix);
      NoNewlines(e.number);
      NoNewlines(Separator);
      NoNewlines(e.name);
      NewlinesAppend(LinePrefix + e.number + Separator + e.name, "\n");
      NewlinesAppend(LinePrefix + e.number + Separator, e.name);
      NewlinesAppend(LinePrefix + e.number, Separator);
      NewlinesAppend(LinePrefix, e.number);
    }
  }

  /** A text without a newline character counts zero newlines. */
  lemma {:induction false} NoNewlines(s: string)
    requires '\n' !in s
    ensures Newlines(s) == 0
  {
    if s != [] {
      NoNewlines(s[..|s| - 1]);
    }
  }

  /** The fixed text of the header lines `init_file` writes. */
  const TitlePrefix: string := "// ASN Information in "
  const TitleSuffix: string := ". (https://github.com/missuo/ASN-China) \n"
  const UpdatedPrefix: string := "// Last Updated: UTC "
  const Credits: string := "\n// Made by Vincent, All rights reserved. \n\n"

  /** The three header lines `init_file` writes. */
  function Header(display: string, localTime: string): string
  {
    TitlePrefix + display + TitleSuffix + UpdatedPrefix + localTime + Credits
  }

  /** `init_file(display, path)`: open `path` for writing, which truncates or
      creates it, and write the header; no other file changes. */
  function InitFile(files: Files, display: string, path: string, localTime: string): (r: Files)
    ensures r.Keys == files.Keys + {path}
    ensures r[path] == Header(display, localTime)
    ensures forall p :: p in files && p != path ==> r[p] == files[p]
  {
    files[path := Header(display, localTime)]
  }

  /** Python truthiness of an optional string: present and non-empty. */
  predicate Truthy(s: Option<string>)
  {
    s.Some? && s.value != ""
  }

  /** `output_path or COUNTRY_METADATA.get(code, {}).get("file")`; `None` when
      the result is falsy. */
  function ResolvePath(code: string, outputPath: Option<string>): (r: Option<string>)
    ensures r.None? <==> !Truthy(outputPath) && code !in CountryMetadata
    ensures r.Some? ==> r.value != ""
    ensures Truthy(outputPath) ==> r == outputPath
    ensures !Truthy(outputPath) && code in CountryMetadata ==> r == Some(CountryMetadata[code].file)
  {
    if Truthy(outputPath) then outputPath
    else if code in CountryMetadata then Some(CountryMetadata[code].file)
    else None
  }

  /** `display_name or COUNTRY_METADATA.get(code, {}).get("display", code)`. */
  function ResolveDisplay(code: string, displayName: Option<string>): (r: string)
    ensures Truthy(displayName) ==> r == displayName.value
    ensures !Truthy(displayName) && code in CountryMetadata ==> r == CountryMetadata[code].display
    ensures !Truthy(displayName) && code !in CountryMetadata ==> r == code
  {
    if Truthy(displayName) then displayName.value
    else if code in CountryMetadata then CountryMetadata[code].display
    else code
  }

  /** Every configured file and display name is non-empty, so for a
      configured code the path resolves without an explicit one and the
      display name is never empty. */
  lemma ConfiguredResolves(code: string, displayName: Option<string>)
    requires code in CountryMetadata
    ensures ResolvePath(code, None).Some?
    ensures ResolveDisplay(code, displayName) != ""
  {
  }

  /** What `generate_country_asn` leaves behind: the file truncated to the
      header, followed by the lines of the entries fetched for `code`. */
  function CountryFile(display: string, entries: seq<AsnEntry>, localTime: string): string
  {
    Header(display, localTime) + Render(entries)
  }

  /** What `generate_country_asn(country_code, output_path, display_name)`
      returns and leaves behind: `ValueError` when no file is known for the
      upper-cased code, the request's error when its page cannot be fetched,
      otherwise the number of entries written and the list file rewritten. */
  function CountryAsnOutcome(countryCode: string, outputPath: Option<string>, displayName: Option<string>,
                             pages: map<string, seq<Row>>, files: Files, localTime: string): (Result<nat, AsnError>, Files)
  {
    var code := Text.Upper(countryCode);
    match ResolvePath(code, outputPath)
    case None => (Err(NoOutputFile(code)), files)
    case Some(path) =>
      if code !in pages then (Err(RequestFailed(code)), files)
      else
        var entries := CleanRows(pages[code]);
        (Ok(|entries|), files[path := CountryFile(ResolveDisplay(code, displayName), entries, localTime)])
  }

  /** `generate_country_asn(country_code, output_path, display_name)`: upper-case
      the code, resolve the file and display name, raise `ValueError` before
      fetching when no file is known, otherwise fetch, write the header and
      then the entries, and return how many entries were written; with no
      entries only the header is written. */
  method GenerateCountryAsn(countryCode: string, outputPath: Option<string>, displayName: Option<string>,
                            pages: map<string, seq<Row>>, files: Files, localTime: string)
    returns (outcome: Result<nat, AsnError>, files': Files)
    ensures (outcome, files') == CountryAsnOutcome(countryCode, outputPath, displayName, pages, files, localTime)
  {
    var code := Text.Upper(countryCode);
    var filePath := ResolvePath(code, outputPath);
    var display := ResolveDisplay(code, displayName);
    if filePath.None? {
      return Err(NoOutputFile(code)), files;
    }
    var fetched := FetchCountryAsns(code, pages);
    if fetched.Err? {
      return Err(fetched.error), files;
    }
    var asnEntries := fetched.value;
    var path := filePath.value;
    if asnEntries == [] {
      assert CountryFile(display, asnEntries, localTime) == Header(display, localTime);
      return Ok(0), InitFile(files, display, path, localTime);
    }
    var started := InitFile(files, display, path, localTime);
    assert ContentOf(started, path) == Header(display, localTime);
    var count;
    files', count := WriteAsnEntries(started, path, asnEntries);
    assert files' == files[path := CountryFile(display, asnEntries, localTime)];
    return Ok(count), files';
  }

  /** An error, whether `ValueError` or a failed request, leaves every file as
      it was; `ValueError` is raised exactly when no path resolves, and then
      before any page is fetched. */
  lemma CountryAsnErrorsChangeNothing(countryCode: string, outputPath: Option<string>, displayName: Option<string>,
                                      pages: map<string, seq<Row>>, files: Files, localTime: string)
    ensures var (outcome, files') := CountryAsnOutcome(countryCode, outputPath, displayName, pages, files, localTime);
      outcome.Err? ==> files' == files
    ensures var (outcome, _) := CountryAsnOutcome(countryCode, outputPath, displayName, pages, files, localTime);
      var code := Text.Upper(countryCode);
      outcome == Err(NoOutputFile(code)) <==> !Truthy(outputPath) && code !in CountryMetadata
    ensures var code := Text.Upper(countryCode);
      !Truthy(outputPath) && code !in CountryMetadata ==>
        CountryAsnOutcome(countryCode, outputPath, displayName, pages, files, localTime)
        == CountryAsnOutcome(countryCode, outputPath, displayName, map[], files, localTime)
  {
  }

  /** An empty result is not an error: the count is 0 and the list file holds
      only its header. */
  lemma CountryAsnEmptyWritesHeader(countryCode: string, outputPath: Option<string>, displayName: Option<string>,
                                    pages: map<string, seq<Row>>, files: Files, localTime: string)
    ensures var (outcome, files') := CountryAsnOutcome(countryCode, outputPath, displayName, pages, files, localTime);
      var code := Text.Upper(countryCode);
      outcome == Ok(0) ==>
        files' == files[ResolvePath(code, outputPath).value := Header(ResolveDisplay(code, displayName), localTime)]
  {
    var code := Text.Upper(countryCode);
    if ResolvePath(code, outputPath).Some? && code in pages && CleanRows(pages[code]) == [] {
      assert CountryFile(ResolveDisplay(code, displayName), [], localTime) == Header(ResolveDisplay(code, displayName), localTime);
    }
  }

  /** On success the list file holds the header's lines and then one line
      per entry counted, provided no number or name holds a newline. */
  lemma CountryAsnLineCount(countryCode: string, outputPath: Option<string>, displayName: Option<string>,
                            pages: map<string, seq<Row>>, files: Files, localTime: string)
    requires var code := Text.Upper(countryCode);
      code in pages ==>
        forall e :: e in CleanRows(pages[code]) ==> '\n' !in e.number && '\n' !in e.name
    ensures var (outcome, files') := CountryAsnOutcome(countryCode, outputPath, displayName, pages, files, localTime);
      var code := Text.Upper(countryCode);
      outcome.Ok? ==>
        Newlines(files'[ResolvePath(code, outputPath).value])
        == Newlines(Header(ResolveDisplay(code, displayName), localTime)) + outcome.value
  {
    var code := Text.Upper(countryCode);
    if ResolvePath(code, outputPath).Some? && code in pages {
      var entries := CleanRows(pages[code]);
      RenderLineCount(entries);
      NewlinesAppend(Header(ResolveDisplay(code, displayName), localTime), Render(entries));
    }
  }

  /** The codes `generate_multiple` works through: the given ones, or
      `DEFAULT_COUNTRY_ORDER` when they are `None` or empty. */
  function EffectiveCodes(countryCodes: Option<seq<string>>): (r: seq<string>)
    ensures countryCodes.None? || countryCodes.value == [] ==> r == DefaultCountryOrder
    ensures countryCodes.Some? && countryCodes.value != [] ==> r == countryCodes.value
  {
    if countryCodes.Some? && countryCodes.value != [] then countryCodes.value else DefaultCountryOrder
  }

  /** The code `generate_multiple` hands on for `code`: its upper-case form,
      or `None` when that is not configured and the code is skipped. */
  function SelectCode(code: string): Option<string>
  {
    var c := Text.Upper(code);
    if c in CountryMetadata then Some(c) else None
  }

  /** The upper-cased codes, in order, that are keys of `COUNTRY_METADATA`;
      the others are skipped. */
  function SelectedCodes(codes: seq<string>): seq<string>
  {
    FilterMap(codes, SelectCode)
  }

  /** The files after `generate_country_asn(code)` for a configured `code`
      with no explicit path or name: a failed request changes nothing,
      otherwise the country's list file is rewritten. */
  function AfterCountry(files: Files, code: string, pages: map<string, seq<Row>>, localTime: string): Files
    requires code in CountryMetadata
  {
    if code in pages
    then files[CountryMetadata[code].file := CountryFile(CountryMetadata[code].display, CleanRows(pages[code]), localTime)]
    else files
  }

  /** The files after handling each of `codes` in turn. */
  function AfterAll(files: Files, codes: seq<string>, pages: map<string, seq<Row>>, localTime: string): Files
    requires forall k :: 0 <= k < |codes| ==> codes[k] in CountryMetadata
  {
    if codes == [] then files
    else AfterCountry(AfterAll(files, codes[..|codes| - 1], pages, localTime), codes[|codes| - 1], pages, localTime)
  }

  /** `generate_multiple(country_codes)`: for each code in order, skip it
      unless its upper-case form is configured, otherwise generate its list,
      reporting and carrying on past a failed request. `attempted` is the
      sequence of codes handed to `generate_country_asn`. */
  method GenerateMultiple(countryCodes: Option<seq<string>>, pages: map<string, seq<Row>>,
                          files: Files, localTime: string)
    returns (attempted: seq<string>, files': Files)
    ensures attempted == SelectedCodes(EffectiveCodes(countryCodes))
    ensures forall k :: 0 <= k < |attempted| ==> attempted[k] in CountryMetadata
    ensures files' == AfterAll(files, attempted, pages, localTime)
  {
    var codes := EffectiveCodes(countryCodes);
    attempted := [];
    files' := files;
    for i := 0 to |codes|
      invariant attempted == SelectedCodes(codes[..i])
      invariant forall k :: 0 <= k < |attempted| ==> attempted[k] in CountryMetadata
      invariant files' == AfterAll(files, attempted, pages, localTime)
    {
      SelectedCodesStep(codes, i);
      var code := codes[i];
      if Text.Upper(code) !in CountryMetadata {
        continue;
      }
      var upper := Text.Upper(code);
      Text.UpperIdempotent(code);
      var outcome, next := GenerateCountryAsn(upper, None, None, pages, files', localTime);
      ConfiguredOutcome(upper, pages, files', localTime);
      assert AfterAll(files, attempted + [upper], pages, localTime) == AfterCountry(files', upper, pages, localTime) by {
        assert (attempted + [upper])[..|attempted|] == attempted;
      }
      attempted := attempted + [upper];
      if outcome.Err? {
        match outcome.error
        case NoOutputFile(_) =>
          assert false;
        case RequestFailed(_) =>
          // the request failed: reported, and the loop goes on
      }
      files' := next;
    }
    assert codes[..|codes|] == codes;
  }

  /** One more code extends the selection by its upper-case form exactly
      when that form is configured. */
  lemma SelectedCodesStep(codes: seq<string>, i: nat)
    requires i < |codes|
    ensures SelectedCodes(codes[..i + 1])
      == SelectedCodes(codes[..i]) + (if Text.Upper(codes[i]) in CountryMetadata then [Text.Upper(codes[i])] else [])
  {
    FilterMapStep(codes, SelectCode, i);
  }

  /** For a configured upper-case code with no explicit path or name, the
      only error is a failed request, and the files become `AfterCountry`. */
  lemma ConfiguredOutcome(code: string, pages: map<string, seq<Row>>, files: Files, localTime: string)
    requires code in CountryMetadata && Text.Upper(code) == code
    ensures var (outcome, files') := CountryAsnOutcome(code, None, None, pages, files, localTime);
      && (outcome.Err? <==> code !in pages)
      && (outcome.Err? ==> outcome.error == RequestFailed(code))
      && files' == AfterCountry(files, code, pages, localTime)
  {
    assert ResolvePath(code, None) == Some(CountryMetadata[code].file);
    assert ResolveDisplay(code, None) == CountryMetadata[code].display;
  }

  /** A code is handled exactly when its upper-case form is configured, in
      the order given: `idx` places each attempted code at its position. */
  lemma SelectedCodesSelection(codes: seq<string>) returns (idx: seq<nat>)
    ensures |idx| == |SelectedCodes(codes)| <= |codes|
    ensures IncreasingBelow(idx, |codes|)
    ensures forall k {:trigger SelectedCodes(codes)[k]} :: 0 <= k < |idx| ==> SelectedCodes(codes)[k] == Text.Upper(codes[idx[k]])
    ensures forall i :: 0 <= i < |codes| ==> (Text.Upper(codes[i]) in CountryMetadata <==> i in idx)
  {
    idx := FilterMapSelection(codes, SelectCode);
    FilterMapLength(codes, SelectCode);
  }

  /** With no codes given, every configured country is generated once, in
      `DEFAULT_COUNTRY_ORDER`. */
  lemma DefaultOrderAllConfigured()
    ensures SelectedCodes(EffectiveCodes(None)) == DefaultCountryOrder
    ensures SelectedCodes(EffectiveCodes(Some([]))) == DefaultCountryOrder
    ensures (set c | c in DefaultCountryOrder) == CountryMetadata.Keys
  {
    assert Text.Upper("CN") == "CN";
    assert Text.Upper("US") == "US";
    assert Text.Upper("JP") == "JP";
    assert Text.Upper("HK") == "HK";
    assert Text.Upper("SG") == "SG";
    SelectedCodesOfConfigured(DefaultCountryOrder);
  }

  /** Codes that are already upper-case and configured are all kept, in order. */
  lemma {:induction false} SelectedCodesOfConfigured(codes: seq<string>)
    requires forall k :: 0 <= k < |codes| ==> Text.Upper(codes[k]) == codes[k] && codes[k] in CountryMetadata
    ensures SelectedCodes(codes) == codes
  {
    if codes != [] {
      SelectedCodesOfConfigured(codes[..|codes| - 1]);
    }
  }

  /** Only configured list files change: every other file keeps its content. */
  lemma {:induction false} AfterAllTouchesOnlyListFiles(files: Files, codes: seq<string>,
                                                        pages: map<string, seq<Row>>, localTime: string, p: string)
    requires forall k :: 0 <= k < |codes| ==> codes[k] in CountryMetadata
    requires p in files
    requires forall c :: c in CountryMetadata ==> CountryMetadata[c].file != p
    ensures p in AfterAll(files, codes, pages, localTime)
    ensures AfterAll(files, codes, pages, localTime)[p] == files[p]
  {
    if codes != [] {
      AfterAllTouchesOnlyListFiles(files, codes[..|codes| - 1], pages, localTime, p);
    }
  }
}
