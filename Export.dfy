/** The text the export handlers build before handing it to the browser
    download: the transcript file (App.tsx:296-308) and the CSV of the
    first-cycle codes (App.tsx:657-662). */
module Export {
  import opened Strings
  import opened Types

  /** What the regular-expression class `[a-z0-9]` with the `i` flag
      matches: ASCII letters of either case and ASCII digits. */
  predicate IsAsciiAlnum(c: char) {
    'a' <= c <= 'z' || 'A' <= c <= 'Z' || '0' <= c <= '9'
  }

  predicate IsFilenameChar(c: char) {
    'a' <= c <= 'z' || '0' <= c <= '9' || c == '_'
  }

  /** Whether a character takes two UTF-16 code units (a surrogate pair). */
  predicate IsAstral(c: char) {
    c as int > 0xFFFF
  }

  /** The length JavaScript reports for `s`: its number of UTF-16 code units. */
  function Utf16Length(s: string): nat {
    if s == [] then 0 else (if IsAstral(s[0]) then 2 else 1) + Utf16Length(s[1..])
  }

  /** What replacing one character gives: the character itself when the class
      matches it, otherwise one `_` per UTF-16 code unit, since a regular
      expression without the `u` flag matches each half of a surrogate pair
      on its own. */
  function Replacement(c: char): string {
    if IsAsciiAlnum(c) then [c] else if IsAstral(c) then "__" else "_"
  }

  /** `s.replace(/[^a-z0-9]/gi, '_')`. */
  function Underscored(s: string): (r: string)
    ensures |r| == Utf16Length(s)
    ensures forall k :: 0 <= k < |r| ==> IsAsciiAlnum(r[k]) || r[k] == '_'
    ensures (forall k :: 0 <= k < |s| ==> !IsAstral(s[k])) ==>
      |r| == |s| && forall k :: 0 <= k < |s| ==> r[k] == if IsAsciiAlnum(s[k]) then s[k] else '_'
  {
    if s == [] then []
    else
      var rest := Underscored(s[1..]);
      assert forall k :: 0 < k < |s| ==> s[1..][k - 1] == s[k];
      Replacement(s[0]) + rest
  }

  /** Replacing in a concatenation replaces in each part. */
  lemma {:induction false} UnderscoredAppend(a: string, b: string)
    ensures Underscored(a + b) == Underscored(a) + Underscored(b)
    decreases |a|
  {
    if a == [] {
      assert a + b == b;
    } else {
      assert (a + b)[0] == a[0] && (a + b)[1..] == a[1..] + b;
      UnderscoredAppend(a[1..], b);
      assert Underscored(a + b) == Replacement(a[0]) + (Underscored(a[1..]) + Underscored(b));
    }
  }

  /** `s.replace(/[^a-z0-9]/gi, '_').toLowerCase()`: only `[a-z0-9_]`
      remain, one per UTF-16 code unit of `s`. Without characters outside the
      Basic Multilingual Plane, each ASCII letter or digit is lower-cased in
      place and every other character becomes `_`. */
  function Sanitised(s: string): (r: string)
    ensures |r| == Utf16Length(s)
    ensures (forall k :: 0 <= k < |s| ==> !IsAstral(s[k])) ==>
      |r| == |s| && forall k :: 0 <= k < |s| ==> r[k] == if IsAsciiAlnum(s[k]) then LowerChar(s[k]) else '_'
    ensures forall k :: 0 <= k < |r| ==> IsFilenameChar(r[k])
  {
    var u := Underscored(s);
    Lower(u)
  }

  /** `(interviewIdentifier || 'entrevista').replace(/[^a-z0-9]/gi, '_')
      .toLowerCase()`: the sanitised identifier, or `entrevista`, which
      sanitising leaves as it is, when the identifier is empty. */
  function FilenameIdentifier(identifier: string): (r: string)
    ensures identifier != "" ==> r == Sanitised(identifier)
    ensures identifier == "" ==> r == "entrevista"
    ensures r != []
  {
    if identifier == "" then
      EntrevistaIsSanitised();
      Sanitised("entrevista")
    else
      assert Utf16Length(identifier) > 0;
      Sanitised(identifier)
  }

  /** A text made only of `[a-z0-9_]` is left as it is by sanitising. */
  lemma SanitisedKeepsFilenameChars(s: string)
    requires forall k :: 0 <= k < |s| ==> IsFilenameChar(s[k])
    ensures Sanitised(s) == s
  {
    var r := Sanitised(s);
    forall k | 0 <= k < |s| ensures !IsAstral(s[k]) {
      assert IsFilenameChar(s[k]);
    }
    forall k | 0 <= k < |s| ensures r[k] == s[k] {
      assert IsFilenameChar(s[k]);
    }
  }

  /** The fallback name needs no sanitising. */
  lemma EntrevistaIsSanitised()
    ensures Sanitised("entrevista") == "entrevista"
  {
    var s := "entrevista";
    assert forall k :: 0 <= k < |s| ==> 'a' <= s[k] <= 'z';
    SanitisedKeepsFilenameChars(s);
  }

  /** A character outside the Basic Multilingual Plane becomes two `_`, as
      the two code units of its surrogate pair do in the source. */
  lemma AstralBecomesTwoUnderscores()
    ensures FilenameIdentifier("a\U{1F600}") == "a__"
  {
    UnderscoredAppend("a", "\U{1F600}");
  }

  /** A sanitised identifier is left as it is by a second sanitising. */
  lemma FilenameIdentifierIdempotent(identifier: string)
    ensures FilenameIdentifier(FilenameIdentifier(identifier)) == FilenameIdentifier(identifier)
  {
    SanitisedKeepsFilenameChars(FilenameIdentifier(identifier));
  }

  datatype ExportFormat = Markdown | PlainText

  datatype ExportFile = ExportFile(filename: string, mimeType: string, content: string)

  function Extension(format: ExportFormat): string {
    match format
    case Markdown => "md"
    case PlainText => "txt"
  }

  /** `handleExportTranscription(format)`: nothing for a blank transcript;
      otherwise a file named after the sanitised identifier whose content is
      a header with the identifier (or `Entrevista`) and the start time,
      followed by the transcript itself. */
  function ExportTranscription(transcription: string, identifier: string, startTime: string, format: ExportFormat): (r: Option<ExportFile>)
    ensures r.Some? <==> Trim(transcription) != ""
    ensures r.Some? ==> r.value.filename == "transcricao_" + FilenameIdentifier(identifier) + "." + Extension(format)
    ensures r.Some? ==> |transcription| <= |r.value.content|
                        && r.value.content[|r.value.content| - |transcription|..] == transcription
  {
    if Trim(transcription) == "" then None
    else
      var title := if identifier != "" then identifier else "Entrevista";
      var filename := "transcricao_" + FilenameIdentifier(identifier) + "." + Extension(format);
      match format
      case Markdown =>
        Some(ExportFile(filename, "text/markdown",
          "# Transcrição: " + title + "\n\n**Início:** " + startTime + "\n\n---\n\n" + transcription))
      case PlainText =>
        Some(ExportFile(filename, "text/plain",
          "Transcrição: " + title + "\nInício: " + startTime + "\n\n-----------------\n\n" + transcription))
  }

  // ----- CSV of the first-cycle codes -----

  /** `s.replace(/"/g, '""')`. */
  function CsvEscape(s: string): (r: string)
    ensures |r| >= |s|
  {
    if s == [] then []
    else (if s[0] == '"' then "\"\"" else [s[0]]) + CsvEscape(s[1..])
  }

  /** The reading of a quoted CSV field's inside: a doubled quote stands for
      one quote. */
  function CsvUnescape(s: string): string
    decreases |s|
  {
    if s == [] then []
    else if |s| >= 2 && s[0] == '"' && s[1] == '"' then "\"" + CsvUnescape(s[2..])
    else [s[0]] + CsvUnescape(s[1..])
  }

  function QuoteCount(s: string): nat {
    if s == [] then 0 else (if s[0] == '"' then 1 else 0) + QuoteCount(s[1..])
  }

  /** Escaping doubles every quote and nothing else: a CSV reader gets the
      field back, and the field grows by one character per quote. */
  lemma {:induction false} CsvEscapeRoundTrip(s: string)
    ensures CsvUnescape(CsvEscape(s)) == s
    ensures |CsvEscape(s)| == |s| + QuoteCount(s)
    decreases |s|
  {
    if s != [] {
      CsvEscapeRoundTrip(s[1..]);
      var rest := CsvEscape(s[1..]);
      if s[0] == '"' {
        assert ("\"\"" + rest)[2..] == rest;
      } else {
        assert ([s[0]] + rest)[1..] == rest;
      }
      assert [s[0]] + s[1..] == s;
    }
  }

  lemma {:induction false} CsvEscapeNewlineFree(s: string)
    requires '\n' !in s
    ensures '\n' !in CsvEscape(s)
    decreases |s|
  {
    if s != [] {
      assert s[0] in s;
      assert forall c :: c in s[1..] ==> c in s;
      CsvEscapeNewlineFree(s[1..]);
    }
  }

  const CsvHeaderLine := "\"Tipo\",\"Código\",\"Citação\""

  /** One row: the type as it is, then the code and the quote with their
      quotes doubled, each in double quotes. */
  function CsvRow(c: FirstCycleCode): string {
    "\"" + CodeTypeName(c.codeType) + "\",\"" + CsvEscape(c.code) + "\",\"" + CsvEscape(c.quote) + "\""
  }

  function CsvRows(codes: seq<FirstCycleCode>): (r: seq<string>)
    ensures |r| == |codes| && forall k :: 0 <= k < |codes| ==> r[k] == CsvRow(codes[k])
  {
    seq(|codes|, k requires 0 <= k < |codes| => CsvRow(codes[k]))
  }

  /** `handleExportCodesToCSV`: nothing without codes, otherwise the header
      line and then the rows joined by newlines. */
  function CodesCsv(codes: seq<FirstCycleCode>): (r: Option<string>)
    ensures r.Some? <==> codes != []
  {
    if codes == [] then None
    else Some(CsvHeaderLine + "\n" + Join(CsvRows(codes), "\n"))
  }

  lemma CsvRowNewlineFree(c: FirstCycleCode)
    requires '\n' !in c.code && '\n' !in c.quote
    ensures '\n' !in CsvRow(c)
  {
    CsvEscapeNewlineFree(c.code);
    CsvEscapeNewlineFree(c.quote);
    assert '\n' !in CodeTypeName(c.codeType);
  }

  /** When no code or quote spans lines, the CSV has the header line and then
      exactly one line per code, in order. */
  lemma CsvHasOneLinePerCode(codes: seq<FirstCycleCode>)
    requires codes != []
    requires forall k :: 0 <= k < |codes| ==> '\n' !in codes[k].code && '\n' !in codes[k].quote
    ensures Split(CodesCsv(codes).value) == [CsvHeaderLine] + CsvRows(codes)
  {
    var rows := CsvRows(codes);
    forall k | 0 <= k < |rows| ensures '\n' !in rows[k] {
      CsvRowNewlineFree(codes[k]);
    }
    HeaderThenLines(CsvHeaderLine, rows);
  }

  /** A newline-free header, a newline and newline-free lines joined by
      newlines split back into the header and the lines. */
  lemma HeaderThenLines(header: string, lines: seq<string>)
    requires '\n' !in header && lines != []
    requires forall k :: 0 <= k < |lines| ==> '\n' !in lines[k]
    ensures Split(header + "\n" + Join(lines, "\n")) == [header] + lines
  {
    SplitJoin(lines);
    var body := "\n" + Join(lines, "\n");
    assert body[1..] == Join(lines, "\n");
    assert Split(body) == [""] + lines;
    SplitPrefix(header, body);
    assert header + "\n" + Join(lines, "\n") == header + body;
    assert header + "" == header;
  }
}
