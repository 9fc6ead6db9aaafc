/** The event handlers that start scans. A save starts one only for the two supported
    languages; the scan command starts one for the active document whatever its
    language, and does nothing when no editor is active. A completed scan's results
    go to the diagnostic collection. The scanner's run is given as the stream events
    it produced for the file; the rule directory is given as a path. */
module Extension {

  import opened Wrappers
  import opened Editor
  import opened Scanner
  import opened Diagnostics

  const SupportedLanguages := ["javascript", "python"]

  /** The language ids that saves, hovers and quick fixes are registered for. */
  function IsSupportedLanguage(languageId: string): (b: bool)
    ensures b <==> languageId == "javascript" || languageId == "python"
  {
    languageId in SupportedLanguages
  }

  /** The results a scan of these events would report. */
  function ScanReport(events: seq<StreamEvent>, parse: string -> Option<ParsedOutput>): seq<RawResult>
  {
    ScanOutcome(parse(StdoutText(events)))
  }

  /** The collection after a scan of `doc` reporting `results` has completed: the
      document's diagnostics alone, or nothing if converting them threw. */
  function AfterScan(doc: TextDocument, results: seq<RawResult>): map<Uri, seq<Diagnostic>>
  {
    if AllDisplayable(results) then map[doc.uri := Normalize(results)] else map[]
  }

  /** Scans the document and shows the results; returns the scanner's arguments. */
  method ScanAndShow(collection: DiagnosticCollection, doc: TextDocument, rulesDir: string,
                     events: seq<StreamEvent>, parse: string -> Option<ParsedOutput>)
    returns (arguments: seq<string>)
    modifies collection
    ensures arguments == SemgrepArguments(doc.fileName, rulesDir)
    ensures collection.Valid()
    ensures collection.entries == AfterScan(doc, ScanReport(events, parse))
  {
    arguments := SemgrepArguments(doc.fileName, rulesDir);
    var results := ScanWithSemgrep(events, parse);
    var thrown := ShowDiagnostics(collection, results, doc);
  }

  /** The save handler: a scan (its arguments returned) exactly for a supported
      language, whose outcome then replaces the collection's contents; otherwise nothing changes. */
  method OnDidSaveTextDocument(collection: DiagnosticCollection, doc: TextDocument, rulesDir: string,
                               events: seq<StreamEvent>, parse: string -> Option<ParsedOutput>)
    returns (invocation: Option<seq<string>>)
    modifies collection
    ensures invocation.Some? <==> IsSupportedLanguage(doc.languageId)
    ensures invocation.Some? ==> invocation.value == SemgrepArguments(doc.fileName, rulesDir) &&
                                 collection.Valid() &&
                                 collection.entries == AfterScan(doc, ScanReport(events, parse))
    ensures invocation.None? ==> collection.entries == old(collection.entries)
  {
    if doc.languageId in SupportedLanguages {
      var arguments := ScanAndShow(collection, doc, rulesDir, events, parse);
      invocation := Some(arguments);
    } else {
      invocation := None;
    }
  }

  /** The scan command: no active editor means no scan and no change; otherwise the
      active document is scanned, whatever its language. */
  method ScanCurrentFile(collection: DiagnosticCollection, activeEditor: Option<TextDocument>, rulesDir: string,
                         events: seq<StreamEvent>, parse: string -> Option<ParsedOutput>)
    returns (invocation: Option<seq<string>>)
    modifies collection
    ensures invocation.Some? <==> activeEditor.Some?
    ensures activeEditor.Some? ==> invocation.value == SemgrepArguments(activeEditor.value.fileName, rulesDir) &&
                                   collection.Valid() &&
                                   collection.entries == AfterScan(activeEditor.value, ScanReport(events, parse))
    ensures activeEditor.None? ==> collection.entries == old(collection.entries)
  {
    if activeEditor.None? {
      return None;
    }
    var doc := activeEditor.value;
    var arguments := ScanAndShow(collection, doc, rulesDir, events, parse);
    invocation := Some(arguments);
  }
}
