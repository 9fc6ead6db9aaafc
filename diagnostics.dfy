/** The finding normaliser and the diagnostic collection it writes into. Raw scanner
    results (one-based spans, nested message) become editor diagnostics (zero-based
    ranges, flat fields), and a scan's list replaces the collection's whole contents. */
module Diagnostics {

  import opened Wrappers
  import opened Editor
  import opened Scanner

  /** The collection's name, also the `source` of every diagnostic it holds. */
  const DiagnosticSource := "secureplugin"

  /** The check id for which a quick fix and the secret-specific hint exist. */
  const HardcodedSecretCheck := "hardcoded-secret"

  /** A raw result the normaliser turns into a diagnostic without throwing: `extra` is
      present (reading `extra.message` of an absent `extra` throws), every coordinate is
      one-based (the host refuses a negative position), and the text `message || check_id`
      is not empty (the host refuses a diagnostic without a message). */
  predicate Displayable(r: RawResult)
  {
    r.extra.Some? && r.start.line >= 1 && r.start.col >= 1 && r.end.line >= 1 && r.end.col >= 1 &&
    MessageOf(r) != ""
  }

  predicate AllDisplayable(results: seq<RawResult>)
  {
    forall i :: 0 <= i < |results| ==> Displayable(results[i])
  }

  function ZeroBased(p: RawPosition): Position
    requires p.line >= 1 && p.col >= 1
  {
    Position(p.line - 1, p.col - 1)
  }

  function OneBased(p: Position): RawPosition
  {
    RawPosition(p.line + 1, p.character + 1)
  }

  /** The raw span is given start first. */
  predicate StartsFirst(r: RawResult)
    requires Displayable(r)
  {
    BeforeOrEqual(ZeroBased(r.start), ZeroBased(r.end))
  }

  /** `r.extra.message || r.check_id`. */
  function MessageOf(r: RawResult): string
    requires r.extra.Some?
  {
    match r.extra.value.message
    case Some(m) => if m != "" then m else r.checkId
    case None => r.checkId
  }

  /** One raw result as a diagnostic: each coordinate moved down by one, the message
      or else the check id as text, the check id as code, severity Warning. */
  function ToDiagnostic(r: RawResult): (d: Diagnostic)
    requires Displayable(r)
    ensures WellFormed(d.range)
    ensures StartsFirst(r) ==> OneBased(d.range.start) == r.start && OneBased(d.range.end) == r.end
    ensures !StartsFirst(r) ==> OneBased(d.range.start) == r.end && OneBased(d.range.end) == r.start
    ensures r.extra.value.message.Some? && r.extra.value.message.value != "" ==> d.message == r.extra.value.message.value
    ensures r.extra.value.message.None? || r.extra.value.message.value == "" ==> d.message == r.checkId
    ensures d.code == r.checkId && d.severity == Warning && d.source == DiagnosticSource
    ensures d.message != ""
  {
    var range := MakeRange(ZeroBased(r.start), ZeroBased(r.end));
    Diagnostic(range, MessageOf(r), Warning, r.checkId, DiagnosticSource)
  }

  /** The diagnostics for a list of raw results: one per result, in the same order. */
  function Normalize(results: seq<RawResult>): (ds: seq<Diagnostic>)
    requires AllDisplayable(results)
    ensures |ds| == |results|
    ensures forall i :: 0 <= i < |results| ==> ds[i] == ToDiagnostic(results[i])
    decreases |results|
  {
    if results == [] then []
    else Normalize(results[..|results| - 1]) + [ToDiagnostic(results[|results| - 1])]
  }

  /** Extending the converted prefix by one result extends its diagnostics by that result's. */
  lemma NormalizePrefix(results: seq<RawResult>, i: nat)
    requires i < |results| && AllDisplayable(results[..i]) && Displayable(results[i])
    ensures AllDisplayable(results[..i + 1])
    ensures Normalize(results[..i + 1]) == Normalize(results[..i]) + [ToDiagnostic(results[i])]
  {
    assert results[..i + 1][..i] == results[..i];
  }

  /** The scenario of a hardcoded secret reported on line 5, columns 10 to 25. */
  lemma SecretFindingExample()
    ensures
      var raw := RawResult(RawPosition(5, 10), RawPosition(5, 25), "hardcoded-secret", Some(RawExtra(Some("API key literal"))));
      Normalize([raw]) == [Diagnostic(Range(Position(4, 9), Position(4, 24)), "API key literal", Warning, "hardcoded-secret", "secureplugin")]
  {
  }

  /** The editor's diagnostic collection: a map from document to its diagnostics. */
  class DiagnosticCollection {
    const name: string
    var entries: map<Uri, seq<Diagnostic>>

    /** Every stored range is well-formed. This records a guarantee of the host, whose
        ranges always have their start first; no operation of the extension depends on it. */
    ghost predicate Valid()
      reads this
    {
      forall u :: u in entries ==> forall d :: d in entries[u] ==> WellFormed(d.range)
    }

    constructor (name: string)
      ensures Valid()
      ensures this.name == name && entries == map[]
    {
      this.name := name;
      entries := map[];
    }

    /** The document's diagnostics, or `None` when the collection has no entry for it. */
    function Get(uri: Uri): (r: Option<seq<Diagnostic>>)
      reads this
      ensures r.Some? <==> uri in entries
      ensures r.Some? ==> r.value == entries[uri]
    {
      if uri in entries then Some(entries[uri]) else None
    }

    /** Removes every document's entry. */
    method Clear()
      modifies this
      ensures Valid()
      ensures entries == map[]
    {
      entries := map[];
    }

    /** Stores a document's list, replacing any earlier one for it. */
    method Set(uri: Uri, diagnostics: seq<Diagnostic>)
      requires Valid()
      requires forall d :: d in diagnostics ==> WellFormed(d.range)
      modifies this
      ensures Valid()
      ensures entries == old(entries)[uri := diagnostics]
    {
      entries := entries[uri := diagnostics];
    }
  }

  /** Clears the whole collection, then builds the document's diagnostics and stores
      them: afterwards the document has exactly the new list and no other document has
      any. A result the normaliser cannot convert throws (`thrown`) after the clear, so
      the collection is then left empty. */
  method ShowDiagnostics(collection: DiagnosticCollection, results: seq<RawResult>, doc: TextDocument)
    returns (thrown: bool)
    modifies collection
    ensures collection.Valid()
    ensures thrown <==> !AllDisplayable(results)
    ensures !thrown ==> collection.entries == map[doc.uri := Normalize(results)]
    ensures !thrown ==> collection.Get(doc.uri) == Some(Normalize(results))
    ensures thrown ==> collection.entries == map[]
    ensures forall u :: u != doc.uri ==> collection.Get(u).None?
  {
    collection.Clear();
    var diagnostics: seq<Diagnostic> := [];
    for i := 0 to |results|
      invariant collection.entries == map[]
      invariant AllDisplayable(results[..i])
      invariant diagnostics == Normalize(results[..i])
    {
      if !Displayable(results[i]) {
        assert !AllDisplayable(results) by {
          assert !Displayable(results[i]);
        }
        return true;
      }
      NormalizePrefix(results, i);
      diagnostics := diagnostics + [ToDiagnostic(results[i])];
    }
    assert results[..|results|] == results;
    assert AllDisplayable(results);
    forall d | d in diagnostics ensures WellFormed(d.range) {
      var k :| 0 <= k < |diagnostics| && diagnostics[k] == d;
      assert d == ToDiagnostic(results[k]);
    }
    collection.Set(doc.uri, diagnostics);
    thrown := false;
  }

  /** Two completed scans in a row: only the later one's diagnostics remain, for the
      same document (replaced, not merged) and for another one (cleared) alike; a later
      scan that throws leaves nothing at all. */
  method ShowTwice(collection: DiagnosticCollection, first: seq<RawResult>, firstDoc: TextDocument,
                   second: seq<RawResult>, secondDoc: TextDocument)
    modifies collection
    ensures collection.Valid()
    ensures AllDisplayable(second) ==> collection.entries == map[secondDoc.uri := Normalize(second)]
    ensures !AllDisplayable(second) ==> collection.entries == map[]
    ensures firstDoc.uri != secondDoc.uri ==> collection.Get(firstDoc.uri).None?
  {
    var thrownFirst := ShowDiagnostics(collection, first, firstDoc);
    var thrownSecond := ShowDiagnostics(collection, second, secondDoc);
  }
}
