/** The hover provider: the remediation hint of the first stored diagnostic whose
    range contains the hovered position. */
module Hover {

  import opened Wrappers
  import opened Editor
  import opened Diagnostics

  const SecretHint := "Remediation: " + "Use environment variables for secrets."
  const AuthorizationHint := "Remediation: " + "Add authorization checks."

  /** `get(document.uri) || []`. */
  function StoredDiagnostics(collection: DiagnosticCollection, uri: Uri): seq<Diagnostic>
    reads collection
  {
    match collection.Get(uri)
    case Some(ds) => ds
    case None => []
  }

  /** The secret-specific hint for hardcoded secrets, the authorization hint for any other code. */
  function HintFor(code: string): string
  {
    if code == HardcodedSecretCheck then SecretHint else AuthorizationHint
  }

  /** Nothing when no stored range contains the position; otherwise the hint chosen by
      the code of the first stored diagnostic whose range does. */
  method ProvideHover(collection: DiagnosticCollection, document: TextDocument, position: Position)
    returns (hover: Option<string>)
    ensures var ds := StoredDiagnostics(collection, document.uri);
      hover.None? <==> forall j :: 0 <= j < |ds| ==> !Contains(ds[j].range, position)
    ensures var ds := StoredDiagnostics(collection, document.uri);
      hover.Some? ==> exists k :: 0 <= k < |ds| && Contains(ds[k].range, position) &&
                                  (forall j :: 0 <= j < k ==> !Contains(ds[j].range, position)) &&
                                  hover.value == (if ds[k].code == HardcodedSecretCheck then SecretHint else AuthorizationHint)
  {
    var diagnostics := StoredDiagnostics(collection, document.uri);
    var i := 0;
    while i < |diagnostics|
      invariant 0 <= i <= |diagnostics|
      invariant forall j :: 0 <= j < i ==> !Contains(diagnostics[j].range, position)
    {
      var diag := diagnostics[i];
      if Contains(diag.range, position) {
        return Some(HintFor(diag.code));
      }
      i := i + 1;
    }
    return None;
  }
}
