/** The quick-fix provider: one "replace with an environment variable" action for each
    hardcoded-secret diagnostic in the request's context. */
module CodeActions {

  import opened Editor
  import opened Diagnostics
  import opened Seqs

  const FixTitle := "Replace with process.env.MY_SECRET"
  const SecretReplacement := "process.env.MY_SECRET"

  datatype CodeActionKind = QuickFix

  /** A workspace edit replacing one range of one document with new text. */
  datatype WorkspaceEdit = Replace(uri: Uri, range: Range, newText: string)

  datatype CodeAction = CodeAction(title: string, kind: CodeActionKind, edit: WorkspaceEdit,
                                   diagnostics: seq<Diagnostic>, isPreferred: bool)

  predicate IsSecretFinding(d: Diagnostic)
  {
    d.code == HardcodedSecretCheck
  }

  /** The fix offered for one diagnostic; it edits the requested range, not the diagnostic's. */
  function SecretFix(uri: Uri, range: Range, d: Diagnostic): CodeAction
  {
    CodeAction(FixTitle, QuickFix, Replace(uri, range, SecretReplacement), [d], true)
  }

  /** One preferred quick fix per hardcoded-secret diagnostic of the context, in order,
      each listing just that diagnostic and replacing the requested range. */
  method ProvideCodeActions(document: TextDocument, range: Range, contextDiagnostics: seq<Diagnostic>)
    returns (actions: seq<CodeAction>)
    ensures |actions| == |Filter(IsSecretFinding, contextDiagnostics)|
    ensures forall k :: 0 <= k < |actions| ==>
      actions[k] == SecretFix(document.uri, range, Filter(IsSecretFinding, contextDiagnostics)[k])
    ensures forall k :: 0 <= k < |actions| ==>
      actions[k].isPreferred && actions[k].kind == QuickFix &&
      |actions[k].diagnostics| == 1 && actions[k].diagnostics[0].code == HardcodedSecretCheck &&
      actions[k].edit == Replace(document.uri, range, SecretReplacement)
  {
    actions := [];
    for i := 0 to |contextDiagnostics|
      invariant |actions| == |Filter(IsSecretFinding, contextDiagnostics[..i])|
      invariant forall k :: 0 <= k < |actions| ==>
        actions[k] == SecretFix(document.uri, range, Filter(IsSecretFinding, contextDiagnostics[..i])[k])
    {
      FilterPrefix(IsSecretFinding, contextDiagnostics, i);
      var diag := contextDiagnostics[i];
      if diag.code == HardcodedSecretCheck {
        actions := actions + [SecretFix(document.uri, range, diag)];
      }
    }
    assert contextDiagnostics[..|contextDiagnostics|] == contextDiagnostics;
    var fixed := Filter(IsSecretFinding, contextDiagnostics);
    forall k | 0 <= k < |fixed| ensures IsSecretFinding(fixed[k]) {
      assert fixed[k] in fixed;
    }
  }

  /** A diagnostic is offered a fix exactly when its code is the hardcoded-secret check;
      a context without such a diagnostic gets no action at all. */
  lemma FixedDiagnosticsAreSecrets(ds: seq<Diagnostic>, d: Diagnostic)
    ensures d in Filter(IsSecretFinding, ds) <==> d in ds && d.code == HardcodedSecretCheck
    ensures Filter(IsSecretFinding, ds) == [] <==> forall i :: 0 <= i < |ds| ==> ds[i].code != HardcodedSecretCheck
  {
    FilterMembership(IsSecretFinding, ds, d);
    FilterEmpty(IsSecretFinding, ds);
  }
}
