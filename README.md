# secureplugin diagnostic core, modelled in Dafny

The `secureplugin` editor extension runs the `semgrep` scanner on a source file and
turns the scanner's findings into editor diagnostics. For hardcoded secrets it offers
a quick fix, and on hover it shows a remediation hint. It can also append a security
reminder to a prompt. This project models the deterministic core of
`src/extension.ts`, with the editor's types (`Range`, `Diagnostic`, the diagnostic
collection, code actions, hovers) written as Dafny values:

- `Scanner` (scanner.dfy): the scanner's raw records. Its standard-output chunks are
  accumulated in arrival order and standard error is dropped. The text is parsed once
  the process closes. A parse that throws, or a parsed object without `results`,
  gives no results.
- `Diagnostics` (diagnostics.dfy): the normaliser, which turns one-based spans into
  zero-based ranges and uses `message || check_id` as the text. It also holds the
  diagnostic collection as a class over a map from document URI to diagnostics, and
  `ShowDiagnostics`, which clears the whole collection and then sets one document's
  list.
- `CodeActions` (code_actions.dfy): one preferred quick fix per `hardcoded-secret`
  diagnostic. Each fix replaces the requested range with `process.env.MY_SECRET`.
- `Hover` (hover.dfy): the hint chosen by the first stored diagnostic whose range
  contains the position.
- `Prompt` (prompt.dfy): `enrichPrompt`, the enrich-prompt command, and the change
  handler that enriches every content change containing `// prompt:`.
- `Extension` (extension.dfy): saves start a scan only for `javascript` and
  `python`. The scan command scans the active document whatever its language, and
  does nothing without an active editor.
- `Editor` (editor.dfy) states what the model assumes about the host:
  - positions are zero-based and never negative;
  - the range constructor swaps reversed endpoints;
  - `Range.contains(p)` is inclusive lexicographic containment, `start <= p <= end`.
- `Seqs` (seqs.dfy) and `Wrappers` (wrappers.dfy) are helpers: an order-preserving
  filter with its lemmas, and `Option`.

The JSON parser is a parameter `parse: string -> Option<ParsedOutput>`, where `None`
stands for a parse that throws. The scanner's run is a parameter too: the sequence of
stdout/stderr events it produced. The rule directory is a path parameter.

`showDiagnostics` calls `clear()` on the whole collection (src/extension.ts:40) before
it sets the scanned document's list (src/extension.ts:57). So scanning one document
also removes every other document's diagnostics (`ShowDiagnostics`, `ShowTwice`).
When a raw result cannot be converted, the conversion throws after that `clear()`,
and the collection is left empty; `ShowDiagnostics` reports this as `thrown`.

## Model

| member | source | states |
|---|---|---|
| `Prompt.EnrichPrompt` | src/extension.ts:6-12 | the result is the input followed by the fixed reminder suffix, for every input including the empty one; it is exactly the suffix's length longer |
| `Prompt.EnrichPromptCommand` | src/extension.ts:114-119 | a message is shown exactly when the input box returned a non-empty string, and it is `Enriched Prompt: ` + input + suffix |
| `Prompt.IncludesIff` | src/extension.ts:124 | the `includes` test used by the change handler holds exactly when the marker occurs at some offset of the text |
| `Prompt.OnDidChangeTextDocument` | src/extension.ts:121-129 | one `Enriched Prompt: ` + `enrichPrompt(text)` message per content change whose text contains `// prompt:`, in change order |
| `Prompt.PromptChangesSelected` | src/extension.ts:123-127 | a change gives a message exactly when it contains the marker; the messages for a batch are those of its first part followed by those of the rest |
| `Scanner.CollectOutput` | src/extension.ts:21-27 | the accumulated output is the concatenation of the stdout chunks in arrival order; stderr chunks add nothing |
| `Scanner.StdoutTextConcat` | src/extension.ts:22-24 | the output of a run is the output of its first events followed by that of the later ones |
| `Scanner.ScanOutcome` | src/extension.ts:29-34 | results are non-empty only when the text parsed and had a `results` field, and then they are exactly that field; an unparseable text or a missing field gives `[]` |
| `Scanner.ScanWithSemgrep` | src/extension.ts:21-34 | the scan's results are the fallback applied to the parse of the concatenated stdout; a failed parse gives `[]` |
| `Editor.MakeRange` | src/extension.ts:47 | the host range built from two positions holds the same two positions, earlier one first |
| `Diagnostics.ToDiagnostic` | src/extension.ts:43-54 | for a result with `extra`, one-based coordinates and a non-empty text (the message, or else the check id): each coordinate is reduced by one (adding one back gives the raw span); the text is `extra.message` when non-empty, else `check_id`, and never empty; the code is `check_id`, severity Warning, source `secureplugin` |
| `Diagnostics.Normalize` | src/extension.ts:41-56 | one diagnostic per raw result, in the same order, each the normalised form of its result |
| `Diagnostics.SecretFindingExample` | src/extension.ts:42-55 | a hardcoded secret at (5,10)-(5,25) with message "API key literal" becomes the diagnostic at (4,9)-(4,24) with that message |
| `Diagnostics.DiagnosticCollection.Get` | src/extension.ts:104 | a document has an entry exactly when the collection maps it, and the entry is the stored list |
| `Diagnostics.DiagnosticCollection.Clear` | src/extension.ts:40 | afterwards no document has an entry |
| `Diagnostics.DiagnosticCollection.Set` | src/extension.ts:57 | the document's entry becomes the new list and the other entries are unchanged |
| `Diagnostics.ShowDiagnostics` | src/extension.ts:39-58 | afterwards the document's entry is exactly the normalised results, and no other document has an entry; it throws exactly when some result cannot be converted, and the collection is then empty |
| `Diagnostics.ShowTwice` | src/extension.ts:39-58 | after two completed scans only the later scan's list remains, whether for the same document or another one; if the later one throws, nothing remains |
| `CodeActions.ProvideCodeActions` | src/extension.ts:60-73 | one action per context diagnostic with code `hardcoded-secret`, in order; each is a preferred quick fix that lists just that diagnostic and replaces the requested range with `process.env.MY_SECRET` |
| `CodeActions.FixedDiagnosticsAreSecrets` | src/extension.ts:62-63 | a diagnostic gets a fix exactly when its code is `hardcoded-secret`; with no such diagnostic there are no actions |
| `Hover.ProvideHover` | src/extension.ts:103-111 | nothing exactly when no stored range contains the position; otherwise the secret hint or the authorization hint, chosen by the code of the first stored diagnostic that contains it |
| `Extension.IsSupportedLanguage` | src/extension.ts:88-102 | true exactly for `javascript` and `python` |
| `Extension.OnDidSaveTextDocument` | src/extension.ts:94-100 | a scan happens exactly for a supported language, and its outcome then replaces the collection's contents; otherwise the collection is unchanged |
| `Extension.ScanCurrentFile` | src/extension.ts:79-86 | no active editor means no scan and no change; otherwise the active document is scanned, with no language check, and its outcome replaces the collection's contents |

## Left out

- Spawning `semgrep` and the process lifecycle (src/extension.ts:16-20, 28) are external process I/O. The run is given as its sequence of output events, and the command line as `SemgrepArguments`.
- `JSON.parse` is a foreign library function. It is the `parse` parameter. A top-level `null` counts as a parse failure, since reading `results` of it throws into the same `catch`. `parse` is assumed to give only well-typed records: a falsy `results` counts as absent, and a truthy non-array `results`, which `result.results || []` would pass on and `showDiagnostics` would fail to iterate, is not representable.
- The conversion of each stdout `Buffer` to a string (`data.toString()`) is not modelled. Chunks are given as strings, so a multi-byte character split across two chunks is not represented.
- `path.join(context.extensionPath, 'semgrep_rules')` is a library call. The rule directory is a parameter.
- Diagnostics.Displayable: the conversion of a raw result throws when `extra` is absent (reading `extra.message`), when a coordinate is below 1 (the host refuses a negative position), or when `message || check_id` is empty (the host refuses a diagnostic without a message). The model does not invent a fallback: `ShowDiagnostics` reports the throw and leaves the collection empty, as the source does after its `clear()`. How the exception then propagates out of the event handler is not modelled.
- Diagnostic codes are modelled as strings. A diagnostic from another extension whose code is a number or an object is outside the model.
- The UI surfaces are modelled only by the value they receive: the input box, the information messages, and the `Hover`, `CodeAction` and `WorkspaceEdit` objects.
- The registration and disposal plumbing in `activate`/`deactivate` (src/extension.ts:75-78, 88-92, 102, 132-134) is not modelled. Only the language allow-list survives from it. The host calls the hover and code-action providers only for the two supported languages; that dispatch is not modelled.
- Interleaving of two in-flight scans is not modelled. Each completed scan is one `ShowDiagnostics` call, and the one that completes last wins (`ShowTwice`).
- src/fixes.ts duplicates the edit of src/extension.ts:66 and is never called, so it is not part of this model. src/global.d.ts holds type declarations only.
