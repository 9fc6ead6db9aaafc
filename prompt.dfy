/** Prompt enrichment: a fixed security reminder appended to a prompt, shown either for
    text typed into the "enrich prompt" command or for every document change that
    writes a `// prompt:` marker. */
module Prompt {

  import opened Wrappers
  import opened Seqs

  const SecurePromptSuffix := " Ensure no hardcoded secrets, validate user input, use env vars for credentials."
  const PromptMarker := "// prompt:"
  const EnrichedPromptLabel := "Enriched Prompt: "

  /** The prompt followed by the reminder, for every prompt including the empty one. */
  function EnrichPrompt(text: string): (r: string)
    ensures |r| == |text| + |SecurePromptSuffix|
    ensures r[..|text|] == text
    ensures r[|text|..] == SecurePromptSuffix
  {
    text + SecurePromptSuffix
  }

  /** The information message shown for an enriched prompt. */
  function Notification(text: string): string
  {
    EnrichedPromptLabel + EnrichPrompt(text)
  }

  /** The enrich-prompt command: the message to show for what the input box returned
      (`None` when it was dismissed); an empty or dismissed input shows nothing. */
  function EnrichPromptCommand(input: Option<string>): (shown: Option<string>)
    ensures shown.Some? <==> input.Some? && input.value != ""
    ensures shown.Some? ==> shown.value == EnrichedPromptLabel + input.value + SecurePromptSuffix
  {
    if input.Some? && input.value != "" then Some(Notification(input.value)) else None
  }

  /** Whether `pattern` occurs in `s` (the string `includes` test). */
  function Includes(s: string, pattern: string): bool
    decreases |s|
  {
    if |s| < |pattern| then false
    else if s[..|pattern|] == pattern then true
    else Includes(s[1..], pattern)
  }

  /** `pattern` starts at offset `i` of `s`. */
  ghost predicate OccursAt(s: string, pattern: string, i: int)
  {
    0 <= i <= |s| - |pattern| && s[i..i + |pattern|] == pattern
  }

  /** `Includes` finds an occurrence exactly when there is one at some offset. */
  lemma {:induction false} IncludesIff(s: string, pattern: string)
    ensures Includes(s, pattern) <==> exists i :: OccursAt(s, pattern, i)
    decreases |s|
  {
    if |s| < |pattern| {
    } else if s[..|pattern|] == pattern {
      assert OccursAt(s, pattern, 0);
    } else {
      IncludesIff(s[1..], pattern);
      if exists i :: OccursAt(s, pattern, i) {
        var i :| OccursAt(s, pattern, i);
        assert i != 0;
        assert s[1..][i - 1..i - 1 + |pattern|] == s[i..i + |pattern|];
        assert OccursAt(s[1..], pattern, i - 1);
      }
      if Includes(s[1..], pattern) {
        var i :| OccursAt(s[1..], pattern, i);
        assert s[i + 1..i + 1 + |pattern|] == s[1..][i..i + |pattern|];
        assert OccursAt(s, pattern, i + 1);
      }
    }
  }

  /** One entry of a change event's `contentChanges`: the text it inserted. */
  datatype ContentChange = ContentChange(text: string)

  predicate WritesPrompt(change: ContentChange)
  {
    Includes(change.text, PromptMarker)
  }

  /** The change handler: one enriched-prompt message per change whose text holds the
      marker, in change order, and none for the other changes. */
  method OnDidChangeTextDocument(contentChanges: seq<ContentChange>) returns (shown: seq<string>)
    ensures |shown| == |Filter(WritesPrompt, contentChanges)|
    ensures forall k :: 0 <= k < |shown| ==> shown[k] == Notification(Filter(WritesPrompt, contentChanges)[k].text)
  {
    shown := [];
    for i := 0 to |contentChanges|
      invariant |shown| == |Filter(WritesPrompt, contentChanges[..i])|
      invariant forall k :: 0 <= k < |shown| ==> shown[k] == Notification(Filter(WritesPrompt, contentChanges[..i])[k].text)
    {
      FilterPrefix(WritesPrompt, contentChanges, i);
      var change := contentChanges[i];
      if Includes(change.text, PromptMarker) {
        var enriched := EnrichPrompt(change.text);
        shown := shown + [EnrichedPromptLabel + enriched];
      }
    }
    assert contentChanges[..|contentChanges|] == contentChanges;
  }

  /** The messages come from marker-bearing changes only, every such change gives one,
      and a batch of changes is handled as its two halves one after the other. */
  lemma PromptChangesSelected(a: seq<ContentChange>, b: seq<ContentChange>, c: ContentChange)
    ensures c in Filter(WritesPrompt, a) <==> c in a && Includes(c.text, PromptMarker)
    ensures Filter(WritesPrompt, a + b) == Filter(WritesPrompt, a) + Filter(WritesPrompt, b)
  {
    FilterMembership(WritesPrompt, a, c);
    FilterConcat(WritesPrompt, a, b);
  }
}
