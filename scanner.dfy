/** What the extension does with the scanner process's output: it accumulates the
    standard-output chunks as they arrive, parses the text once the process closes,
    and falls back to "no results" when the text does not parse or has no `results`. */
module Scanner {

  import opened Wrappers

  /** A one-based location as the scanner reports it. */
  datatype RawPosition = RawPosition(line: int, col: int)

  /** The `extra` object of a scanner result; its `message` may be absent. */
  datatype RawExtra = RawExtra(message: Option<string>)

  /** One entry of the scanner's `results` array. */
  datatype RawResult = RawResult(start: RawPosition, end: RawPosition, checkId: string, extra: Option<RawExtra>)

  /** The parsed top-level object; its `results` field may be absent. */
  datatype ParsedOutput = ParsedOutput(results: Option<seq<RawResult>>)

  /** A chunk the process wrote, on standard output or on standard error. */
  datatype StreamEvent = Stdout(data: string) | Stderr(data: string)

  /** The process's command-line arguments: rule directory, structured output, target file. */
  function SemgrepArguments(filePath: string, rulesDir: string): seq<string>
  {
    ["--config", rulesDir, "--json", filePath]
  }

  /** The standard-output text of a run: its stdout chunks in arrival order; stderr is dropped. */
  function StdoutText(events: seq<StreamEvent>): string
    decreases |events|
  {
    if events == [] then ""
    else
      var last := events[|events| - 1];
      StdoutText(events[..|events| - 1]) + (if last.Stdout? then last.data else "")
  }

  /** The text of a run split in two is the text of the first part followed by that of the second. */
  lemma {:induction false} StdoutTextConcat(a: seq<StreamEvent>, b: seq<StreamEvent>)
    ensures StdoutText(a + b) == StdoutText(a) + StdoutText(b)
  {
    if b == [] {
      assert a + b == a;
    } else {
      var init := b[..|b| - 1];
      assert (a + b)[..|a + b| - 1] == a + init;
      StdoutTextConcat(a, init);
    }
  }

  /** The `data` callbacks: `output += data` for every stdout chunk, nothing for stderr. */
  method CollectOutput(events: seq<StreamEvent>) returns (output: string)
    ensures output == StdoutText(events)
  {
    output := "";
    for i := 0 to |events|
      invariant output == StdoutText(events[..i])
    {
      assert events[..i + 1][..i] == events[..i];
      if events[i].Stdout? {
        output := output + events[i].data;
      }
    }
    assert events[..|events|] == events;
  }

  /** `result.results || []` inside the `try`, with a failed parse caught as `[]`:
      results are reported only when the text parsed and carried a `results` field. */
  function ScanOutcome(parsed: Option<ParsedOutput>): (results: seq<RawResult>)
    ensures results != [] ==> parsed == Some(ParsedOutput(Some(results)))
    ensures parsed.Some? && parsed.value.results.Some? ==> results == parsed.value.results.value
  {
    match parsed
    case None => []
    case Some(p) =>
      match p.results
      case None => []
      case Some(rs) => rs
  }

  /** The non-I/O part of a scan: accumulate stdout until close, parse it, apply the fallback.
      `parse` stands for the JSON parser, `None` for a parse that throws. */
  method ScanWithSemgrep(events: seq<StreamEvent>, parse: string -> Option<ParsedOutput>) returns (results: seq<RawResult>)
    ensures results == ScanOutcome(parse(StdoutText(events)))
    ensures parse(StdoutText(events)).None? ==> results == []
  {
    var output := CollectOutput(events);
    results := ScanOutcome(parse(output));
  }
}
