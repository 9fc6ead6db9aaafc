/** The parts of the editor host's API that the extension relies on, as values.
    These are assumptions about the host, not code of the extension:
    - a position is a zero-based (line, character) pair and cannot be negative;
    - constructing a range from two positions puts the earlier one first;
    - a range contains a position when start <= position <= end, compared
      lexicographically, both ends included. */
module Editor {

  type Uri = string

  datatype Position = Position(line: nat, character: nat)

  /** Lexicographic order on positions: `a` is before or equal to `b`. */
  predicate BeforeOrEqual(a: Position, b: Position)
  {
    a.line < b.line || (a.line == b.line && a.character <= b.character)
  }

  datatype Range = Range(start: Position, end: Position)

  /** A range as the host stores it: its start is not after its end. */
  predicate WellFormed(r: Range)
  {
    BeforeOrEqual(r.start, r.end)
  }

  /** The host's range constructor: the two positions in order. */
  function MakeRange(a: Position, b: Position): (r: Range)
    ensures WellFormed(r)
    ensures multiset{r.start, r.end} == multiset{a, b}
  {
    if BeforeOrEqual(a, b) then Range(a, b) else Range(b, a)
  }

  /** Inclusive containment, `r.start <= p <= r.end`. */
  predicate Contains(r: Range, p: Position)
  {
    BeforeOrEqual(r.start, p) && BeforeOrEqual(p, r.end)
  }

  datatype Severity = Error | Warning | Information | Hint

  datatype Diagnostic = Diagnostic(range: Range, message: string, severity: Severity, code: string, source: string)

  datatype TextDocument = TextDocument(uri: Uri, fileName: string, languageId: string)
}
