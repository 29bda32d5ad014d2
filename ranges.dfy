/** Zero-based document positions and ranges, and the line ranges the services build from them. */
module Ranges {
  datatype Position = Position(line: nat, character: nat)

  datatype Range = Range(start: Position, end: Position)

  /** `p` is at or before `q`. */
  predicate NotAfter(p: Position, q: Position)
  {
    p.line < q.line || (p.line == q.line && p.character <= q.character)
  }

  /** A position is inside a range when it lies between its ends, both ends included. */
  predicate InRange(p: Position, r: Range)
  {
    NotAfter(r.start, p) && NotAfter(p, r.end)
  }

  /** The whole of line `line`: from column 0 to the end of its content. */
  function LineRange(doc: seq<string>, line: nat): (r: Range)
    requires line < |doc|
    ensures r.start.line == r.end.line == line
    ensures r.start.character == 0 && r.end.character == |doc[line]|
  {
    Range(Position(line, 0), Position(line, |doc[line]|))
  }

  /** An empty range at one position, as problems reported at a parser offset use. */
  function PointRange(line: nat, character: nat): (r: Range)
    ensures r.start == r.end && InRange(r.start, r)
  {
    Range(Position(line, character), Position(line, character))
  }

  /** A range from the start of `from` to the end of `to`. */
  function RangeExtend(from: Range, to: Range): (r: Range)
    ensures r.start == from.start && r.end == to.end
  {
    Range(from.start, to.end)
  }
}
