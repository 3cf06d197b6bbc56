/** The records the detectors return. A record is created once and never changed. */
module Findings {
  import opened JavaSyntax

  /** A finding located by a name and the line the detector reads for it
      (boolean, non-void, private and private static methods; numeric and boolean
      variables; method arguments; method calls). */
  datatype NamedLine = NamedLine(name: string, line: Line)

  /** A finding that also names a class (member variables, methods, variables). */
  datatype ClassMember = ClassMember(className: string, name: string, line: Line)

  /** A non-empty diamond: first and last line, -1 where the node has no position. */
  datatype LineSpan = LineSpan(startLine: int, endLine: int)

  /** A chained call: the lines of the call whose receiver is a call, -1 where
      unknown, and that call printed back as source text. */
  datatype ChainedCall = ChainedCall(startLine: int, endLine: int, methodCall: string)

  /** A string literal: its first line and its value as parsed. */
  datatype LiteralAt = LiteralAt(line: Line, value: string)

  /** The lines of a node's range, with the -1 sentinel for a missing end of it. */
  function SpanOf(n: Node): LineSpan
  {
    LineSpan(LineOrSentinel(n.begin), LineOrSentinel(n.end))
  }

  /** Every node whose range is known at both ends starts no later than it ends. */
  predicate RangesOrdered(ns: seq<Node>)
  {
    forall n <- ns :: n.begin.Some? && n.end.Some? ==> n.begin.value <= n.end.value
  }
}
