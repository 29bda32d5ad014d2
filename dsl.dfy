/**
 * What the language services see of the stream and task DSL parsers. The grammars
 * themselves are not part of this model: a parser is a function parameter returning
 * either a node or a parse error, and the nodes keep only the fields the services read.
 */
module Dsl {
  import opened Wrappers
  import opened Ranges

  /** A ParseException: its message and the offset in the parsed text where it arose. */
  datatype ParseError = ParseError(message: string, position: nat)

  datatype ParseOutcome<N> = Parsed(node: N) | Failed(error: ParseError)

  /** A `--name=value` option of an app, with its offsets in the definition line. */
  datatype ArgumentNode = ArgumentNode(name: string, startPos: nat, endPos: nat)

  datatype AppNode = AppNode(name: string, startPos: nat, endPos: nat, arguments: seq<ArgumentNode>)

  /** The destination a stream reads from (`:stream.app > ...`), as offsets in the stream text. */
  datatype DestinationNode = DestinationNode(startPos: nat, endPos: nat)

  datatype StreamNodeData = StreamNodeData(
    name: Option<string>,
    streamText: string,
    startPos: nat,
    endPos: nat,
    apps: seq<AppNode>,
    sourceDestination: Option<DestinationNode>)

  /**
   * A parsed stream. The parser only hands out offsets inside the text it parsed, which is
   * what the services rely on when they take substrings of the stream text.
   */
  type StreamNode = n: StreamNodeData
    | n.startPos <= |n.streamText|
      && (n.sourceDestination.Some? ==>
            n.sourceDestination.value.startPos <= n.sourceDestination.value.endPos <= |n.streamText|)
    witness StreamNodeData(None, "", 0, 0, [], None)

  /** A parsed task definition: its name, the composed-task text and its offsets. */
  datatype TaskNode = TaskNode(name: Option<string>, taskText: string, startPos: nat, endPos: nat)

  /** A reconcile problem: an error message anchored at a document range. */
  datatype Problem = Problem(message: string, range: Range)
}
