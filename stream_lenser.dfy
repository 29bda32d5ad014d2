/**
 * The code lenses of a stream document: a deploy lens for each deployment block of an item,
 * then, for an item whose definition parsed, the create, destroy, deploy and undeploy lenses
 * on its definition line.
 */
module StreamLenser {
  import opened Wrappers
  import opened Text
  import opened Ranges
  import opened Dsl
  import opened Segmenter
  import opened SegmenterFacts
  import opened SegmenterShape
  import opened Metadata
  import opened Lenses
  import opened StreamService

  const DeployCommand := "vscode-spring-cloud-dataflow.streams.deploy"
  const DeployTitle := "Deploy Stream"
  const UndeployCommand := "vscode-spring-cloud-dataflow.streams.undeploy"
  const UndeployTitle := "Undeploy Stream"
  const CreateCommand := "vscode-spring-cloud-dataflow.streams.create"
  const CreateTitle := "Create Stream"
  const DestroyCommand := "vscode-spring-cloud-dataflow.streams.destroy"
  const DestroyTitle := "Destroy Stream"

  /** The argument of a stream command. */
  datatype StreamArguments =
    | DeployParams(name: Option<string>, environment: Option<string>, properties: map<string, string>)
    | CreateParams(name: Option<string>, environment: Option<string>, description: Option<string>, definition: string)
    | StreamParams(name: Option<string>, environment: Option<string>)

  type StreamLens = CodeLens<StreamArguments>

  /** The name the parser found, if the definition parsed. */
  function ParsedName(def: Definition<StreamNode>): Option<string>
  {
    if def.node.Some? then def.node.value.name else None
  }

  /**
   * getStreamName: the parsed name when it has text; otherwise the value of the `@name` line,
   * if there is one.
   */
  function StreamName(def: Definition<StreamNode>): (r: Option<string>)
    requires DefinitionOk(def)
    ensures ParsedName(def).Some? && HasText(ParsedName(def).value) ==> r == ParsedName(def)
    ensures r != ParsedName(def) ==> def.nameItem.Some? && r == Some(TokenValue(def.nameItem.value, NamePrefix))
    ensures def.nameItem.Some? && r.Some? && r.value != TokenValue(def.nameItem.value, NamePrefix) ==> HasText(r.value)
  {
    var parsed := ParsedName(def);
    if parsed.Some? && HasText(parsed.value) then parsed
    else if def.nameItem.Some? then Some(TokenValue(def.nameItem.value, NamePrefix))
    else parsed
  }

  /** getStreamEnvironment of a definition: the value of its `@env` line. */
  function DefinitionEnvironment(def: Definition<StreamNode>): Option<string>
    requires DefinitionOk(def)
  {
    SlotValue(def.envItem, EnvPrefix)
  }

  /** getStreamDescription: the value of the `@desc` line. */
  function Description(def: Definition<StreamNode>): Option<string>
    requires DefinitionOk(def)
  {
    SlotValue(def.descItem, DescPrefix)
  }

  /**
   * getStreamEnvironment of a block: the block's own `@env` value when it has text, else the
   * definition's.
   */
  function BlockEnvironment(b: Block, def: Definition<StreamNode>): (r: Option<string>)
    requires SlotTagged(b.envItem, EnvPrefix) && DefinitionOk(def)
    ensures b.envItem.Some? && HasText(TokenValue(b.envItem.value, EnvPrefix)) ==> r == SlotValue(b.envItem, EnvPrefix)
    ensures !(b.envItem.Some? && HasText(TokenValue(b.envItem.value, EnvPrefix))) ==> r == DefinitionEnvironment(def)
  {
    var own := SlotValue(b.envItem, EnvPrefix);
    if own.Some? && HasText(own.value) then own else DefinitionEnvironment(def)
  }

  /** codeLensWithProperties, for one block: deploy the stream with the block's environment and properties. */
  function BlockLens(b: Block, def: Definition<StreamNode>): (r: StreamLens)
    requires BlockOk(StreamDialect, b) && DefinitionOk(def)
    ensures r.range == Some(b.startLineRange) && r.command == DeployCommand
    ensures r.argument.DeployParams? && r.argument.properties == PropertiesOf(b.items)
  {
    CodeLens(Some(b.startLineRange), DeployCommand, DeployTitle,
      DeployParams(StreamName(def), BlockEnvironment(b, def), PropertiesOf(b.items)))
  }

  /**
   * codeLensWithStream: nothing while the definition has not parsed; otherwise create, destroy,
   * deploy and undeploy, in that order, all on the definition's range, the create lens carrying
   * the stream text from the stream's start.
   */
  function DefinitionLenses(def: Definition<StreamNode>): (r: seq<StreamLens>)
    requires DefinitionOk(def)
    ensures def.node.None? ==> r == []
    ensures def.node.Some? ==> (
      && |r| == 4
      && r[0].command == CreateCommand && r[1].command == DestroyCommand
      && r[2].command == DeployCommand && r[3].command == UndeployCommand
      && (forall i :: 0 <= i < 4 ==>
            (r[i].range == def.range && r[i].argument.name == StreamName(def)
             && r[i].argument.environment == DefinitionEnvironment(def)))
      && r[0].argument.CreateParams?
      && r[0].argument.definition == def.node.value.streamText[def.node.value.startPos..]
      && r[0].argument.description == Description(def))
  {
    if def.node.None? then []
    else
      var name := StreamName(def);
      var environment := DefinitionEnvironment(def);
      var node := def.node.value;
      [ CodeLens(def.range, CreateCommand, CreateTitle,
          CreateParams(name, environment, Description(def), node.streamText[node.startPos..])),
        CodeLens(def.range, DestroyCommand, DestroyTitle, StreamParams(name, environment)),
        CodeLens(def.range, DeployCommand, DeployTitle, StreamParams(name, environment)),
        CodeLens(def.range, UndeployCommand, UndeployTitle, StreamParams(name, environment)) ]
  }

  function BlockLenses(blocks: seq<Block>, def: Definition<StreamNode>): (r: seq<StreamLens>)
    requires (forall i :: 0 <= i < |blocks| ==> BlockOk(StreamDialect, blocks[i])) && DefinitionOk(def)
    ensures |r| == |blocks| && forall i :: 0 <= i < |blocks| ==> r[i] == BlockLens(blocks[i], def)
  {
    seq(|blocks|, i requires 0 <= i < |blocks| => BlockLens(blocks[i], def))
  }

  /** lense, for one item: one deploy lens per block, in block order, then the definition's lenses. */
  function ItemLenses(it: Item<StreamNode>): (r: seq<StreamLens>)
    requires ItemOk(StreamDialect, it)
    ensures |r| == |it.deployments| + (if it.definition.node.Some? then 4 else 0)
    ensures forall i :: 0 <= i < |it.deployments| ==>
      r[i].command == DeployCommand && r[i].range == Some(it.deployments[i].startLineRange)
    ensures r[|it.deployments|..] == DefinitionLenses(it.definition)
  {
    BlockLenses(it.deployments, it.definition) + DefinitionLenses(it.definition)
  }

  /** The lenses of the items, item after item. */
  function LensesOf(items: seq<Item<StreamNode>>): (r: seq<StreamLens>)
    requires forall i :: 0 <= i < |items| ==> ItemOk(StreamDialect, items[i])
    decreases |items|
  {
    if |items| == 0 then []
    else LensesOf(items[..|items| - 1]) + ItemLenses(items[|items| - 1])
  }

  /** How many lenses the items get: one per block, four per parsed definition. */
  function LensCount(items: seq<Item<StreamNode>>): nat
    decreases |items|
  {
    if |items| == 0 then 0
    else
      var it := items[|items| - 1];
      LensCount(items[..|items| - 1]) + |it.deployments| + (if it.definition.node.Some? then 4 else 0)
  }

  lemma {:induction false} LensesOfCount(items: seq<Item<StreamNode>>)
    requires forall i :: 0 <= i < |items| ==> ItemOk(StreamDialect, items[i])
    ensures |LensesOf(items)| == LensCount(items)
    decreases |items|
  {
    if |items| > 0 {
      var front := items[..|items| - 1];
      assert forall i :: 0 <= i < |front| ==> front[i] == items[i];
      LensesOfCount(front);
    }
  }

  /**
   * lense of a stream document: the items' lenses in item order. Every document segments
   * without an exception, and its metadata lines carry their tokens, so no value reading
   * throws; a document without lines has no lenses.
   */
  function Lense(parse: StreamParser, doc: seq<string>): (r: seq<StreamLens>)
    ensures doc == [] ==> r == []
    ensures |r| == LensCount(DocumentItems(parse, doc))
  {
    var items := DocumentItems(parse, doc);
    LensesOfCount(items);
    if doc == [] then
      EmptyDocument(StreamDialect, StreamDelegate(parse));
      LensesOf(items)
    else LensesOf(items)
  }
}
