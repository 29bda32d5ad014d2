/**
 * The code lenses of a task document: a launch lens for each launch block of an item, then,
 * for an item whose definition parsed, the create, destroy and launch lenses on its
 * definition line.
 */
module TaskLenser {
  import opened Wrappers
  import opened Text
  import opened Ranges
  import opened Dsl
  import opened Segmenter
  import opened SegmenterFacts
  import opened SegmenterShape
  import opened Metadata
  import opened Lenses
  import opened TaskService

  const CreateCommand := "vscode-spring-cloud-dataflow.tasks.create"
  const CreateTitle := "Create Task"
  const LaunchCommand := "vscode-spring-cloud-dataflow.tasks.launch"
  const LaunchTitle := "Launch Task"
  const DestroyCommand := "vscode-spring-cloud-dataflow.tasks.destroy"
  const DestroyTitle := "Destroy Task"

  /** The argument of a task command. */
  datatype TaskArguments =
    | LaunchParams(name: Option<string>, environment: Option<string>, properties: map<string, string>, arguments: seq<string>)
    | CreateParams(name: Option<string>, environment: Option<string>, definition: string, description: Option<string>)
    | TaskParams(name: Option<string>, environment: Option<string>)

  type TaskLens = CodeLens<TaskArguments>

  /** The name the parser found, if the definition parsed. */
  function ParsedName(def: Definition<TaskNode>): Option<string>
  {
    if def.node.Some? then def.node.value.name else None
  }

  /**
   * getTaskName: the parsed name when it has text; otherwise the value of the `@name` line,
   * if there is one.
   */
  function TaskName(def: Definition<TaskNode>): (r: Option<string>)
    requires DefinitionOk(def)
    ensures ParsedName(def).Some? && HasText(ParsedName(def).value) ==> r == ParsedName(def)
    ensures r != ParsedName(def) ==> def.nameItem.Some? && r == Some(TokenValue(def.nameItem.value, NamePrefix))
  {
    var parsed := ParsedName(def);
    if parsed.Some? && HasText(parsed.value) then parsed
    else if def.nameItem.Some? then Some(TokenValue(def.nameItem.value, NamePrefix))
    else parsed
  }

  /** getTaskEnvironment of a definition: the value of its `@env` line. */
  function DefinitionEnvironment(def: Definition<TaskNode>): Option<string>
    requires DefinitionOk(def)
  {
    SlotValue(def.envItem, EnvPrefix)
  }

  /** getTaskDescription: the value of the `@desc` line. */
  function Description(def: Definition<TaskNode>): Option<string>
    requires DefinitionOk(def)
  {
    SlotValue(def.descItem, DescPrefix)
  }

  /**
   * getTaskEnvironment of a launch block: the block's own `@env` value when it has text, else
   * the definition's.
   */
  function BlockEnvironment(b: Block, def: Definition<TaskNode>): (r: Option<string>)
    requires SlotTagged(b.envItem, EnvPrefix) && DefinitionOk(def)
    ensures b.envItem.Some? && HasText(TokenValue(b.envItem.value, EnvPrefix)) ==> r == SlotValue(b.envItem, EnvPrefix)
    ensures !(b.envItem.Some? && HasText(TokenValue(b.envItem.value, EnvPrefix))) ==> r == DefinitionEnvironment(def)
  {
    var own := SlotValue(b.envItem, EnvPrefix);
    if own.Some? && HasText(own.value) then own else DefinitionEnvironment(def)
  }

  /**
   * codeLensWithProperties, for one block: launch the task with the block's environment, its
   * properties, and one argument per `@arg` line, in line order.
   */
  function BlockLens(b: Block, def: Definition<TaskNode>): (r: TaskLens)
    requires BlockOk(TaskDialect, b) && DefinitionOk(def)
    ensures r.range == Some(b.startLineRange) && r.command == LaunchCommand
    ensures r.argument.LaunchParams? && r.argument.properties == PropertiesOf(b.items)
    ensures |r.argument.arguments| == |b.argItems|
    ensures forall i :: 0 <= i < |b.argItems| ==> r.argument.arguments[i] == TokenValue(b.argItems[i], ArgPrefix)
  {
    ArgsOfTagged(b.argItems);
    CodeLens(Some(b.startLineRange), LaunchCommand, LaunchTitle,
      LaunchParams(TaskName(def), BlockEnvironment(b, def), PropertiesOf(b.items), ArgsOf(b.argItems)))
  }

  /**
   * codeLensWithTask: nothing while the definition has not parsed; otherwise create, destroy
   * and launch, in that order, all on the definition's range, the create lens carrying the
   * whole task text.
   */
  function DefinitionLenses(def: Definition<TaskNode>): (r: seq<TaskLens>)
    requires DefinitionOk(def)
    ensures def.node.None? ==> r == []
    ensures def.node.Some? ==> (
      && |r| == 3
      && r[0].command == CreateCommand && r[1].command == DestroyCommand && r[2].command == LaunchCommand
      && (forall i :: 0 <= i < 3 ==>
            (r[i].range == def.range && r[i].argument.name == TaskName(def)
             && r[i].argument.environment == DefinitionEnvironment(def)))
      && r[0].argument.CreateParams?
      && r[0].argument.definition == def.node.value.taskText
      && r[0].argument.description == Description(def)
      && r[2].argument.TaskParams?)
  {
    if def.node.None? then []
    else
      var name := TaskName(def);
      var environment := DefinitionEnvironment(def);
      [ CodeLens(def.range, CreateCommand, CreateTitle,
          CreateParams(name, environment, def.node.value.taskText, Description(def))),
        CodeLens(def.range, DestroyCommand, DestroyTitle, TaskParams(name, environment)),
        CodeLens(def.range, LaunchCommand, LaunchTitle, TaskParams(name, environment)) ]
  }

  function BlockLenses(blocks: seq<Block>, def: Definition<TaskNode>): (r: seq<TaskLens>)
    requires (forall i :: 0 <= i < |blocks| ==> BlockOk(TaskDialect, blocks[i])) && DefinitionOk(def)
    ensures |r| == |blocks| && forall i :: 0 <= i < |blocks| ==> r[i] == BlockLens(blocks[i], def)
  {
    seq(|blocks|, i requires 0 <= i < |blocks| => BlockLens(blocks[i], def))
  }

  /** lense, for one item: one launch lens per block, in block order, then the definition's lenses. */
  function ItemLenses(it: Item<TaskNode>): (r: seq<TaskLens>)
    requires ItemOk(TaskDialect, it)
    ensures |r| == |it.deployments| + (if it.definition.node.Some? then 3 else 0)
    ensures forall i :: 0 <= i < |it.deployments| ==>
      r[i].command == LaunchCommand && r[i].range == Some(it.deployments[i].startLineRange)
    ensures r[|it.deployments|..] == DefinitionLenses(it.definition)
  {
    BlockLenses(it.deployments, it.definition) + DefinitionLenses(it.definition)
  }

  /** The lenses of the items, item after item. */
  function LensesOf(items: seq<Item<TaskNode>>): (r: seq<TaskLens>)
    requires forall i :: 0 <= i < |items| ==> ItemOk(TaskDialect, items[i])
    decreases |items|
  {
    if |items| == 0 then []
    else LensesOf(items[..|items| - 1]) + ItemLenses(items[|items| - 1])
  }

  /** How many lenses the items get: one per block, three per parsed definition. */
  function LensCount(items: seq<Item<TaskNode>>): nat
    decreases |items|
  {
    if |items| == 0 then 0
    else
      var it := items[|items| - 1];
      LensCount(items[..|items| - 1]) + |it.deployments| + (if it.definition.node.Some? then 3 else 0)
  }

  lemma {:induction false} LensesOfCount(items: seq<Item<TaskNode>>)
    requires forall i :: 0 <= i < |items| ==> ItemOk(TaskDialect, items[i])
    ensures |LensesOf(items)| == LensCount(items)
    decreases |items|
  {
    if |items| > 0 {
      var front := items[..|items| - 1];
      assert forall i :: 0 <= i < |front| ==> front[i] == items[i];
      LensesOfCount(front);
    }
  }

  /** The items of a task document, which segments without an exception. */
  function DocumentItems(parse: TaskParser, doc: seq<string>): (r: seq<Item<TaskNode>>)
    ensures Items(TaskDialect, TaskDelegate(parse), doc) == Value(r)
    ensures forall i :: 0 <= i < |r| ==> ItemOk(TaskDialect, r[i])
  {
    TaskItemsNeverThrow(parse, doc);
    ItemsOk(TaskDialect, TaskDelegate(parse), doc, 0);
    Items(TaskDialect, TaskDelegate(parse), doc).value
  }

  /** lense of a task document: the items' lenses in item order; no lines, no lenses. */
  function Lense(parse: TaskParser, doc: seq<string>): (r: seq<TaskLens>)
    ensures doc == [] ==> r == []
    ensures |r| == LensCount(DocumentItems(parse, doc))
  {
    var items := DocumentItems(parse, doc);
    LensesOfCount(items);
    if doc == [] then
      EmptyDocument(TaskDialect, TaskDelegate(parse));
      LensesOf(items)
    else LensesOf(items)
  }

  /**
   * A definition without a name does not parse, so it gets none of the create, destroy and
   * launch lenses: `timestamp` under a bare `@name` line is one such definition.
   */
  lemma BareNameNoDefinitionLenses(parse: TaskParser)
    ensures var items := DocumentItems(parse, ["-- @name", "timestamp"]);
      |items| == 1 && DefinitionLenses(items[0].definition) == []
  {
    BareNameLineProblem(parse);
  }
}
