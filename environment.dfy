/**
 * The environment a position of a stream or task document belongs to: the `@env` line of the
 * first item around the position that names one, else the session's default environment.
 * The three services that have this lookup share it: the newer and the older stream service
 * and the newer task service.
 */
module Environment {
  import opened Wrappers
  import opened Text
  import opened Ranges
  import opened Segmenter

  /** The part of the session's environment parameters the lookup reads. */
  datatype EnvironmentParams = EnvironmentParams(defaultEnvironment: Option<string>)

  /**
   * The environment an `@env` line names, read as the services read it: the text from five
   * characters past the content start to the end of the line, trimmed. The substring throws
   * when the line ends before that offset, as a bare `# @env` line does.
   */
  function EnvNameAsWritten(m: MetadataItem): (r: Outcome<string>)
    ensures r.Throws? <==> m.contentRange.start.character + 5 > |m.text|
    ensures r.Value? ==> Trim(r.value) == r.value
  {
    match Substring(m.text, m.contentRange.start.character + 5, |m.text|)
    case Throws => Throws
    case Value(s) => TrimIsSlice(s); Value(Trim(s))
  }

  /**
   * The same reading with the length guard the newer task service puts in front of its own
   * `@name` substring: a line that ends before the offset names no environment.
   */
  function EnvName(m: MetadataItem): (r: string)
    ensures Trim(r) == r
    ensures m.contentRange.start.character + 5 >= |m.text| ==> r == ""
  {
    var s := m.contentRange.start.character + 5;
    if |m.text| > s then TrimIsSlice(m.text[s..]); Trim(m.text[s..]) else ""
  }

  /** Wherever the services' reading does not throw, the guarded reading gives the same name. */
  lemma EnvNameAgrees(m: MetadataItem)
    ensures EnvNameAsWritten(m).Value? ==> EnvNameAsWritten(m).value == EnvName(m)
  {
    var s := m.contentRange.start.character + 5;
    if s <= |m.text| {
      var tail := m.text[s..|m.text|];
      assert Substring(m.text, s, |m.text|) == Value(tail);
      if s == |m.text| {
        assert tail == [];
        assert WhitespaceEnd(tail, 0) == 0;
      } else {
        assert tail == m.text[s..];
      }
    }
  }

  /** Item `it` lies around `pos` and its `@env` line names an environment. */
  predicate EnvApplies<N>(it: Item<N>, pos: Position)
  {
    InRange(pos, it.range) && it.definition.envItem.Some? && HasText(EnvName(it.definition.envItem.value))
  }

  /** The index of the first item, from the `i`-th on, whose `@env` applies at `pos`; `|items|` if none. */
  function FirstEnvItem<N>(items: seq<Item<N>>, pos: Position, i: nat): (r: nat)
    requires i <= |items|
    decreases |items| - i
    ensures i <= r <= |items| && (r < |items| ==> EnvApplies(items[r], pos))
    ensures forall k :: i <= k < r ==> !EnvApplies(items[k], pos)
  {
    if i == |items| || EnvApplies(items[i], pos) then i else FirstEnvItem(items, pos, i + 1)
  }

  /** resolveDefinedEnvironmentName, with the guarded reading of the `@env` line. */
  function DefinedEnvironment<N>(items: seq<Item<N>>, pos: Position): (r: Option<string>)
    ensures r.Some? ==> (
      && HasText(r.value)
      && exists j :: 0 <= j < |items| && EnvApplies(items[j], pos) && r.value == EnvName(items[j].definition.envItem.value)
           && forall k :: 0 <= k < j ==> !EnvApplies(items[k], pos))
    ensures r.None? <==> forall k :: 0 <= k < |items| ==> !EnvApplies(items[k], pos)
  {
    var j := FirstEnvItem(items, pos, 0);
    if j < |items| then Some(EnvName(items[j].definition.envItem.value)) else None
  }

  /**
   * resolveDefinedEnvironmentName as the services write it,
   * from the `i`-th item on: the first item around `pos` with an `@env` line whose name has
   * text; the reading of an `@env` line may throw.
   */
  function DefinedEnvironmentAsWritten<N>(items: seq<Item<N>>, pos: Position, i: nat): (r: Outcome<Option<string>>)
    requires i <= |items|
    decreases |items| - i
    ensures r.Value? && r.value.Some? ==> HasText(r.value.value)
  {
    if i == |items| then Value(None)
    else if InRange(pos, items[i].range) && items[i].definition.envItem.Some? then
      match EnvNameAsWritten(items[i].definition.envItem.value)
      case Throws => Throws
      case Value(name) => if HasText(name) then Value(Some(name)) else DefinedEnvironmentAsWritten(items, pos, i + 1)
    else DefinedEnvironmentAsWritten(items, pos, i + 1)
  }

  /** The services' loop over the items. */
  method ResolveDefinedEnvironmentName<N>(items: seq<Item<N>>, pos: Position) returns (r: Outcome<Option<string>>)
    ensures r == DefinedEnvironmentAsWritten(items, pos, 0)
  {
    for i := 0 to |items|
      invariant DefinedEnvironmentAsWritten(items, pos, 0) == DefinedEnvironmentAsWritten(items, pos, i)
    {
      var item := items[i];
      if InRange(pos, item.range) && item.definition.envItem.Some? {
        var envItem := item.definition.envItem.value;
        var envName := Substring(envItem.text, envItem.contentRange.start.character + 5, |envItem.text|);
        if envName.Throws? {
          return Throws;
        }
        var name := Trim(envName.value);
        if HasText(name) {
          return Value(Some(name));
        }
      }
    }
    return Value(None);
  }

  /**
   * Whenever the services' lookup does not throw, it finds what the guarded lookup finds,
   * from any item on.
   */
  lemma {:induction false} DefinedEnvironmentAgrees<N>(items: seq<Item<N>>, pos: Position, i: nat)
    requires i <= |items|
    ensures DefinedEnvironmentAsWritten(items, pos, i).Value? ==>
      DefinedEnvironmentAsWritten(items, pos, i).value ==
        (var j := FirstEnvItem(items, pos, i); if j < |items| then Some(EnvName(items[j].definition.envItem.value)) else None)
    decreases |items| - i
  {
    if i < |items| {
      DefinedEnvironmentAgrees(items, pos, i + 1);
      if items[i].definition.envItem.Some? {
        EnvNameAgrees(items[i].definition.envItem.value);
      }
    }
  }

  /**
   * resolveEnvironmentName of both stream services: the defined environment, else the session
   * default; the request fails when the lookup throws.
   */
  function ResolveStreamEnvironment<N>(items: seq<Item<N>>, pos: Position, params: EnvironmentParams): (r: Outcome<Option<string>>)
    ensures r.Throws? <==> DefinedEnvironmentAsWritten(items, pos, 0).Throws?
    ensures r.Value? && (exists k :: 0 <= k < |items| && EnvApplies(items[k], pos)) ==>
      r.value == DefinedEnvironment(items, pos) && r.value.Some?
    ensures r.Value? && (forall k :: 0 <= k < |items| ==> !EnvApplies(items[k], pos)) ==> r.value == params.defaultEnvironment
  {
    DefinedEnvironmentAgrees(items, pos, 0);
    match DefinedEnvironmentAsWritten(items, pos, 0)
    case Throws => Throws
    case Value(name) => Value(if name.Some? then name else params.defaultEnvironment)
  }

  /**
   * resolveEnvironmentName of the newer task service, which also accepts missing parameters: then
   * nothing applies unless an item names an environment. The request fails when the lookup throws.
   */
  function ResolveTaskEnvironment<N>(items: seq<Item<N>>, pos: Position, params: Option<EnvironmentParams>): (r: Outcome<Option<string>>)
    ensures r.Throws? <==> DefinedEnvironmentAsWritten(items, pos, 0).Throws?
    ensures r.Value? && (exists k :: 0 <= k < |items| && EnvApplies(items[k], pos)) ==>
      r.value == DefinedEnvironment(items, pos) && r.value.Some?
    ensures r.Value? && (forall k :: 0 <= k < |items| ==> !EnvApplies(items[k], pos)) ==>
      r.value == if params.Some? then params.value.defaultEnvironment else None
  {
    DefinedEnvironmentAgrees(items, pos, 0);
    match DefinedEnvironmentAsWritten(items, pos, 0)
    case Throws => Throws
    case Value(name) => Value(if name.Some? then name else if params.Some? then params.value.defaultEnvironment else None)
  }
}
