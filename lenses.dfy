/**
 * What the stream and task lensers share: a code lens (a command with its arguments, anchored
 * at a document range), the deployment properties read from a block's `@prop` lines and the
 * command-line arguments read from its `@arg` lines.
 */
module Lenses {
  import opened Wrappers
  import opened Text
  import opened Ranges
  import opened Segmenter
  import opened SegmenterFacts
  import opened Metadata

  /** A code lens: where it is shown, the command it runs, its title and its argument. */
  datatype CodeLens<A> = CodeLens(range: Option<Range>, command: string, title: string, argument: A)

  /** `s` has a letter or digit somewhere. */
  predicate HasLetterOrDigit(s: string)
  {
    exists k :: 0 <= k < |s| && IsLetterOrDigit(s[k])
  }

  /** firstLetterOrDigit: the index of the first letter or digit of `text`, or -1. */
  method FirstLetterOrDigit(text: string) returns (r: int)
    ensures -1 <= r < |text|
    ensures r == -1 <==> !HasLetterOrDigit(text)
    ensures r >= 0 ==> IsLetterOrDigit(text[r]) && forall k :: 0 <= k < r ==> !IsLetterOrDigit(text[k])
  {
    for i := 0 to |text|
      invariant forall k :: 0 <= k < i ==> !IsLetterOrDigit(text[k])
    {
      if IsLetterOrDigit(text[i]) {
        return i;
      }
    }
    return -1;
  }

  /**
   * The property a `@prop` line sets: split at the first `=`, the text after the first `@prop`
   * of the left side is the key and the right side is the value, both trimmed. A line without
   * `=`, or whose left side has no letter or digit or no `@prop`, sets nothing.
   */
  function PropertyOf(text: string): (r: Option<(string, string)>)
    ensures r.Some? ==> '=' in text
    ensures r.Some? ==> Trim(r.value.0) == r.value.0 && Trim(r.value.1) == r.value.1
  {
    var split := SplitFirst(text, '=');
    if |split| == 2 && HasLetterOrDigit(split[0]) then KeyValue(split[0], split[1]) else None
  }

  /** The key after the first `@prop` of `left` and the value `right`, both trimmed. */
  function KeyValue(left: string, right: string): (r: Option<(string, string)>)
    ensures r.Some? ==> Trim(r.value.0) == r.value.0 && Trim(r.value.1) == r.value.1
  {
    var index := IndexOf(left, PropPrefix);
    if index > -1 then
      TrimIsSlice(left[index + |PropPrefix|..]);
      TrimIsSlice(right);
      Some((Trim(left[index + |PropPrefix|..]), Trim(right)))
    else None
  }

  /** What each line of a block sets, in line order. */
  function PropertyUpdates(items: seq<MetadataItem>): (r: seq<Option<(string, string)>>)
    ensures |r| == |items| && forall i :: 0 <= i < |items| ==> r[i] == PropertyOf(items[i].text)
  {
    seq(|items|, i requires 0 <= i < |items| => PropertyOf(items[i].text))
  }

  /** Update `i` sets `key`. */
  predicate Sets(updates: seq<Option<(string, string)>>, i: int, key: string)
    requires 0 <= i < |updates|
  {
    updates[i].Some? && updates[i].value.0 == key
  }

  /** A map filled by the updates in order, each `put` replacing what an earlier one stored. */
  function Assign(updates: seq<Option<(string, string)>>): (r: map<string, string>)
    decreases |updates|
  {
    if |updates| == 0 then map[]
    else
      var earlier := Assign(updates[..|updates| - 1]);
      match updates[|updates| - 1]
      case None => earlier
      case Some(kv) => earlier[kv.0 := kv.1]
  }

  /**
   * A key is in the map exactly when some update sets it, and it holds the value of the last
   * update that sets it: a later update overrides an earlier one.
   */
  lemma AssignLastWins(updates: seq<Option<(string, string)>>)
    ensures forall key :: key in Assign(updates) <==> exists i :: 0 <= i < |updates| && Sets(updates, i, key)
    ensures forall key, i :: 0 <= i < |updates| && Sets(updates, i, key) && (forall j :: i < j < |updates| ==> !Sets(updates, j, key)) ==>
      key in Assign(updates) && Assign(updates)[key] == updates[i].value.1
  {
    AssignKeys(updates);
    AssignLast(updates);
  }

  lemma {:induction false} AssignKeys(updates: seq<Option<(string, string)>>)
    ensures forall key :: key in Assign(updates) <==> exists i :: 0 <= i < |updates| && Sets(updates, i, key)
    decreases |updates|
  {
    if |updates| > 0 {
      var n := |updates| - 1;
      var front := updates[..n];
      AssignKeys(front);
      assert forall i :: 0 <= i < n ==> front[i] == updates[i];
      forall key | key in Assign(updates)
        ensures exists i :: 0 <= i < |updates| && Sets(updates, i, key)
      {
        if !Sets(updates, n, key) {
          assert key in Assign(front);
          var i :| 0 <= i < n && Sets(front, i, key);
          assert Sets(updates, i, key);
        }
      }
      forall key | exists i :: 0 <= i < |updates| && Sets(updates, i, key)
        ensures key in Assign(updates)
      {
        var i :| 0 <= i < |updates| && Sets(updates, i, key);
        if i < n {
          assert Sets(front, i, key);
        }
      }
    }
  }

  lemma {:induction false} AssignLast(updates: seq<Option<(string, string)>>)
    ensures forall key, i :: 0 <= i < |updates| && Sets(updates, i, key) && (forall j :: i < j < |updates| ==> !Sets(updates, j, key)) ==>
      key in Assign(updates) && Assign(updates)[key] == updates[i].value.1
    decreases |updates|
  {
    if |updates| > 0 {
      var n := |updates| - 1;
      var front := updates[..n];
      AssignLast(front);
      assert forall i :: 0 <= i < n ==> front[i] == updates[i];
      forall key, i | 0 <= i < |updates| && Sets(updates, i, key) && (forall j :: i < j < |updates| ==> !Sets(updates, j, key))
        ensures key in Assign(updates) && Assign(updates)[key] == updates[i].value.1
      {
        if i < n {
          assert Sets(front, i, key);
          assert !Sets(updates, n, key);
          forall j | i < j < n
            ensures !Sets(front, j, key)
          {
            assert !Sets(updates, j, key);
          }
        }
      }
    }
  }

  /** getDeploymentProperties: the properties a block's lines set, later lines overriding earlier ones. */
  function PropertiesOf(items: seq<MetadataItem>): (r: map<string, string>)
  {
    Assign(PropertyUpdates(items))
  }

  /** The lensers' reading of one `@prop` line. */
  method ReadProperty(text: string) returns (r: Option<(string, string)>)
    ensures r == PropertyOf(text)
  {
    var split := SplitFirst(text, '=');
    if |split| != 2 {
      return None;
    }
    var firstAlphaNumeric := FirstLetterOrDigit(split[0]);
    if firstAlphaNumeric == -1 {
      return None;
    }
    var index := IndexOf(split[0], PropPrefix);
    if index > -1 {
      r := Some((Trim(split[0][index + |PropPrefix|..]), Trim(split[1])));
    } else {
      r := None;
    }
  }

  /** The lensers' loop filling the property map. */
  method DeploymentProperties(items: seq<MetadataItem>) returns (properties: map<string, string>)
    ensures properties == PropertiesOf(items)
  {
    ghost var updates := PropertyUpdates(items);
    properties := map[];
    for i := 0 to |items|
      invariant properties == Assign(updates[..i])
    {
      assert updates[..i + 1][..i] == updates[..i];
      var property := ReadProperty(items[i].text);
      if property.Some? {
        properties := properties[property.value.0 := property.value.1];
      }
    }
    assert updates[..|items|] == updates;
  }

  /** The argument an `@arg` line passes: the text after its first `@arg`, trimmed. */
  function ArgOf(text: string): (r: Option<string>)
    ensures r.Some? <==> Contains(text, ArgPrefix)
  {
    var index := IndexOf(text, ArgPrefix);
    if index > -1 then Some(Trim(text[index + |ArgPrefix|..])) else None
  }

  /** The values of the present entries, in order. */
  function Present(values: seq<Option<string>>): (r: seq<string>)
    ensures |r| <= |values|
    decreases |values|
  {
    if |values| == 0 then []
    else
      var earlier := Present(values[..|values| - 1]);
      match values[|values| - 1]
      case None => earlier
      case Some(v) => earlier + [v]
  }

  /** getCommandLineArgs: one argument per line that has `@arg`, in line order. */
  function ArgsOf(items: seq<MetadataItem>): (r: seq<string>)
    ensures |r| <= |items|
  {
    Present(seq(|items|, i requires 0 <= i < |items| => ArgOf(items[i].text)))
  }

  /** The lensers' loop collecting the arguments. */
  method CommandLineArgs(items: seq<MetadataItem>) returns (args: seq<string>)
    ensures args == ArgsOf(items)
  {
    ghost var values := seq(|items|, i requires 0 <= i < |items| => ArgOf(items[i].text));
    args := [];
    for i := 0 to |items|
      invariant args == Present(values[..i])
    {
      assert values[..i + 1][..i] == values[..i];
      var index := IndexOf(items[i].text, ArgPrefix);
      if index > -1 {
        args := args + [Trim(items[i].text[index + |ArgPrefix|..])];
      }
    }
    assert values[..|items|] == values;
  }

  /** With every entry present, nothing is dropped. */
  lemma {:induction false} PresentAll(values: seq<Option<string>>)
    requires forall i :: 0 <= i < |values| ==> values[i].Some?
    ensures |Present(values)| == |values|
    ensures forall i :: 0 <= i < |values| ==> Present(values)[i] == values[i].value
    decreases |values|
  {
    if |values| > 0 {
      var front := values[..|values| - 1];
      assert forall i :: 0 <= i < |front| ==> front[i] == values[i];
      PresentAll(front);
    }
  }

  /** On an `@arg` line, the first `@arg` is its token, so the argument is the line's value. */
  lemma ArgOfTagged(m: MetadataItem)
    requires Tagged(m, ArgPrefix)
    ensures ArgOf(m.text) == Some(TokenValue(m, ArgPrefix))
  {
    var cs := m.contentRange.start.character;
    TokenFirst(m, ArgPrefix);
    assert cs + |ArgPrefix| <= |m.text| by {
      assert StartsWithAt(m.text, ArgPrefix, cs);
    }
    ValueAfterInBounds(m, |ArgPrefix|);
  }

  /**
   * The `@arg` lines of a launch block each pass one argument, in order: the text after the
   * line's `@arg` token, trimmed.
   */
  lemma ArgsOfTagged(items: seq<MetadataItem>)
    requires forall i :: 0 <= i < |items| ==> Tagged(items[i], ArgPrefix)
    ensures |ArgsOf(items)| == |items|
    ensures forall i :: 0 <= i < |items| ==> ArgsOf(items)[i] == TokenValue(items[i], ArgPrefix)
  {
    var values := seq(|items|, i requires 0 <= i < |items| => ArgOf(items[i].text));
    forall i | 0 <= i < |items|
      ensures values[i] == Some(TokenValue(items[i], ArgPrefix))
    {
      ArgOfTagged(items[i]);
    }
    PresentAll(values);
  }
}
