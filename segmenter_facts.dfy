/**
 * What the scanner promises about the items it emits: the shape of definition and
 * metadata-only items, non-empty deployment blocks, metadata lines that carry their token at
 * their content start, and comment ranges that cover runs of comment lines.
 */
module SegmenterFacts {
  import opened Wrappers
  import opened Text
  import opened Ranges
  import opened Segmenter

  /**
   * A metadata line whose content range starts at the line's content start (its first `@`,
   * letter or digit), where the token `token` sits, and runs to the end of the line.
   */
  predicate Tagged(m: MetadataItem, token: string)
  {
    && m.contentRange.start.character == ContentStart(m.text)
    && StartsWithAt(m.text, token, m.contentRange.start.character)
    && m.contentRange.start.line == m.range.start.line
    && m.contentRange.end == m.range.end
    && m.range.end.character == |m.text|
  }

  predicate SlotTagged(m: Option<MetadataItem>, token: string)
  {
    m.Some? ==> Tagged(m.value, token)
  }

  /**
   * A well-formed deployment block: it holds a `@prop` line (for tasks, a `@prop` or an
   * `@arg` line), only streams' blocks have no `@arg` lines, and every line carries its token.
   */
  predicate BlockOk(d: Dialect, b: Block)
  {
    && (|b.items| > 0 || (d.recogniseArg && |b.argItems| > 0))
    && (!d.recogniseArg ==> b.argItems == [])
    && (forall i :: 0 <= i < |b.items| ==> Tagged(b.items[i], PropPrefix))
    && (forall i :: 0 <= i < |b.argItems| ==> Tagged(b.argItems[i], ArgPrefix))
    && SlotTagged(b.envItem, EnvPrefix)
  }

  /**
   * The metadata of an item's definition carries the tokens of its slots, and a parsed
   * definition has the range of its line.
   */
  predicate DefinitionOk<N>(def: Definition<N>)
  {
    && SlotTagged(def.envItem, EnvPrefix) && SlotTagged(def.nameItem, NamePrefix) && SlotTagged(def.descItem, DescPrefix)
    && (def.node.Some? ==> def.range.Some?)
  }

  predicate ItemOk<N>(d: Dialect, it: Item<N>)
  {
    (forall i :: 0 <= i < |it.deployments| ==> BlockOk(d, it.deployments[i])) && DefinitionOk(it.definition)
  }

  /** The scanner state keeps every stored line tagged and every finished block well formed. */
  predicate StateOk(d: Dialect, st: ScanState)
  {
    && (forall i :: 0 <= i < |st.blocks| ==> BlockOk(d, st.blocks[i]))
    && (forall i :: 0 <= i < |st.props| ==> Tagged(st.props[i], PropPrefix))
    && (forall i :: 0 <= i < |st.args| ==> Tagged(st.args[i], ArgPrefix))
    && SlotTagged(st.env, EnvPrefix) && SlotTagged(st.name, NamePrefix) && SlotTagged(st.desc, DescPrefix)
  }

  lemma RecordOk(d: Dialect, st: ScanState, kind: MetaKind, item: MetadataItem)
    requires StateOk(d, st) && Tagged(item, Token(kind)) && Recognised(d, kind)
    ensures StateOk(d, Record(st, kind, item))
  {
  }

  lemma MarkerLineOk(d: Dialect, st: ScanState, lr: Range, s: string)
    requires StateOk(d, st) && lr.end.character == |s|
    ensures StateOk(d, MarkerLine(d, st, lr, s))
  {
    var cs := ContentStart(s);
    var kind := Classify(d, s, cs);
    if kind != Unmatched {
      var item := MetadataItem(lr, Range(Position(lr.start.line, cs), lr.end), s);
      assert Tagged(item, Token(kind));
      var st1 := if d.endOnMatchOnly then st else st.(blockEnd := Some(lr.end));
      RecordOk(d, st1, kind, item);
    }
  }

  lemma SeparatorLineOk(d: Dialect, st: ScanState)
    requires StateOk(d, st) && (!d.recogniseArg ==> st.args == [])
    requires PendingReady(st)
    ensures StateOk(d, SeparatorLine(st))
  {
    if |st.props| > 0 || |st.args| > 0 {
      assert BlockOk(d, PendingBlock(st, st.args));
    }
  }

  lemma StepOk(d: Dialect, st: ScanState, doc: seq<string>, start: nat, line: nat)
    requires start <= line < |doc| && Consistent(d, st, start, line) && StateOk(d, st)
    ensures StateOk(d, Step(d, st, doc, line))
  {
    var lr := LineRange(doc, line);
    var st1 := TrackComment(d, st, lr, doc[line]);
    if IsMarkerLine(doc[line]) {
      MarkerLineOk(d, st1, lr, doc[line]);
    } else {
      SeparatorLineOk(d, st1);
    }
  }

  lemma DefinitionItemOk<N>(d: Dialect, dl: Delegate<N>, doc: seq<string>, start: nat, st: ScanState, line: nat)
    requires start <= line < |doc| && Consistent(d, st, start, line) && StateOk(d, st)
    ensures DefinitionItemAt(dl, doc, start, st, line).Value? ==> ItemOk(d, DefinitionItemAt(dl, doc, start, st, line).value)
  {
    if |st.props| > 0 {
      assert BlockOk(d, PendingBlock(st, []));
    }
  }

  /** The state after the lines from `start` up to `L` keeps every stored line tagged. */
  lemma {:induction false} ScanToOk(d: Dialect, doc: seq<string>, start: nat, L: nat)
    requires start <= L <= |doc|
    ensures StateOk(d, ScanTo(d, doc, start, L))
    decreases L
  {
    if L > start {
      var before := ScanTo(d, doc, start, L - 1);
      ScanToOk(d, doc, start, L - 1);
      ScanToConsistent(d, doc, start, L - 1);
      StepOk(d, before, doc, start, L - 1);
      ScanToNext(d, doc, start, L - 1);
    }
  }

  /** Closing the scan in a well-formed state emits a well-formed item. */
  lemma CloseAtOk<N>(d: Dialect, dl: Delegate<N>, doc: seq<string>, start: nat, st: ScanState, L: nat)
    requires start <= L <= |doc| && Consistent(d, st, start, L) && StateOk(d, st)
    ensures CloseAt(d, dl, doc, start, st, L).Emit? ==> ItemOk(d, CloseAt(d, dl, doc, start, st, L).item)
  {
    if L < |doc| {
      DefinitionItemOk(d, dl, doc, start, st, L);
    }
  }

  /** Every item the scan from line `start` emits is well formed. */
  lemma ScanFromOk<N>(d: Dialect, dl: Delegate<N>, doc: seq<string>, start: nat)
    requires start <= |doc|
    ensures ScanFrom(d, dl, doc, start).Emit? ==> ItemOk(d, ScanFrom(d, dl, doc, start).item)
  {
    var L := NextDefinitionLine(doc, start);
    ScanToConsistent(d, doc, start, L);
    ScanToOk(d, doc, start, L);
    CloseAtOk(d, dl, doc, start, ScanTo(d, doc, start, L), L);
  }

  /**
   * Every item of a document is well formed: its blocks are non-empty and its metadata lines
   * carry their tokens at their content start.
   */
  lemma {:induction false} ItemsOk<N>(d: Dialect, dl: Delegate<N>, doc: seq<string>, start: nat)
    requires start <= |doc|
    ensures ItemsFrom(d, dl, doc, start).Value? ==>
      forall i :: 0 <= i < |ItemsFrom(d, dl, doc, start).value| ==> ItemOk(d, ItemsFrom(d, dl, doc, start).value[i])
    decreases |doc| - start
  {
    ScanFromOk(d, dl, doc, start);
    var next := ScanFrom(d, dl, doc, start);
    if next.Emit? {
      ItemsOk(d, dl, doc, next.item.range.end.line + 1);
    }
  }
}
