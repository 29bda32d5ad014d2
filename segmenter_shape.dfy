/**
 * Where the scanner's items sit in the document: a definition item ends at the first
 * definition line of its search and covers every line from where the search began; a
 * metadata-only item exists only when no definition line is left, and it is the last item;
 * every definition line closes an item; and a scan whose definition parses never throw
 * never throws.
 */
module SegmenterShape {
  import opened Wrappers
  import opened Text
  import opened Ranges
  import opened Dsl
  import opened Segmenter

  /**
   * The item a definition line `L` closes: it covers the lines from `start` through `L`, its
   * definition range is line `L`, and node, name range and problem are what the delegate
   * returned for that line and the `@name` line in force.
   */
  ghost predicate DefinitionShaped<N>(dl: Delegate<N>, doc: seq<string>, start: nat, L: nat, it: Item<N>)
    requires L < |doc|
  {
    && it.range == Range(Position(start, 0), LineRange(doc, L).end)
    && it.definition.range == Some(LineRange(doc, L))
    && dl(doc[L], it.definition.nameItem, L) == Value(DefinitionParse(it.definition.node, it.definition.nameRange, it.definition.problem))
  }

  /**
   * The metadata-only item: no deployments, no node, no definition range, at least one of
   * the `@env`, `@name` and `@desc` lines, and a range ending at the end of the last line.
   */
  predicate TrailingShaped<N>(doc: seq<string>, it: Item<N>)
  {
    && it.deployments == []
    && it.definition.node.None? && it.definition.range.None?
    && it.definition.nameRange.None? && it.definition.problem.None?
    && (it.definition.envItem.Some? || it.definition.nameItem.Some? || it.definition.descItem.Some?)
    && |doc| > 0 && it.range.end == LineRange(doc, |doc| - 1).end
  }

  /**
   * The first item of a search from line `start`: with a definition line `L` ahead, it is the
   * item that line closes, or the search aborts because the delegate threw on that line;
   * without one, it is the metadata-only item, or there is none.
   */
  lemma FirstItem<N>(d: Dialect, dl: Delegate<N>, doc: seq<string>, start: nat)
    requires start <= |doc|
    ensures var L := NextDefinitionLine(doc, start);
      match ScanFrom(d, dl, doc, start)
      case Emit(it) => if L < |doc| then DefinitionShaped(dl, doc, start, L, it) else TrailingShaped(doc, it)
      case Exhausted => L == |doc|
      case Aborted => L < |doc| && dl(doc[L], ScanTo(d, doc, start, L).name, L).Throws?
  {
    var L := NextDefinitionLine(doc, start);
    ScanToConsistent(d, doc, start, L);
  }

  /** Every definition line from line `from` on is the definition range of one of `items`. */
  predicate CoversDefinitions<N>(items: seq<Item<N>>, doc: seq<string>, from: nat)
  {
    forall L :: from <= L < |doc| && IsDefinitionLine(doc[L]) ==>
      exists i :: 0 <= i < |items| && items[i].definition.range == Some(LineRange(doc, L))
  }

  lemma CoversDefinitionsCons<N>(it: Item<N>, rest: seq<Item<N>>, doc: seq<string>, start: nat, L0: nat)
    requires start <= L0 < |doc| && it.definition.range == Some(LineRange(doc, L0))
    requires forall k :: start <= k < L0 ==> !IsDefinitionLine(doc[k])
    requires CoversDefinitions(rest, doc, L0 + 1)
    ensures CoversDefinitions([it] + rest, doc, start)
  {
    var items := [it] + rest;
    forall L | start <= L < |doc| && IsDefinitionLine(doc[L])
      ensures exists i :: 0 <= i < |items| && items[i].definition.range == Some(LineRange(doc, L))
    {
      if L == L0 {
        assert items[0] == it;
      } else {
        var j :| 0 <= j < |rest| && rest[j].definition.range == Some(LineRange(doc, L));
        assert items[j + 1] == rest[j];
      }
    }
  }

  /** Every definition line from line `start` on ends one of the items, as its definition range. */
  lemma {:induction false} ItemsCoverDefinitions<N>(d: Dialect, dl: Delegate<N>, doc: seq<string>, start: nat)
    requires start <= |doc|
    ensures ItemsFrom(d, dl, doc, start).Value? ==> CoversDefinitions(ItemsFrom(d, dl, doc, start).value, doc, start)
    decreases |doc| - start
  {
    FirstItem(d, dl, doc, start);
    var L0 := NextDefinitionLine(doc, start);
    var next := ScanFrom(d, dl, doc, start);
    if next.Emit? && L0 < |doc| {
      ItemsCoverDefinitions(d, dl, doc, L0 + 1);
      var rest := ItemsFrom(d, dl, doc, L0 + 1);
      if rest.Value? {
        CoversDefinitionsCons(next.item, rest.value, doc, start, L0);
      }
    }
  }

  /** A search from the end of the document finds nothing. */
  lemma ScanFromEnd<N>(d: Dialect, dl: Delegate<N>, doc: seq<string>)
    ensures ScanFrom(d, dl, doc, |doc|) == Exhausted
  {
    assert ScanTo(d, doc, |doc|, |doc|) == Fresh;
  }

  /** An item found on the last line of the document is the only item from its start line. */
  lemma ItemsFromLast<N>(d: Dialect, dl: Delegate<N>, doc: seq<string>, start: nat)
    requires start <= |doc| && ScanFrom(d, dl, doc, start).Emit?
    requires ScanFrom(d, dl, doc, start).item.range.end.line + 1 == |doc|
    ensures ItemsFrom(d, dl, doc, start) == Value([ScanFrom(d, dl, doc, start).item])
  {
    ScanFromEnd(d, dl, doc);
    assert [ScanFrom(d, dl, doc, start).item] + [] == [ScanFrom(d, dl, doc, start).item];
  }

  /** An empty document has no items. */
  lemma EmptyDocument<N>(d: Dialect, dl: Delegate<N>)
    ensures Items(d, dl, []) == Value([])
  {
    ScanFromEnd(d, dl, []);
  }

  /**
   * Only the last item can lack a definition: every other item is closed by a definition
   * line, and a metadata-only item ends the document.
   */
  lemma {:induction false} TrailingItemLast<N>(d: Dialect, dl: Delegate<N>, doc: seq<string>, start: nat)
    requires start <= |doc|
    ensures ItemsFrom(d, dl, doc, start).Value? ==>
      forall i :: 0 <= i < |ItemsFrom(d, dl, doc, start).value| - 1 ==>
        ItemsFrom(d, dl, doc, start).value[i].definition.range.Some?
    decreases |doc| - start
  {
    FirstItem(d, dl, doc, start);
    var L0 := NextDefinitionLine(doc, start);
    var next := ScanFrom(d, dl, doc, start);
    if next.Emit? {
      var it := next.item;
      var resume := it.range.end.line + 1;
      TrailingItemLast(d, dl, doc, resume);
      var rest := ItemsFrom(d, dl, doc, resume);
      if rest.Value? {
        var items := [it] + rest.value;
        assert ItemsFrom(d, dl, doc, start) == Value(items);
        if L0 == |doc| {
          ScanFromEnd(d, dl, doc);
          assert rest == Value([]);
        } else {
          forall i | 0 <= i < |items| - 1
            ensures items[i].definition.range.Some?
          {
            if i > 0 {
              assert items[i] == rest.value[i - 1];
            }
          }
        }
      }
    }
  }

  /** A delegate that never throws: the parser reports every error as a problem. */
  ghost predicate NeverThrows<N>(dl: Delegate<N>)
  {
    forall s, nm, line :: dl(s, nm, line).Value?
  }

  /** With a delegate that never throws, the scan of a document never throws either. */
  lemma {:induction false} ItemsNeverThrow<N>(d: Dialect, dl: Delegate<N>, doc: seq<string>, start: nat)
    requires start <= |doc| && NeverThrows(dl)
    ensures ItemsFrom(d, dl, doc, start).Value?
    decreases |doc| - start
  {
    NeverAborts(d, dl, doc, start);
    var next := ScanFrom(d, dl, doc, start);
    if next.Emit? {
      ItemsNeverThrow(d, dl, doc, next.item.range.end.line + 1);
    }
  }

  /** `p` holds of the item of every search of `doc` that finds one. */
  ghost predicate FoundHold<N>(d: Dialect, dl: Delegate<N>, doc: seq<string>, p: Item<N> -> bool)
  {
    forall s: nat :: s <= |doc| && ScanFrom(d, dl, doc, s).Emit? ==> p(ScanFrom(d, dl, doc, s).item)
  }

  /** A property of every item a search finds holds of every item of the segmentation. */
  lemma {:induction false} ItemsHold<N>(d: Dialect, dl: Delegate<N>, doc: seq<string>, start: nat, p: Item<N> -> bool)
    requires start <= |doc|
    requires FoundHold(d, dl, doc, p)
    ensures ItemsFrom(d, dl, doc, start).Value? ==> AllHold(ItemsFrom(d, dl, doc, start).value, p)
    decreases |doc| - start
  {
    var n := ScanFrom(d, dl, doc, start);
    if n.Emit? {
      var resume := n.item.range.end.line + 1;
      ItemsHold(d, dl, doc, resume, p);
      var rest := ItemsFrom(d, dl, doc, resume);
      if rest.Value? {
        HoldCons(p, n.item, rest.value);
      }
    }
  }

  /** `p` holds of every item of `items`. */
  ghost predicate AllHold<N>(items: seq<Item<N>>, p: Item<N> -> bool)
  {
    forall i :: 0 <= i < |items| ==> p(items[i])
  }

  lemma HoldCons<N>(p: Item<N> -> bool, it: Item<N>, rest: seq<Item<N>>)
    requires p(it) && AllHold(rest, p)
    ensures AllHold([it] + rest, p)
  {
    forall i | 0 < i < |[it] + rest|
      ensures p(([it] + rest)[i])
    {
      assert ([it] + rest)[i] == rest[i - 1];
    }
  }

  /** The items of a segmentation, each mapped by `f`; a throw stays a throw. */
  function MapItems<N>(f: Item<N> -> Item<N>, items: Outcome<seq<Item<N>>>): (r: Outcome<seq<Item<N>>>)
    ensures r.Throws? <==> items.Throws?
    ensures r.Value? ==> |r.value| == |items.value| && forall i :: 0 <= i < |r.value| ==> r.value[i] == f(items.value[i])
  {
    match items
    case Throws => Throws
    case Value(s) => Value(seq(|s|, i requires 0 <= i < |s| => f(s[i])))
  }

  /** Every search of `doc` with `other` finds what the search with `dl` finds, up to `f`. */
  ghost predicate FoundMapped<N>(d: Dialect, dl: Delegate<N>, other: Delegate<N>, f: Item<N> -> Item<N>, doc: seq<string>)
  {
    forall s: nat :: s <= |doc| ==>
      ScanFrom(d, other, doc, s) == (if ScanFrom(d, dl, doc, s).Emit? then Emit(f(ScanFrom(d, dl, doc, s).item)) else ScanFrom(d, dl, doc, s))
  }

  /**
   * Two delegates whose every search finds the same item up to `f`, which keeps an item's
   * range, segment the whole document alike up to `f`.
   */
  lemma {:induction false} ItemsFromMapped<N>(d: Dialect, dl: Delegate<N>, other: Delegate<N>, f: Item<N> -> Item<N>, doc: seq<string>, start: nat)
    requires start <= |doc|
    requires forall it :: f(it).range == it.range
    requires FoundMapped(d, dl, other, f, doc)
    ensures ItemsFrom(d, other, doc, start) == MapItems(f, ItemsFrom(d, dl, doc, start))
    decreases |doc| - start
  {
    var n := ScanFrom(d, dl, doc, start);
    if n.Emit? {
      var resume := n.item.range.end.line + 1;
      ItemsFromMapped(d, dl, other, f, doc, resume);
      var rest := ItemsFrom(d, dl, doc, resume);
      if rest.Value? {
        MapItemsCons(f, n.item, rest.value);
      }
    }
  }

  lemma MapItemsCons<N>(f: Item<N> -> Item<N>, it: Item<N>, rest: seq<Item<N>>)
    ensures MapItems(f, Value([it] + rest)) == Value([f(it)] + MapItems(f, Value(rest)).value)
  {
    var mapped := MapItems(f, Value([it] + rest));
    assert mapped.value == [f(it)] + MapItems(f, Value(rest)).value;
  }

  /** With a delegate that never throws, no search aborts. */
  lemma NeverAborts<N>(d: Dialect, dl: Delegate<N>, doc: seq<string>, start: nat)
    requires start <= |doc| && NeverThrows(dl)
    ensures !ScanFrom(d, dl, doc, start).Aborted?
  {
    var L := NextDefinitionLine(doc, start);
    ScanToConsistent(d, doc, start, L);
    if L < |doc| {
      assert dl(doc[L], ScanTo(d, doc, start, L).name, L).Value?;
    }
  }
}
