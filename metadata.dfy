/**
 * Reading a metadata line's value the way the lensers and symbolizers read it: the text from
 * a fixed number of characters past the line's content start to its end, trimmed.
 */
module Metadata {
  import opened Wrappers
  import opened Text
  import opened Segmenter
  import opened SegmenterFacts

  /**
   * The text of a metadata line from `skip` characters past its content start to its end,
   * trimmed. The substring throws when the line ends before that offset.
   */
  function ValueAfter(m: MetadataItem, skip: nat): (r: Outcome<string>)
    ensures r.Throws? <==> m.contentRange.start.character + skip > |m.text|
    ensures r.Value? ==> Trim(r.value) == r.value
  {
    match Substring(m.text, m.contentRange.start.character + skip, |m.text|)
    case Throws => Throws
    case Value(s) => TrimIsSlice(s); Value(Trim(s))
  }

  /** Within the line, the reading is the trimmed rest of the line. */
  lemma ValueAfterInBounds(m: MetadataItem, skip: nat)
    requires m.contentRange.start.character + skip <= |m.text|
    ensures ValueAfter(m, skip) == Value(Trim(m.text[m.contentRange.start.character + skip..]))
  {
    var s := m.contentRange.start.character + skip;
    var tail := m.text[s..];
    assert m.text[s..|m.text|] == tail;
    assert Substring(m.text, s, |m.text|) == Value(tail);
  }

  /**
   * The value of a line that carries `token` at its content start, read from just past the
   * token: this reading never throws, whatever follows the token.
   */
  function TokenValue(m: MetadataItem, token: string): (r: string)
    requires Tagged(m, token)
    ensures ValueAfter(m, |token|) == Value(r)
    ensures Trim(r) == r
  {
    var s := m.contentRange.start.character + |token|;
    assert s <= |m.text| by {
      assert StartsWithAt(m.text, token, m.contentRange.start.character);
    }
    ValueAfterInBounds(m, |token|);
    TrimIsSlice(m.text[s..]);
    Trim(m.text[s..])
  }

  /** The value of an optional metadata line carrying `token`. */
  function SlotValue(m: Option<MetadataItem>, token: string): (r: Option<string>)
    requires SlotTagged(m, token)
    ensures r.Some? <==> m.Some?
    ensures r.Some? ==> ValueAfter(m.value, |token|) == Value(r.value)
  {
    if m.Some? then Some(TokenValue(m.value, token)) else None
  }

  /**
   * A token that starts with `@` is first found at the content start of a line tagged with
   * it: no `@` comes before the content start.
   */
  lemma TokenFirst(m: MetadataItem, token: string)
    requires Tagged(m, token) && |token| > 0 && token[0] == '@'
    ensures IndexOf(m.text, token) == m.contentRange.start.character
  {
    var cs := m.contentRange.start.character;
    forall k | 0 <= k < cs
      ensures !StartsWithAt(m.text, token, k)
    {
      assert !IsContentChar(m.text[k]);
      StartsWithAtSlice(m.text, token, k);
      assert k + |token| <= |m.text| ==> m.text[k..k + |token|][0] == m.text[k];
    }
  }
}
