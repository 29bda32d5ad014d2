/**
 * Completion in a stream document: the server's proposals for the text left of the cursor
 * become completion items that replace that text with the whole proposal, labelled with only
 * the part of the proposal past the word being typed.
 */
module Completion {
  import opened Wrappers
  import opened Text
  import opened Ranges

  /** A proposal of the completion service: the completed text and its explanation. */
  datatype Proposal = Proposal(text: string, explanation: string)

  /** A text edit writing `newText` over `range`. */
  datatype TextEdit = TextEdit(range: Range, newText: string)

  datatype CompletionItem = CompletionItem(labelText: string, documentation: string, filterText: string, textEdit: TextEdit)

  /**
   * Where the interesting part of the typed text starts: just after its last whitespace
   * character, except that a whitespace character at offset 0 does not count; 0 without one.
   */
  function InterestingStart(left: string): (r: nat)
    ensures r <= |left|
    ensures r == 0 <==> forall i :: 1 <= i < |left| ==> !IsWhitespace(left[i])
    ensures r > 0 ==> 2 <= r && IsWhitespace(left[r - 1])
    ensures forall i :: 1 <= i < |left| && r <= i ==> !IsWhitespace(left[i])
  {
    LastWhitespaceAfter(left, |left|)
  }

  /** One past the last whitespace character at an offset in [1, j), or 0 without one. */
  function LastWhitespaceAfter(left: string, j: nat): (r: nat)
    requires j <= |left|
    ensures r <= j
    ensures r == 0 <==> forall i :: 1 <= i < j ==> !IsWhitespace(left[i])
    ensures r > 0 ==> 2 <= r && IsWhitespace(left[r - 1])
    ensures forall i :: 1 <= i < j && r <= i ==> !IsWhitespace(left[i])
  {
    if j <= 1 then 0
    else if IsWhitespace(left[j - 1]) then j
    else LastWhitespaceAfter(left, j - 1)
  }

  /** interestingPrefixStart: scans down from the last character, stopping before offset 0. */
  method InterestingPrefixStart(left: string) returns (r: nat)
    ensures r == InterestingStart(left)
  {
    var i := |left| - 1;
    while i > 0
      invariant i <= |left| - 1
      invariant LastWhitespaceAfter(left, |left|) == LastWhitespaceAfter(left, if i < 0 then 0 else i + 1)
      decreases i
    {
      if IsWhitespace(left[i]) {
        return i + 1;
      }
      i := i - 1;
    }
    return 0;
  }

  /** The length of the longest common prefix of `a` and `b`, counting from offset `i`. */
  function CommonLengthFrom(a: string, b: string, i: nat): (r: nat)
    requires i <= |a| && i <= |b| && a[..i] == b[..i]
    ensures i <= r <= |a| && r <= |b|
    ensures a[..r] == b[..r]
    ensures r < |a| && r < |b| ==> a[r] != b[r]
    decreases |a| - i
  {
    if i == |a| || i == |b| || a[i] != b[i] then i
    else
      assert a[..i + 1] == a[..i] + [a[i]] && b[..i + 1] == b[..i] + [b[i]];
      CommonLengthFrom(a, b, i + 1)
  }

  /**
   * The longest common prefix of `a` and `b`: a prefix of both, and no longer one is, since
   * the next characters differ or one of them has ended.
   */
  function CommonPrefixOf(a: string, b: string): (r: string)
    ensures |r| <= |a| && |r| <= |b|
    ensures r == a[..|r|] && r == b[..|r|]
    ensures |r| < |a| && |r| < |b| ==> a[|r|] != b[|r|]
  {
    a[..CommonLengthFrom(a, b, 0)]
  }

  /** commonPrefix: walks both strings until the first difference or the shorter one ends. */
  method CommonPrefix(left: string, right: string) returns (p: string)
    ensures p == CommonPrefixOf(left, right)
  {
    var min := if |left| < |right| then |left| else |right|;
    var i := 0;
    while i < min
      invariant 0 <= i <= min
      invariant left[..i] == right[..i]
      invariant CommonLengthFrom(left, right, 0) == CommonLengthFrom(left, right, i)
    {
      if left[i] != right[i] {
        return left[..i];
      }
      assert left[..i + 1] == left[..i] + [left[i]] && right[..i + 1] == right[..i] + [right[i]];
      i := i + 1;
    }
    return left[..min];
  }

  /**
   * The label of a proposal: the proposal without the part it shares with the typed text up
   * to the start of the word being typed. It is always a suffix of the proposal.
   */
  function Label(left: string, right: string): (r: string)
    ensures |r| <= |right| && r == right[|right| - |r|..]
    ensures right == CommonPrefixOf(left[..InterestingStart(left)], right) + r
  {
    var shared := CommonPrefixOf(left[..InterestingStart(left)], right);
    right[|shared|..]
  }

  /** resultLabel, computed with the two scans. */
  method ResultLabel(left: string, right: string) returns (shown: string)
    ensures shown == Label(left, right)
  {
    var start := InterestingPrefixStart(left);
    var shared := CommonPrefix(left[..start], right);
    shown := right[|shared|..];
  }

  /** The range from the start of the cursor's line to the cursor. */
  function PrefixRange(pos: Position): (r: Range)
    ensures r.start == Position(pos.line, 0) && r.end == pos
  {
    Range(Position(pos.line, 0), pos)
  }

  /** The completion item of one proposal for the typed text `prefix` left of `pos`. */
  function ItemOf(prefix: string, pos: Position, p: Proposal): (r: CompletionItem)
    ensures r.filterText == p.text && r.textEdit == TextEdit(PrefixRange(pos), p.text)
    ensures r.documentation == p.explanation
    ensures |r.labelText| <= |p.text| && r.labelText == p.text[|p.text| - |r.labelText|..]
  {
    CompletionItem(Label(prefix, p.text), p.explanation, p.text, TextEdit(PrefixRange(pos), p.text))
  }

  /**
   * complete: nothing without a completion service; otherwise one item per proposal the
   * service returns for the text left of the cursor, in the service's order. `prefix` is
   * that text, as the document returns it for the range from the line start to `pos`.
   */
  function Complete(service: Option<string -> seq<Proposal>>, prefix: string, pos: Position): (r: seq<CompletionItem>)
    ensures service.None? ==> r == []
    ensures service.Some? ==> |r| == |service.value(prefix)|
    ensures service.Some? ==> forall i :: 0 <= i < |r| ==> r[i] == ItemOf(prefix, pos, service.value(prefix)[i])
  {
    match service
    case None => []
    case Some(fetch) =>
      var proposals := fetch(prefix);
      seq(|proposals|, i requires 0 <= i < |proposals| => ItemOf(prefix, pos, proposals[i]))
  }

  /** Typing inside an app name: the label is the rest of the app name. */
  lemma LabelWithinApp()
    ensures Label("ticktock = ti", "ticktock = time") == "time"
  {
    var left := "ticktock = ti";
    assert IsWhitespace(left[10]) && !IsWhitespace(left[11]) && !IsWhitespace(left[12]);
    var start := InterestingStart(left);
    assert start == 11;
    var right := "ticktock = time";
    assert left[..11] == right[..11];
    assert |CommonPrefixOf(left[..11], right)| == 11;
  }

  /** After a space following the app name: the label is the option alone. */
  lemma LabelAfterApp()
    ensures Label("ticktock = time ", "ticktock = time --time-unit=") == "--time-unit="
  {
    var left := "ticktock = time ";
    assert IsWhitespace(left[15]);
    var start := InterestingStart(left);
    assert start == 16;
    var right := "ticktock = time --time-unit=";
    assert left[..16] == right[..16];
    assert |CommonPrefixOf(left[..16], right)| == 16;
  }
}
