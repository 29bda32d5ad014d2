/**
 * The string operations the language services rely on, with the semantics of
 * java.lang.String and of the document-text helper they call: trimming,
 * prefix tests at an offset, indexOf, split, lower-casing and decimal rendering.
 * Character classes are those of java.lang.Character restricted to ASCII.
 */
module Text {
  import opened Wrappers

  /** Character.isWhitespace on the ASCII range: space, TAB..CR and FS..US. */
  predicate IsWhitespace(c: char)
  {
    c == ' ' || (9 <= c as int <= 13) || (28 <= c as int <= 31)
  }

  /** Character.isLetterOrDigit on the ASCII range. */
  predicate IsLetterOrDigit(c: char)
  {
    ('a' <= c <= 'z') || ('A' <= c <= 'Z') || ('0' <= c <= '9')
  }

  /** StringUtils.hasText: some character is not whitespace. */
  predicate HasText(s: string)
  {
    exists k :: 0 <= k < |s| && !IsWhitespace(s[k])
  }

  /** The end of the whitespace run that starts at offset `i` of `s`. */
  function WhitespaceEnd(s: string, i: nat): (r: nat)
    requires i <= |s|
    decreases |s| - i
    ensures i <= r <= |s| && (r < |s| ==> !IsWhitespace(s[r]))
    ensures forall k :: i <= k < r ==> IsWhitespace(s[k])
  {
    if i < |s| && IsWhitespace(s[i]) then WhitespaceEnd(s, i + 1) else i
  }

  /** The start of the whitespace run that ends at offset `j` of `s`. */
  function WhitespaceStart(s: string, j: nat): (r: nat)
    requires j <= |s|
    ensures r <= j && (r > 0 ==> !IsWhitespace(s[r - 1]))
    ensures forall k :: r <= k < j ==> IsWhitespace(s[k])
  {
    if j > 0 && IsWhitespace(s[j - 1]) then WhitespaceStart(s, j - 1) else j
  }

  /** `s` with its leading whitespace removed. */
  function TrimStart(s: string): string
  {
    s[WhitespaceEnd(s, 0)..]
  }

  /** `s` with its trailing whitespace removed. */
  function TrimEnd(s: string): string
  {
    s[..WhitespaceStart(s, |s|)]
  }

  /** String.trim: `s` with whitespace removed at both ends. */
  function Trim(s: string): string
  {
    TrimEnd(TrimStart(s))
  }

  /** Trimming keeps exactly a middle slice of `s`, and trimming twice changes nothing more. */
  lemma TrimIsSlice(s: string)
    ensures exists i, j :: 0 <= i <= j <= |s| && Trim(s) == s[i..j]
    ensures Trim(Trim(s)) == Trim(s)
  {
    var i := WhitespaceEnd(s, 0);
    var t := s[i..];
    var j := WhitespaceStart(t, |t|);
    assert Trim(s) == s[i..i + j];
    var u := Trim(s);
    if |u| > 0 {
      assert u[0] == s[i] && u[|u| - 1] == t[j - 1];
      assert WhitespaceEnd(u, 0) == 0;
      assert WhitespaceStart(u, |u|) == |u|;
    }
  }

  /** Where the trimmed text sits in `s`. */
  lemma TrimBounds(s: string) returns (i: nat, j: nat)
    ensures i <= j <= |s| && Trim(s) == s[i..j]
  {
    i := WhitespaceEnd(s, 0);
    j := i + WhitespaceStart(s[i..], |s| - i);
  }

  /** Trimming brings in no character that `s` lacks. */
  lemma TrimKeepsOut(s: string, c: char)
    requires c !in s
    ensures c !in Trim(s)
  {
    var i, j := TrimBounds(s);
    assert forall k :: 0 <= k < j - i ==> Trim(s)[k] == s[i + k];
  }

  /** Dropping the last character of a trimmed text with some text leaves a slice of `s`. */
  lemma TrimDropLast(s: string) returns (a: nat, b: nat)
    requires HasText(s)
    ensures a < b <= |s| && Trim(s)[..|Trim(s)| - 1] == s[a..b - 1]
  {
    TrimHasText(s);
    a, b := TrimBounds(s);
    SliceOfSlice(s, a, b, 0, b - a - 1);
  }

  /** A slice of a slice is a slice. */
  lemma SliceOfSlice(s: string, a: nat, b: nat, c: nat, e: nat)
    requires a <= b <= |s| && c <= e <= b - a
    ensures s[a..b][c..e] == s[a + c..a + e]
  {
    assert forall k :: 0 <= k < e - c ==> s[a..b][c..e][k] == s[a + c + k] == s[a + c..a + e][k];
  }

  /** Trimming leaves some text exactly when `s` has text. */
  lemma TrimHasText(s: string)
    ensures |Trim(s)| > 0 <==> HasText(s)
    ensures |TrimStart(s)| > 0 <==> HasText(s)
  {
    var i := WhitespaceEnd(s, 0);
    var t := s[i..];
    var j := WhitespaceStart(t, |t|);
    if HasText(s) {
      var k :| 0 <= k < |s| && !IsWhitespace(s[k]);
      assert t[k - i] == s[k];
    }
  }

  /** `p` occurs in `s` starting at offset `k` (DocumentText.startsWith at an index). */
  predicate StartsWithAt(s: string, p: string, k: int)
  {
    0 <= k && k + |p| <= |s| && MatchesFrom(s, p, k, 0)
  }

  /** The characters of `p` from offset `j` on appear in `s` from offset `k + j` on. */
  predicate MatchesFrom(s: string, p: string, k: nat, j: nat)
    requires k + |p| <= |s| && j <= |p|
    decreases |p| - j
  {
    j == |p| || (s[k + j] == p[j] && MatchesFrom(s, p, k, j + 1))
  }

  /** StartsWithAt compares the slice of `s` at `k` with `p`. */
  lemma StartsWithAtSlice(s: string, p: string, k: int)
    ensures StartsWithAt(s, p, k) <==> 0 <= k && k + |p| <= |s| && s[k..k + |p|] == p
  {
    if 0 <= k && k + |p| <= |s| {
      MatchesFromSlice(s, p, k, 0);
    }
  }

  lemma {:induction false} MatchesFromSlice(s: string, p: string, k: nat, j: nat)
    requires k + |p| <= |s| && j <= |p|
    ensures MatchesFrom(s, p, k, j) <==> s[k + j..k + |p|] == p[j..]
    decreases |p| - j
  {
    if j < |p| {
      MatchesFromSlice(s, p, k, j + 1);
      assert s[k + j..k + |p|] == [s[k + j]] + s[k + j + 1..k + |p|];
      assert p[j..] == [p[j]] + p[j + 1..];
    }
  }

  /** The first offset at or after `i` where `p` occurs, or -1. */
  function IndexOfFrom(s: string, p: string, i: nat): (r: int)
    requires i <= |s|
    decreases |s| - i
    ensures r == -1 || i <= r <= |s|
    ensures r >= 0 ==> StartsWithAt(s, p, r) && forall k :: i <= k < r ==> !StartsWithAt(s, p, k)
    ensures r == -1 ==> forall k :: i <= k <= |s| ==> !StartsWithAt(s, p, k)
  {
    if StartsWithAt(s, p, i) then i
    else if i == |s| then -1
    else IndexOfFrom(s, p, i + 1)
  }

  /** String.indexOf: the first offset where `p` occurs in `s`, or -1. */
  function IndexOf(s: string, p: string): (r: int)
    ensures r >= 0 ==> StartsWithAt(s, p, r) && forall k :: 0 <= k < r ==> !StartsWithAt(s, p, k)
    ensures r == -1 <==> forall k :: 0 <= k <= |s| ==> !StartsWithAt(s, p, k)
  {
    IndexOfFrom(s, p, 0)
  }

  /** The first offset at or after `i` holding `c`, or `|s|` when there is none. */
  function CharIndexFrom(s: string, c: char, i: nat): (r: nat)
    requires i <= |s|
    decreases |s| - i
    ensures i <= r <= |s| && (r < |s| ==> s[r] == c)
    ensures forall k :: i <= k < r ==> s[k] != c
  {
    if i == |s| || s[i] == c then i else CharIndexFrom(s, c, i + 1)
  }

  /** The pieces of `s[i..]` between occurrences of `c`, empty pieces included. */
  function PiecesFrom(s: string, c: char, i: nat): (r: seq<string>)
    requires i <= |s|
    decreases |s| - i
    ensures |r| >= 1
    ensures forall k :: 0 <= k < |r| ==> c !in r[k]
  {
    var j := CharIndexFrom(s, c, i);
    if j == |s| then [s[i..]] else [s[i..j]] + PiecesFrom(s, c, j + 1)
  }

  /**
   * The first piece runs up to the first `c`; the last piece is a suffix of `s`, empty only
   * when `s[i..]` is empty or `s` ends with `c`.
   */
  lemma {:induction false} PiecesFromShape(s: string, c: char, i: nat)
    requires i <= |s|
    decreases |s| - i
    ensures var p := PiecesFrom(s, c, i); var last := p[|p| - 1];
      && p[0] == s[i..CharIndexFrom(s, c, i)]
      && (|p| == 1 <==> CharIndexFrom(s, c, i) == |s|)
      && |last| <= |s| - i && last == s[|s| - |last|..]
      && (last == [] ==> i == |s| || s[|s| - 1] == c)
  {
    var j := CharIndexFrom(s, c, i);
    if j < |s| {
      PiecesFromShape(s, c, j + 1);
    }
  }

  /** The end of `r` once its trailing empty strings are dropped. */
  function NonEmptyEnd(r: seq<string>, j: nat): (e: nat)
    requires j <= |r|
    ensures e <= j && (e > 0 ==> r[e - 1] != "")
    ensures forall k :: e <= k < j ==> r[k] == ""
  {
    if j > 0 && r[j - 1] == "" then NonEmptyEnd(r, j - 1) else j
  }

  /**
   * String.split on a one-character pattern: `[s]` when `c` does not occur, otherwise the
   * pieces between occurrences with trailing empty pieces dropped (a leading one is kept).
   */
  function JavaSplit(s: string, c: char): (r: seq<string>)
    ensures forall k :: 0 <= k < |r| ==> c !in r[k]
    ensures c !in s ==> r == [s]
    ensures c in s ==> |r| <= |PiecesFrom(s, c, 0)| && r == PiecesFrom(s, c, 0)[..|r|]
    ensures c in s && |r| > 0 ==> r[|r| - 1] != ""
  {
    if c !in s then [s]
    else
      var pieces := PiecesFrom(s, c, 0);
      pieces[..NonEmptyEnd(pieces, |pieces|)]
  }

  /**
   * A split into exactly two pieces: the first piece starts the text, the two pieces and a
   * separator fit in it, and unless the text ends with `c` it is the two pieces around one `c`.
   */
  lemma JavaSplitTwo(s: string, c: char)
    requires |JavaSplit(s, c)| == 2
    ensures var r := JavaSplit(s, c);
      && |r[0]| + 1 + |r[1]| <= |s|
      && s[..|r[0]|] == r[0]
      && (s[|s| - 1] != c ==> s == r[0] + [c] + r[1])
  {
    var r := JavaSplit(s, c);
    assert c in s;
    var pieces := PiecesFrom(s, c, 0);
    PiecesFromShape(s, c, 0);
    var j0 := CharIndexFrom(s, c, 0);
    assert j0 < |s|;
    var rest := PiecesFrom(s, c, j0 + 1);
    assert pieces == [s[..j0]] + rest;
    PiecesFromShape(s, c, j0 + 1);
    var j1 := CharIndexFrom(s, c, j0 + 1);
    assert r[0] == s[..j0] && r[1] == rest[0] == s[j0 + 1..j1];
    if s[|s| - 1] != c {
      assert pieces[|pieces| - 1] != [];
      assert NonEmptyEnd(pieces, |pieces|) == |pieces|;
      assert |rest| == 1 && j1 == |s|;
      assert s == s[..j0] + [c] + s[j0 + 1..];
    }
  }

  /** DocumentText.splitFirst: the text before and after the first `c`, or `[s]`. */
  function SplitFirst(s: string, c: char): (r: seq<string>)
    ensures c !in s ==> r == [s]
    ensures c in s ==> |r| == 2 && s == r[0] + [c] + r[1] && c !in r[0]
  {
    var i := CharIndexFrom(s, c, 0);
    if i == |s| then [s]
    else
      assert s == s[..i] + [c] + s[i + 1..];
      [s[..i], s[i + 1..]]
  }

  /** ASCII lower-casing of one character. */
  function LowerChar(c: char): (r: char)
    ensures ('A' <= c <= 'Z') ==> 'a' <= r <= 'z'
    ensures !('A' <= c <= 'Z') ==> r == c
  {
    if 'A' <= c <= 'Z' then (c as int + 32) as char else c
  }

  /** String.toLowerCase on ASCII text. */
  function ToLower(s: string): (r: string)
    ensures |r| == |s| && forall k :: 0 <= k < |s| ==> r[k] == LowerChar(s[k])
  {
    seq(|s|, k requires 0 <= k < |s| => LowerChar(s[k]))
  }

  /**
   * String.substring(begin, end), and the same call on a document text: the characters from
   * `begin` up to `end`, or an exception when the bounds are out of order or out of range.
   */
  function Substring(s: string, begin: int, end: int): (r: Outcome<string>)
    ensures r.Value? <==> 0 <= begin <= end <= |s|
    ensures r.Value? ==> |r.value| == end - begin && forall k :: 0 <= k < |r.value| ==> r.value[k] == s[begin + k]
  {
    if 0 <= begin <= end <= |s| then Value(s[begin..end]) else Throws
  }

  /** String.contains. */
  predicate Contains(s: string, p: string)
  {
    IndexOf(s, p) >= 0
  }

  /** String.startsWith. */
  predicate StartsWith(s: string, p: string)
  {
    StartsWithAt(s, p, 0)
  }

  /** The decimal digit for `n`. */
  function Digit(n: nat): (c: char)
    requires n < 10
    ensures '0' <= c <= '9'
  {
    ('0' as int + n) as char
  }

  /** The decimal rendering of a natural number, without leading zeros. */
  function NatToString(n: nat): (r: string)
    ensures |r| >= 1
    ensures forall k :: 0 <= k < |r| ==> '0' <= r[k] <= '9'
    ensures |r| == 1 <==> n < 10
  {
    if n < 10 then [Digit(n)] else NatToString(n / 10) + [Digit(n % 10)]
  }

  /** Integer.toString: a minus sign followed by the digits for negative values. */
  function IntToString(n: int): (r: string)
    ensures forall k :: 0 <= k < |r| ==> r[k] == '-' || '0' <= r[k] <= '9'
  {
    if n < 0 then "-" + NatToString(-n) else NatToString(n)
  }

  /** Distinct natural numbers render as distinct strings. */
  lemma {:induction false} NatToStringInjective(m: nat, n: nat)
    requires NatToString(m) == NatToString(n)
    ensures m == n
    decreases m
  {
    var s := NatToString(m);
    if m < 10 || n < 10 {
      assert Digit(m) == s[0] == Digit(n);
    } else {
      assert s[..|s| - 1] == NatToString(m / 10) == NatToString(n / 10);
      NatToStringInjective(m / 10, n / 10);
      assert Digit(m % 10) == s[|s| - 1] == Digit(n % 10);
    }
  }

  /** Distinct integers render as distinct strings. */
  lemma IntToStringInjective(m: int, n: int)
    requires IntToString(m) == IntToString(n)
    ensures m == n
  {
    var s := IntToString(m);
    if m < 0 {
      assert s[0] == '-';
      assert n < 0;
      assert s[1..] == NatToString(-m) == NatToString(-n);
      NatToStringInjective(-m, -n);
    } else {
      assert '0' <= s[0] <= '9';
      assert n >= 0;
      NatToStringInjective(m, n);
    }
  }
}
