/** The string operations the client relies on: the first item of an
    argument-less `str.split()`, substring containment, and `sep.join`
    together with its inverse `str.split(sep)`. */
module Text {
  import opened Errors

  /** Separators of an argument-less `str.split()` on a byte string:
      space, tab, line feed, carriage return, vertical tab and form feed. */
  predicate IsSpace(c: char) {
    c == ' ' || c == '\t' || c == '\n' || c == '\r' || c == '\U{B}' || c == '\U{C}'
  }

  predicate AllSpace(s: string) {
    forall k :: 0 <= k < |s| ==> IsSpace(s[k])
  }

  predicate NoSpace(s: string) {
    forall k :: 0 <= k < |s| ==> !IsSpace(s[k])
  }

  /** Length of the whitespace run at the start of `s`. */
  function LeadingSpace(s: string): (k: nat)
    ensures k <= |s| && AllSpace(s[..k])
    ensures k < |s| ==> !IsSpace(s[k])
  {
    if |s| == 0 || !IsSpace(s[0]) then 0 else 1 + LeadingSpace(s[1..])
  }

  /** Length of the run of non-space characters at the start of `s`. */
  function WordLength(s: string): (n: nat)
    ensures n <= |s| && NoSpace(s[..n])
    ensures n < |s| ==> IsSpace(s[n])
  {
    if |s| == 0 || IsSpace(s[0]) then 0 else 1 + WordLength(s[1..])
  }

  /** `s[i..j]` is the first whitespace-separated token of `s`: only
      whitespace before it, and it runs up to whitespace or the end. */
  ghost predicate TokenAt(s: string, i: int, j: int) {
    && 0 <= i < j <= |s|
    && AllSpace(s[..i])
    && NoSpace(s[i..j])
    && (j == |s| || IsSpace(s[j]))
  }

  /** `s.split()[0]`, or `None` where `s.split()` is the empty list. */
  function FirstToken(s: string): (r: Option<string>)
    ensures r.None? <==> AllSpace(s)
    ensures r.Some? ==> |r.value| > 0 && NoSpace(r.value)
  {
    var i := LeadingSpace(s);
    if i == |s| then None else Some(s[i..][..WordLength(s[i..])])
  }

  /** A whitespace run that ends before a non-space character is exactly
      the leading whitespace. */
  lemma LeadingSpaceUnique(s: string, i: int)
    requires 0 <= i < |s| && AllSpace(s[..i]) && !IsSpace(s[i])
    ensures LeadingSpace(s) == i
  {
  }

  /** A non-space run that ends at whitespace or at the end is exactly the
      leading word. */
  lemma WordLengthUnique(s: string, n: int)
    requires 0 < n <= |s| && NoSpace(s[..n]) && (n == |s| || IsSpace(s[n]))
    ensures WordLength(s) == n
  {
  }

  /** `FirstToken` returns exactly the token `TokenAt` describes, and every
      such token is the one it returns. */
  lemma FirstTokenIff(s: string, t: string)
    ensures FirstToken(s) == Some(t) <==> exists i, j :: TokenAt(s, i, j) && t == s[i..j]
  {
    if FirstToken(s) == Some(t) {
      var i := LeadingSpace(s);
      var j := i + WordLength(s[i..]);
      assert s[i..][..WordLength(s[i..])] == s[i..j];
      assert TokenAt(s, i, j);
    }
    if i, j :| TokenAt(s, i, j) && t == s[i..j] {
      assert !IsSpace(s[i..j][0]);
      LeadingSpaceUnique(s, i);
      assert s[i..][..j - i] == s[i..j];
      WordLengthUnique(s[i..], j - i);
    }
  }

  /** `needle` occurs in `hay` starting at index `i`. */
  predicate OccursAt(hay: string, needle: string, i: int) {
    0 <= i <= |hay| - |needle| && hay[i..i + |needle|] == needle
  }

  /** Python's `needle in hay` on strings. */
  predicate Contains(hay: string, needle: string) {
    exists i :: 0 <= i <= |hay| && OccursAt(hay, needle, i)
  }

  /** `sep.join(xs)` for a one-character separator. */
  function Join(xs: seq<string>, sep: char): string {
    if |xs| == 0 then ""
    else if |xs| == 1 then xs[0]
    else xs[0] + [sep] + Join(xs[1..], sep)
  }

  /** `s.split(sep)` for a one-character separator: the empty string splits
      into one empty piece. */
  function SplitOn(s: string, sep: char): (r: seq<string>)
    ensures |r| >= 1
  {
    if |s| == 0 then [""]
    else
      var rest := SplitOn(s[1..], sep);
      if s[0] == sep then [""] + rest else [[s[0]] + rest[0]] + rest[1..]
  }

  lemma {:induction false} SplitOnPiece(x: string, sep: char)
    requires sep !in x
    ensures SplitOn(x, sep) == [x]
  {
    if |x| > 0 {
      assert sep !in x[1..];
      SplitOnPiece(x[1..], sep);
      assert [x[0]] + x[1..] == x;
    }
  }

  lemma {:induction false} SplitOnPieceThenSep(x: string, sep: char, t: string)
    requires sep !in x
    ensures SplitOn(x + [sep] + t, sep) == [x] + SplitOn(t, sep)
  {
    if |x| == 0 {
      assert x + [sep] + t == [sep] + t;
      assert ([sep] + t)[1..] == t;
    } else {
      assert sep !in x[1..];
      SplitOnPieceThenSep(x[1..], sep, t);
      assert (x + [sep] + t)[1..] == x[1..] + [sep] + t;
      assert [x[0]] + x[1..] == x;
    }
  }

  /** Splitting a join on its separator gives back the pieces, provided
      there is at least one piece and none of them holds the separator. */
  lemma {:induction false} JoinSplitRoundTrip(xs: seq<string>, sep: char)
    requires |xs| >= 1
    requires forall k :: 0 <= k < |xs| ==> sep !in xs[k]
    ensures SplitOn(Join(xs, sep), sep) == xs
  {
    if |xs| == 1 {
      SplitOnPiece(xs[0], sep);
    } else {
      JoinSplitRoundTrip(xs[1..], sep);
      SplitOnPieceThenSep(xs[0], sep, Join(xs[1..], sep));
      assert [xs[0]] + xs[1..] == xs;
    }
  }
}
