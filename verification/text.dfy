/** String primitives used by the band readers: character reversal (Python's
    `s[::-1]`), the whitespace and line-boundary character sets of Python's
    `str.strip` and `str.splitlines`, stripping, splitting at line boundaries,
    and joining with a separator. */
module Text {

  /** Reverses the order of a sequence; on strings this is Python's `s[::-1]`. */
  function Reverse<T>(s: seq<T>): (r: seq<T>)
    ensures |r| == |s|
    ensures forall i :: 0 <= i < |s| ==> r[i] == s[|s| - 1 - i]
  {
    if |s| == 0 then [] else Reverse(s[1..]) + [s[0]]
  }

  /** Reversal is its own inverse. */
  lemma ReverseInvolutive<T>(s: seq<T>)
    ensures Reverse(Reverse(s)) == s
  {
  }

  /** Reverses every string of a list, keeping the list order. */
  function ReverseEach(xs: seq<string>): (r: seq<string>)
    ensures |r| == |xs|
    ensures forall k :: 0 <= k < |xs| ==> Reverse(r[k]) == xs[k]
  {
    seq(|xs|, k requires 0 <= k < |xs| => ReverseInvolutive(xs[k]); Reverse(xs[k]))
  }

  /** The line boundaries recognised by Python's `str.splitlines`:
      \n, \r, \v, \f, \x1c, \x1d, \x1e, \x85, U+2028 and U+2029. */
  predicate IsLineBreak(c: char) {
    c == '\n' || c == '\r' || c == '\U{0B}' || c == '\U{0C}'
    || c == '\U{1C}' || c == '\U{1D}' || c == '\U{1E}'
    || c == '\U{85}' || c == '\U{2028}' || c == '\U{2029}'
  }

  /** The characters Python's `str.isspace` accepts, which are the ones the
      argument-less `str.strip` removes. */
  predicate IsSpace(c: char) {
    IsLineBreak(c) || c == ' ' || c == '\t' || c == '\U{1F}' || c == '\U{A0}'
    || c == '\U{1680}' || ('\U{2000}' <= c <= '\U{200A}')
    || c == '\U{202F}' || c == '\U{205F}' || c == '\U{3000}'
  }

  predicate AllSpace(s: string) {
    forall i :: 0 <= i < |s| ==> IsSpace(s[i])
  }

  predicate NoBreak(s: string) {
    forall i :: 0 <= i < |s| ==> !IsLineBreak(s[i])
  }

  /** Neither end of `s` is whitespace. */
  predicate IsStripped(s: string) {
    |s| == 0 || (!IsSpace(s[0]) && !IsSpace(s[|s| - 1]))
  }

  /** The length of the leading whitespace of `s`. */
  function LeadingSpace(s: string): (n: nat)
    ensures n <= |s|
    ensures forall i :: 0 <= i < n ==> IsSpace(s[i])
    ensures n < |s| ==> !IsSpace(s[n])
  {
    if |s| == 0 || !IsSpace(s[0]) then 0 else 1 + LeadingSpace(s[1..])
  }

  /** The length of `s` without its trailing whitespace. */
  function TrailingStart(s: string): (n: nat)
    ensures n <= |s|
    ensures forall i :: n <= i < |s| ==> IsSpace(s[i])
    ensures n > 0 ==> !IsSpace(s[n - 1])
  {
    if |s| == 0 || !IsSpace(s[|s| - 1]) then |s| else TrailingStart(s[..|s| - 1])
  }

  /** Python's `s.strip()`: `s` with whitespace removed at both ends. The
      result is the part of `s` after its leading whitespace and before its
      trailing whitespace; neither of its ends is whitespace, and it is empty
      exactly when `s` is all whitespace. */
  function Strip(s: string): (r: string)
    ensures LeadingSpace(s) + |r| <= |s|
    ensures forall i :: 0 <= i < |r| ==> r[i] == s[LeadingSpace(s) + i]
    ensures forall i :: LeadingSpace(s) + |r| <= i < |s| ==> IsSpace(s[i])
    ensures IsStripped(r)
    ensures r == [] <==> AllSpace(s)
  {
    var a := LeadingSpace(s);
    var b := TrailingStart(s);
    if a < b then s[a..b] else []
  }

  /** A string that is already stripped is left alone. */
  lemma StripStripped(s: string)
    requires IsStripped(s)
    ensures Strip(s) == s
  {
    assert LeadingSpace(s) == 0;
  }

  /** Stripping twice is the same as stripping once. */
  lemma StripIdempotent(s: string)
    ensures Strip(Strip(s)) == Strip(s)
  {
    StripStripped(Strip(s));
  }

  /** Stripping never introduces a line break. */
  lemma StripNoBreak(s: string)
    requires NoBreak(s)
    ensures NoBreak(Strip(s))
  {
    var r := Strip(s);
    forall i | 0 <= i < |r| ensures !IsLineBreak(r[i]) {
      assert r[i] == s[LeadingSpace(s) + i];
    }
  }

  /** The line-break characters of `s`, in order. */
  function Breaks(s: string): (r: string)
    ensures |r| <= |s|
    ensures forall i :: 0 <= i < |r| ==> IsLineBreak(r[i])
  {
    if |s| == 0 then []
    else (if IsLineBreak(s[0]) then [s[0]] else []) + Breaks(s[1..])
  }

  /** Cuts `s` at every line-break character. The pieces never contain a line
      break and there is one more piece than there are breaks. Python's
      `str.splitlines` differs only by empty pieces: it treats "\r\n" as one
      boundary and does not report an empty piece after a final boundary. */
  function SplitLines(s: string): (r: seq<string>)
    ensures |r| == |Breaks(s)| + 1
    ensures forall k :: 0 <= k < |r| ==> NoBreak(r[k])
  {
    if |s| == 0 then [[]]
    else
      var rest := SplitLines(s[1..]);
      if IsLineBreak(s[0]) then [[]] + rest
      else [[s[0]] + rest[0]] + rest[1..]
  }

  /** Puts pieces back together, placing `seps[k]` between pieces k and k+1. */
  function Rejoin(pieces: seq<string>, seps: string): string
    requires |pieces| == |seps| + 1
    decreases |seps|
  {
    if |seps| == 0 then pieces[0]
    else pieces[0] + [seps[0]] + Rejoin(pieces[1..], seps[1..])
  }

  /** Splitting loses nothing: putting the pieces back with the breaks that
      separated them gives the original text. */
  lemma {:induction false} SplitRejoin(s: string)
    ensures Rejoin(SplitLines(s), Breaks(s)) == s
  {
    if |s| > 0 {
      SplitRejoin(s[1..]);
      var rest := SplitLines(s[1..]);
      if !IsLineBreak(s[0]) {
        assert Breaks(s) == Breaks(s[1..]);
        RejoinConsChar(s[0], rest, Breaks(s[1..]));
      }
      assert s == [s[0]] + s[1..];
    }
  }

  lemma RejoinConsChar(c: char, pieces: seq<string>, seps: string)
    requires |pieces| == |seps| + 1
    ensures Rejoin([[c] + pieces[0]] + pieces[1..], seps) == [c] + Rejoin(pieces, seps)
  {
    var p := [[c] + pieces[0]] + pieces[1..];
    assert p[1..] == pieces[1..];
  }

  /** Splitting text that starts with `x`. */
  lemma SplitCons(x: char, t: string)
    ensures SplitLines([x] + t) ==
      if IsLineBreak(x) then [[]] + SplitLines(t)
      else [[x] + SplitLines(t)[0]] + SplitLines(t)[1..]
  {
    assert ([x] + t)[0] == x && ([x] + t)[1..] == t;
  }

  /** Text on either side of a line break is split independently. */
  lemma {:induction false} SplitAtBreak(a: string, c: char, b: string)
    requires IsLineBreak(c)
    ensures SplitLines(a + [c] + b) == SplitLines(a) + SplitLines(b)
  {
    if |a| == 0 {
      assert a + [c] + b == [c] + b;
      SplitCons(c, b);
      assert SplitLines(a) == [[]];
    } else {
      var t := a[1..];
      SplitAtBreak(t, c, b);
      assert a == [a[0]] + t;
      assert a + [c] + b == [a[0]] + (t + [c] + b);
      SplitAtBreakStep(a[0], t + [c] + b, t, SplitLines(b));
    }
  }

  /** One inductive step of `SplitAtBreak`: when `u` splits into the pieces
      of `t` followed by `q`, so do both with a character in front. */
  lemma SplitAtBreakStep(x: char, u: string, t: string, q: seq<string>)
    requires SplitLines(u) == SplitLines(t) + q
    ensures SplitLines([x] + u) == SplitLines([x] + t) + q
  {
    if IsLineBreak(x) {
      StepAtBreak(x, u, t, q);
    } else {
      StepInPiece(x, u, t, q);
    }
  }

  lemma StepAtBreak(x: char, u: string, t: string, q: seq<string>)
    requires IsLineBreak(x)
    requires SplitLines(u) == SplitLines(t) + q
    ensures SplitLines([x] + u) == SplitLines([x] + t) + q
  {
    var xu, xt := [x] + u, [x] + t;
    assert xu[0] == x && xu[1..] == u;
    assert xt[0] == x && xt[1..] == t;
    var p := SplitLines(t);
    assert SplitLines(xu) == [[]] + (p + q);
    assert SplitLines(xt) == [[]] + p;
    ConsAssoc([], p, q);
  }

  lemma ConsAssoc<T>(x: T, p: seq<T>, q: seq<T>)
    ensures [x] + (p + q) == ([x] + p) + q
  {
  }

  lemma StepInPiece(x: char, u: string, t: string, q: seq<string>)
    requires !IsLineBreak(x)
    requires SplitLines(u) == SplitLines(t) + q
    ensures SplitLines([x] + u) == SplitLines([x] + t) + q
  {
    var xu, xt := [x] + u, [x] + t;
    var p := SplitLines(t);
    assert xu[0] == x && xu[1..] == u;
    assert xt[0] == x && xt[1..] == t;
    assert SplitLines(xu) == [[x] + (p + q)[0]] + (p + q)[1..];
    assert SplitLines(xt) == [[x] + p[0]] + p[1..];
    ExtendFirst([x], p, q);
  }

  /** Prefixing the first piece of a concatenation prefixes the first piece of
      its left part. */
  lemma ExtendFirst(x: string, p: seq<string>, q: seq<string>)
    requires |p| > 0
    ensures [x + (p + q)[0]] + (p + q)[1..] == ([x + p[0]] + p[1..]) + q
  {
    assert (p + q)[0] == p[0];
    assert (p + q)[1..] == p[1..] + q;
  }

  /** Text without line breaks is a single piece. */
  lemma {:induction false} SplitNoBreak(s: string)
    requires NoBreak(s)
    ensures SplitLines(s) == [s]
  {
    if |s| > 0 {
      SplitNoBreak(s[1..]);
      assert [s[0]] + s[1..] == s;
    }
  }

  /** Joins strings with `sep` between consecutive ones. */
  function Join(xs: seq<string>, sep: string): string
  {
    if |xs| == 0 then []
    else if |xs| == 1 then xs[0]
    else xs[0] + sep + Join(xs[1..], sep)
  }

  /** Number of occurrences of `c` in `s`. */
  function Count(c: char, s: string): nat
  {
    if |s| == 0 then 0 else (if s[0] == c then 1 else 0) + Count(c, s[1..])
  }

  lemma {:induction false} CountAppend(c: char, a: string, b: string)
    ensures Count(c, a + b) == Count(c, a) + Count(c, b)
  {
    if |a| > 0 {
      assert (a + b)[0] == a[0];
      assert (a + b)[1..] == a[1..] + b;
      CountAppend(c, a[1..], b);
    } else {
      assert a + b == b;
    }
  }

  lemma {:induction false} CountAbsent(c: char, s: string)
    requires forall i :: 0 <= i < |s| ==> s[i] != c
    ensures Count(c, s) == 0
  {
    if |s| > 0 {
      CountAbsent(c, s[1..]);
    }
  }

  /** Joining pieces that do not contain the one-character separator puts
      exactly one separator between each pair of neighbours. */
  lemma {:induction false} JoinCount(xs: seq<string>, c: char)
    requires |xs| > 0
    requires forall k, i :: 0 <= k < |xs| && 0 <= i < |xs[k]| ==> xs[k][i] != c
    ensures Count(c, Join(xs, [c])) == |xs| - 1
  {
    CountAbsent(c, xs[0]);
    if |xs| > 1 {
      JoinCount(xs[1..], c);
      CountAppend(c, xs[0] + [c], Join(xs[1..], [c]));
      CountAppend(c, xs[0], [c]);
    }
  }
}
