/** The band readers: they turn the text extracted from the band above a table
    into its two title lines, and the text extracted from the band below it
    into its footnote. The text is an input here; the PDF library that extracts
    it is not part of this model. */
module Resolver {
  import opened Wrappers
  import opened Text

  function Min(a: int, b: int): int {
    if a <= b then a else b
  }

  /** Strips every piece and keeps the non-empty results, in order. */
  function KeepLines(pieces: seq<string>): (r: seq<string>)
    ensures |r| <= |pieces|
    ensures forall k :: 0 <= k < |r| ==> r[k] != [] && IsStripped(r[k])
  {
    if |pieces| == 0 then []
    else
      var l := Strip(pieces[0]);
      var rest := KeepLines(pieces[1..]);
      if l == [] then rest else [l] + rest
  }

  /** A line is kept exactly when it is the non-empty strip of some piece. */
  lemma {:induction false} KeepLinesMembers(pieces: seq<string>)
    ensures forall l :: l in KeepLines(pieces) <==> l != [] && exists p :: p in pieces && Strip(p) == l
  {
    if |pieces| > 0 {
      KeepLinesMembers(pieces[1..]);
      assert forall p :: p in pieces <==> p == pieces[0] || p in pieces[1..];
    }
  }

  /** Filtering distributes over concatenation, so lines keep their relative
      order: everything harvested from `a` comes before everything from `b`. */
  lemma {:induction false} KeepLinesAppend(a: seq<string>, b: seq<string>)
    ensures KeepLines(a + b) == KeepLines(a) + KeepLines(b)
  {
    if |a| == 0 {
      assert a + b == b;
    } else {
      assert (a + b)[0] == a[0];
      assert (a + b)[1..] == a[1..] + b;
      KeepLinesAppend(a[1..], b);
    }
  }

  /** Python's `[line.strip() for line in text.splitlines() if line.strip()]`:
      the stripped, non-empty lines of `text`, top to bottom. */
  function Lines(text: string): (r: seq<string>)
    ensures forall k :: 0 <= k < |r| ==> IsLine(r[k])
    ensures text == [] ==> r == []
  {
    var pieces := SplitLines(text);
    var r := KeepLines(pieces);
    KeepLinesMembers(pieces);
    forall k | 0 <= k < |r| ensures NoBreak(r[k]) {
      assert r[k] in r;
      var p :| p in pieces && Strip(p) == r[k];
      StripNoBreak(p);
    }
    r
  }

  /** What a harvested line looks like: non-empty, stripped, one line. */
  predicate IsLine(l: string) {
    l != [] && IsStripped(l) && NoBreak(l)
  }

  /** A band yields no lines exactly when its text is all whitespace. */
  lemma NoLinesIffBlank(text: string)
    ensures Lines(text) == [] <==> AllSpace(text)
  {
    var pieces := SplitLines(text);
    if AllSpace(text) {
      AllSpaceNoLines(text);
    } else {
      SomePieceNotBlank(text);
      var k :| 0 <= k < |pieces| && !AllSpace(pieces[k]);
      KeepLinesMembers(pieces);
      assert Strip(pieces[k]) in KeepLines(pieces);
    }
  }

  lemma {:induction false} AllSpaceNoLines(text: string)
    requires AllSpace(text)
    ensures KeepLines(SplitLines(text)) == []
  {
    if |text| > 0 {
      AllSpaceNoLines(text[1..]);
      var rest := SplitLines(text[1..]);
      if !IsLineBreak(text[0]) {
        assert AllSpace([text[0]] + rest[0]) by {
          AllSpacePieces(text[1..]);
        }
        assert forall p :: p in rest[1..] ==> p in rest;
      }
    }
  }

  lemma {:induction false} AllSpacePieces(text: string)
    requires AllSpace(text)
    ensures forall k :: 0 <= k < |SplitLines(text)| ==> AllSpace(SplitLines(text)[k])
  {
    if |text| > 0 {
      AllSpacePieces(text[1..]);
    }
  }

  /** Text that is not all whitespace has a piece that is not all whitespace. */
  lemma {:induction false} SomePieceNotBlank(text: string)
    requires !AllSpace(text)
    ensures exists k :: 0 <= k < |SplitLines(text)| && !AllSpace(SplitLines(text)[k])
  {
    if !IsSpace(text[0]) {
      assert SplitLines(text)[0][0] == text[0];
    } else {
      assert !AllSpace(text[1..]) by {
        var i :| 0 <= i < |text| && !IsSpace(text[i]);
        assert text[1..][i - 1] == text[i];
      }
      SomePieceNotBlank(text[1..]);
      var k :| 0 <= k < |SplitLines(text[1..])| && !AllSpace(SplitLines(text[1..])[k]);
      assert text == [text[0]] + text[1..];
      SpaceInFront(text[0], text[1..], k);
    }
  }

  /** A space in front of text keeps a non-blank piece non-blank. */
  lemma SpaceInFront(x: char, t: string, k: nat)
    requires IsSpace(x)
    requires k < |SplitLines(t)| && !AllSpace(SplitLines(t)[k])
    ensures exists j :: 0 <= j < |SplitLines([x] + t)| && !AllSpace(SplitLines([x] + t)[j])
  {
    SplitCons(x, t);
    if IsLineBreak(x) {
      NotBlankAfterBreak(SplitLines([x] + t), SplitLines(t), k);
    } else {
      NotBlankInPiece(x, SplitLines([x] + t), SplitLines(t), k);
    }
  }

  lemma NotBlankAfterBreak(pieces: seq<string>, rest: seq<string>, k: nat)
    requires pieces == [[]] + rest
    requires k < |rest| && !AllSpace(rest[k])
    ensures exists j :: 0 <= j < |pieces| && !AllSpace(pieces[j])
  {
    assert pieces[k + 1] == rest[k];
  }

  lemma NotBlankInPiece(x: char, pieces: seq<string>, rest: seq<string>, k: nat)
    requires |rest| > 0 && pieces == [[x] + rest[0]] + rest[1..]
    requires k < |rest| && !AllSpace(rest[k])
    ensures exists j :: 0 <= j < |pieces| && !AllSpace(pieces[j])
  {
    if k == 0 {
      NotBlankCons(x, rest[0]);
      assert !AllSpace(pieces[0]);
    } else {
      assert pieces[k] == rest[k];
    }
  }

  lemma NotBlankCons(x: char, s: string)
    requires !AllSpace(s)
    ensures !AllSpace([x] + s)
  {
    var i :| 0 <= i < |s| && !IsSpace(s[i]);
    assert ([x] + s)[i + 1] == s[i];
  }

  /** The lines of a band are the lines before a break followed by the lines
      after it. */
  lemma LinesAtBreak(a: string, c: char, b: string)
    requires IsLineBreak(c)
    ensures Lines(a + [c] + b) == Lines(a) + Lines(b)
  {
    SplitAtBreak(a, c, b);
    KeepLinesAppend(SplitLines(a), SplitLines(b));
  }

  /** A single harvested line reads back as itself. */
  lemma LinesOfLine(l: string)
    requires IsLine(l)
    ensures Lines(l) == [l]
  {
    SplitNoBreak(l);
    StripStripped(l);
    assert KeepLines([l])[1..] == [];
  }

  /** Joining harvested lines with "\n" and harvesting again gives the same
      lines back. */
  lemma {:induction false} LinesOfJoin(xs: seq<string>)
    requires forall k :: 0 <= k < |xs| ==> IsLine(xs[k])
    ensures Lines(Join(xs, "\n")) == xs
  {
    if |xs| == 1 {
      LinesOfLine(xs[0]);
    } else if |xs| > 1 {
      LinesOfJoin(xs[1..]);
      LinesOfCons(xs[0], Join(xs[1..], "\n"), xs[1..]);
    }
  }

  lemma LinesOfCons(x: string, rest: string, restLines: seq<string>)
    requires IsLine(x) && Lines(rest) == restLines
    ensures Lines(x + "\n" + rest) == [x] + restLines
  {
    LinesOfLine(x);
    LinesAtBreak(x, '\n', rest);
  }

  /** A reversed line is still a harvested-looking line. */
  lemma ReverseLine(l: string)
    requires IsLine(l)
    ensures IsLine(Reverse(l))
  {
  }

  /** The lines of an optional band text; none when there is no text. */
  function Harvest(text: Option<string>): seq<string>
  {
    match text
    case None => []
    case Some(t) => Lines(t)
  }

  /** The k-th line (0-based), reversed, or "" when there are fewer lines. */
  function LineAt(lines: seq<string>, k: nat): (r: string)
    requires forall j :: 0 <= j < |lines| ==> IsLine(lines[j])
    ensures r == [] <==> |lines| <= k
    ensures |lines| > k ==> Reverse(r) == lines[k]
  {
    if |lines| > k then
      assert IsLine(lines[k]);
      ReverseInvolutive(lines[k]);
      Reverse(lines[k])
    else
      []
  }

  /** The title read from a band's harvested lines: lines 1 and 2, reversed. */
  function TitleOf(lines: seq<string>): (r: (string, string))
    requires forall j :: 0 <= j < |lines| ==> IsLine(lines[j])
    ensures r.0 == [] <==> |lines| == 0
    ensures |lines| > 0 ==> Reverse(r.0) == lines[0]
    ensures r.1 == [] <==> |lines| < 2
    ensures |lines| > 1 ==> Reverse(r.1) == lines[1]
  {
    (LineAt(lines, 0), LineAt(lines, 1))
  }

  /** The two title lines above a table: no text, or empty text, gives two
      empty lines; otherwise the first and second harvested lines of the
      header band, each reversed, with "" for a line that is not there. */
  function Title(text: Option<string>): (r: (string, string))
    ensures text.None? || text == Some([]) ==> r == ([], [])
    ensures r.0 == [] <==> |Harvest(text)| == 0
    ensures |Harvest(text)| > 0 ==> Reverse(r.0) == Harvest(text)[0]
    ensures r.1 == [] <==> |Harvest(text)| < 2
    ensures |Harvest(text)| > 1 ==> Reverse(r.1) == Harvest(text)[1]
  {
    if text.None? || text.value == [] then
      ([], [])
    else
      TitleOf(Lines(text.value))
  }

  /** Adds `l` on a new line of `acc`, unless `l` is empty. */
  function AppendLine(acc: string, l: string): string
  {
    if l != [] then acc + "\n" + l else acc
  }

  /** The footnote read from a band's harvested lines: the third line, with
      the fourth and fifth appended on new lines when present. It is the
      "\n"-join of the reversed lines from the third up to the fifth, and ""
      when there are fewer than three lines. */
  function FootnoteOf(lines: seq<string>): (r: string)
    requires forall j :: 0 <= j < |lines| ==> IsLine(lines[j])
    ensures r == [] <==> |lines| < 3
    ensures |lines| >= 3 ==> r == Join(ReverseEach(lines[2..Min(|lines|, 5)]), "\n")
  {
    var r := AppendLine(AppendLine(LineAt(lines, 2), LineAt(lines, 3)), LineAt(lines, 4));
    AppendedIsJoin(lines, r);
    r
  }

  lemma AppendedIsJoin(lines: seq<string>, r: string)
    requires forall j :: 0 <= j < |lines| ==> IsLine(lines[j])
    requires r == AppendLine(AppendLine(LineAt(lines, 2), LineAt(lines, 3)), LineAt(lines, 4))
    ensures r == [] <==> |lines| < 3
    ensures |lines| >= 3 ==> r == Join(ReverseEach(lines[2..Min(|lines|, 5)]), "\n")
  {
    if |lines| < 3 {
      assert LineAt(lines, 2) == [] && LineAt(lines, 3) == [] && LineAt(lines, 4) == [];
    } else if |lines| == 3 {
      assert Min(|lines|, 5) == 3;
      assert LineAt(lines, 3) == [] && LineAt(lines, 4) == [];
      var picked := ReverseEach(lines[2..3]);
      assert picked == [Reverse(lines[2])];
    } else if |lines| == 4 {
      assert Min(|lines|, 5) == 4;
      AppendedFour(lines, r);
    } else {
      assert Min(|lines|, 5) == 5;
      AppendedFive(lines, r);
    }
  }

  lemma AppendedFour(lines: seq<string>, r: string)
    requires |lines| == 4 && forall j :: 0 <= j < |lines| ==> IsLine(lines[j])
    requires r == AppendLine(AppendLine(LineAt(lines, 2), LineAt(lines, 3)), LineAt(lines, 4))
    ensures r == Join(ReverseEach(lines[2..4]), "\n")
  {
    assert LineAt(lines, 4) == [];
    var picked := ReverseEach(lines[2..4]);
    assert picked == [Reverse(lines[2]), Reverse(lines[3])];
    assert picked[1..] == [Reverse(lines[3])];
    assert r == Reverse(lines[2]) + "\n" + Reverse(lines[3]);
  }

  lemma AppendedFive(lines: seq<string>, r: string)
    requires |lines| >= 5 && forall j :: 0 <= j < |lines| ==> IsLine(lines[j])
    requires r == AppendLine(AppendLine(LineAt(lines, 2), LineAt(lines, 3)), LineAt(lines, 4))
    ensures r == Join(ReverseEach(lines[2..5]), "\n")
  {
    var c, d, e := LineAt(lines, 2), LineAt(lines, 3), LineAt(lines, 4);
    assert c == Reverse(lines[2]) && d == Reverse(lines[3]) && e == Reverse(lines[4]);
    assert d != [] && e != [];
    AppendedThree(c, d, e);
    PickedThree(lines);
  }

  /** Appending two non-empty lines joins all three with "\n". */
  lemma AppendedThree(c: string, d: string, e: string)
    requires d != [] && e != []
    ensures AppendLine(AppendLine(c, d), e) == Join([c, d, e], "\n")
  {
    JoinThree(c, d, e);
  }

  lemma PickedThree(lines: seq<string>)
    requires |lines| >= 5
    ensures ReverseEach(lines[2..5]) == [Reverse(lines[2]), Reverse(lines[3]), Reverse(lines[4])]
  {
    var xs := lines[2..5];
    assert xs == [lines[2], lines[3], lines[4]];
    ReverseEachThree(lines[2], lines[3], lines[4]);
  }

  lemma ReverseEachThree(a: string, b: string, c: string)
    ensures ReverseEach([a, b, c]) == [Reverse(a), Reverse(b), Reverse(c)]
  {
    var picked := ReverseEach([a, b, c]);
    ReverseInvolutive(picked[0]);
    ReverseInvolutive(picked[1]);
    ReverseInvolutive(picked[2]);
    assert picked == [picked[0], picked[1], picked[2]];
  }

  /** The footnote below a table: no text, or empty text, gives ""; otherwise
      it is read from the harvested lines of the footer band. */
  function Footnote(text: Option<string>): (r: string)
    ensures text.None? || text == Some([]) ==> r == []
    ensures r == [] <==> |Harvest(text)| < 3
    ensures |Harvest(text)| >= 3 ==>
      r == Join(ReverseEach(Harvest(text)[2..Min(|Harvest(text)|, 5)]), "\n")
  {
    if text.None? || text.value == [] then
      []
    else
      FootnoteOf(Lines(text.value))
  }

  /** The footnote holds one "\n" fewer than the lines it takes, so at most
      two, and harvesting it again gives exactly those reversed lines. */
  lemma FootnoteLines(text: Option<string>)
    requires |Harvest(text)| >= 3
    ensures var picked := ReverseEach(Harvest(text)[2..Min(|Harvest(text)|, 5)]);
      Count('\n', Footnote(text)) == |picked| - 1 <= 2 && Lines(Footnote(text)) == picked
  {
    var lines := Harvest(text);
    var picked := ReverseEach(lines[2..Min(|lines|, 5)]);
    forall k | 0 <= k < |picked| ensures IsLine(picked[k]) {
      assert picked[k] == Reverse(lines[2 + k]);
      ReverseLine(lines[2 + k]);
    }
    JoinCount(picked, '\n');
    LinesOfJoin(picked);
  }

  /** Text below the second line of the header band does not change the
      title. */
  lemma TitleIgnoresLaterLines(a: string, c: char, b: string)
    requires IsLineBreak(c) && |Lines(a)| >= 2
    ensures Title(Some(a + [c] + b)) == Title(Some(a))
  {
    LinesAtBreak(a, c, b);
  }

  /** Text below the fifth line of the footer band does not change the
      footnote. */
  lemma FootnoteIgnoresLaterLines(a: string, c: char, b: string)
    requires IsLineBreak(c) && |Lines(a)| >= 5
    ensures Footnote(Some(a + [c] + b)) == Footnote(Some(a))
  {
    var la := Lines(a);
    var lab := Lines(a + [c] + b);
    LinesAtBreak(a, c, b);
    assert a + [c] + b != [] && a != [];
    FootnoteOfPrefix(la, lab);
  }

  /** Only the first five lines matter to the footnote. */
  lemma FootnoteOfPrefix(xs: seq<string>, ys: seq<string>)
    requires forall j :: 0 <= j < |xs| ==> IsLine(xs[j])
    requires forall j :: 0 <= j < |ys| ==> IsLine(ys[j])
    requires |xs| >= 5 && |ys| >= 5 && xs[..5] == ys[..5]
    ensures FootnoteOf(xs) == FootnoteOf(ys)
  {
    assert xs[2] == xs[..5][2] && xs[3] == xs[..5][3] && xs[4] == xs[..5][4];
    assert ys[2] == ys[..5][2] && ys[3] == ys[..5][3] && ys[4] == ys[..5][4];
  }

  lemma JoinThree(c: string, d: string, e: string)
    ensures Join([c, d, e], "\n") == c + "\n" + d + "\n" + e
  {
    var xs := [c, d, e];
    assert xs[1..] == [d, e] && xs[1..][1..] == [e];
    assert Join([d, e], "\n") == d + "\n" + e;
  }

  lemma JoinFive(a: string, b: string, c: string, d: string, e: string)
    ensures Join([a, b, c, d, e], "\n") == a + "\n" + b + "\n" + c + "\n" + d + "\n" + e
  {
    var xs := [a, b, c, d, e];
    assert xs[1..] == [b, c, d, e];
    assert xs[1..][1..] == [c, d, e];
    JoinThree(c, d, e);
  }

  /** Five band lines A to E give the footnote reverse(C) "\n" reverse(D)
      "\n" reverse(E). */
  lemma FootnoteOfFiveLines(a: string, b: string, c: string, d: string, e: string)
    requires IsLine(a) && IsLine(b) && IsLine(c) && IsLine(d) && IsLine(e)
    ensures Footnote(Some(a + "\n" + b + "\n" + c + "\n" + d + "\n" + e))
         == Reverse(c) + "\n" + Reverse(d) + "\n" + Reverse(e)
  {
    var text := a + "\n" + b + "\n" + c + "\n" + d + "\n" + e;
    LinesOfFive(a, b, c, d, e);
    assert text != [];
    FootnoteOfFive([a, b, c, d, e]);
  }

  lemma LinesOfFive(a: string, b: string, c: string, d: string, e: string)
    requires IsLine(a) && IsLine(b) && IsLine(c) && IsLine(d) && IsLine(e)
    ensures Lines(a + "\n" + b + "\n" + c + "\n" + d + "\n" + e) == [a, b, c, d, e]
  {
    var xs := [a, b, c, d, e];
    assert forall k :: 0 <= k < |xs| ==> IsLine(xs[k]) by {
      assert xs[0] == a && xs[1] == b && xs[2] == c && xs[3] == d && xs[4] == e;
    }
    JoinFive(a, b, c, d, e);
    LinesOfJoin(xs);
  }

  lemma FootnoteOfFive(xs: seq<string>)
    requires |xs| == 5 && forall j :: 0 <= j < |xs| ==> IsLine(xs[j])
    ensures FootnoteOf(xs) == Reverse(xs[2]) + "\n" + Reverse(xs[3]) + "\n" + Reverse(xs[4])
  {
    assert Min(|xs|, 5) == 5;
    var picked := ReverseEach(xs[2..5]);
    assert picked == [Reverse(xs[2]), Reverse(xs[3]), Reverse(xs[4])];
    JoinThree(Reverse(xs[2]), Reverse(xs[3]), Reverse(xs[4]));
  }

  /** A header band holding a single line gives that line reversed and an
      empty second title line. */
  lemma TitleOfOneLine(l: string)
    requires IsLine(l)
    ensures Title(Some(l)) == (Reverse(l), "")
  {
    LinesOfLine(l);
    ReverseInvolutive(l);
  }
}
