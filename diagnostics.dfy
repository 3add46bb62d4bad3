/**
 * What `parse` (llpdf/repr/PDFParser.py) prints when the parser rejects a
 * text: the text between two rules of dashes, the line holding the error and
 * a caret under the offending column. Lines and columns count from 1, as the
 * parser's errors report them; `text.split("\n")` and the caret line are
 * modelled as functions whose results are proved to point at the error.
 */
module Diagnostics {
  import opened Wrappers

  // ----------------------------------------------------- lines and columns

  /** The line that offset |p| of any text starting with p lies on: one more than the newlines in p. */
  function Line(p: string): nat {
    if p == [] then 1
    else Line(p[..|p| - 1]) + (if p[|p| - 1] == '\n' then 1 else 0)
  }

  /** The column of offset |p|: one more than the characters since the last newline in p. */
  function Column(p: string): (c: nat)
    ensures c >= 1
  {
    if p == [] then 1
    else if p[|p| - 1] == '\n' then 1
    else Column(p[..|p| - 1]) + 1
  }

  /** The (line, column) of a character offset in text; |text| is the end of input. */
  function LineColumn(text: string, offset: nat): (nat, nat)
    requires offset <= |text|
  {
    (Line(text[..offset]), Column(text[..offset]))
  }

  // ---------------------------------------------------- text.split("\n")

  /** Python's `s.split("\n")`: the pieces between newlines, one more than there are newlines. */
  function Split(s: string): (lines: seq<string>)
    ensures |lines| >= 1
  {
    if s == [] then [""]
    else
      var init := Split(s[..|s| - 1]);
      if s[|s| - 1] == '\n' then init + [""]
      else init[..|init| - 1] + [init[|init| - 1] + [s[|s| - 1]]]
  }

  /** Python's `"\n".join(lines)`. */
  function Join(lines: seq<string>): string {
    if lines == [] then ""
    else if |lines| == 1 then lines[0]
    else Join(lines[..|lines| - 1]) + "\n" + lines[|lines| - 1]
  }

  predicate NoNewline(s: string) {
    forall k :: 0 <= k < |s| ==> s[k] != '\n'
  }

  predicate AllNoNewline(lines: seq<string>) {
    forall k :: 0 <= k < |lines| ==> NoNewline(lines[k])
  }

  /** A non-empty sequence is its front followed by its last element. */
  lemma DropLast<T>(s: seq<T>)
    requires |s| > 0
    ensures s[..|s| - 1] + [s[|s| - 1]] == s
  {
  }

  /** Split of a text one character longer: a newline starts a new line, anything else extends the last one. */
  lemma SplitSnoc(p: string, c: char)
    ensures var lines := Split(p);
      Split(p + [c]) == if c == '\n' then lines + [""] else lines[..|lines| - 1] + [lines[|lines| - 1] + [c]]
  {
    var s := p + [c];
    assert s[..|s| - 1] == p;
  }

  /** Splitting yields lines without newlines, as many as Line counts, the last as long as Column says. */
  lemma {:induction false} SplitShape(s: string)
    ensures AllNoNewline(Split(s))
    ensures |Split(s)| == Line(s)
    ensures |Split(s)[|Split(s)| - 1]| == Column(s) - 1
    decreases |s|
  {
    if s != [] {
      SplitShape(s[..|s| - 1]);
    }
  }

  /** Joining the pieces gives the text back. */
  lemma {:induction false} JoinSplit(s: string)
    ensures Join(Split(s)) == s
    decreases |s|
  {
    if s != [] {
      var p, c := s[..|s| - 1], s[|s| - 1];
      var lines := Split(p);
      JoinSplit(p);
      DropLast(s);
      SplitSnoc(p, c);
      if c == '\n' {
        JoinNewLine(lines);
      } else {
        JoinExtendLast(lines, c);
      }
    }
  }

  /** Joining with one more, empty, line adds a newline. */
  lemma JoinNewLine(lines: seq<string>)
    requires |lines| >= 1
    ensures Join(lines + [""]) == Join(lines) + "\n"
  {
    var m := lines + [""];
    assert m[..|m| - 1] == lines;
  }

  /** Joining with the last line one character longer adds that character at the end. */
  lemma JoinExtendLast(lines: seq<string>, c: char)
    requires |lines| >= 1
    ensures Join(lines[..|lines| - 1] + [lines[|lines| - 1] + [c]]) == Join(lines) + [c]
  {
    var n := |lines|;
    var m := lines[..n - 1] + [lines[n - 1] + [c]];
    if n > 1 {
      assert m[..n - 1] == lines[..n - 1];
      var x := Join(lines[..n - 1]) + "\n";
      assert Join(m) == x + (lines[n - 1] + [c]);
      assert Join(lines) == x + lines[n - 1];
    }
  }

  /** Splitting line-free pieces joined by newlines gives the pieces back. */
  lemma {:induction false} SplitJoin(lines: seq<string>)
    requires |lines| >= 1 && AllNoNewline(lines)
    ensures Split(Join(lines)) == lines
    decreases |lines|
  {
    if |lines| == 1 {
      SplitPlain("", [], lines[0]);
      assert "" + lines[0] == lines[0];
    } else {
      var init := lines[..|lines| - 1];
      var last := lines[|lines| - 1];
      assert AllNoNewline(init) by {
        forall k | 0 <= k < |init| ensures NoNewline(init[k]) {
          assert init[k] == lines[k];
        }
      }
      SplitJoin(init);
      var j := Join(init) + "\n";
      assert j[..|j| - 1] == Join(init);
      SplitPlain(j, init, last);
      assert Join(lines) == j + last;
    }
  }

  /** Newline-free text t appended after a newline becomes the new last line. */
  lemma {:induction false} SplitPlain(j: string, init: seq<string>, t: string)
    requires NoNewline(t) && Split(j) == init + [""]
    ensures Split(j + t) == init + [t]
    decreases |t|
  {
    if t == [] {
      assert j + t == j;
    } else {
      var t', c := t[..|t| - 1], t[|t| - 1];
      SplitPlain(j, init, t');
      assert j + t == (j + t') + [c];
      SplitSnoc(j + t', c);
      var prev := init + [t'];
      DropLast(t);
      assert prev[..|prev| - 1] == init;
    }
  }

  /**
   * Extending a text never changes the lines before the last line of the
   * shorter text, and only lengthens that last line.
   */
  lemma {:induction false} SplitPrefix(p: string, s: string)
    requires p <= s
    ensures var a, b := Split(p), Split(s);
      |a| <= |b| && a[..|a| - 1] == b[..|a| - 1] && a[|a| - 1] <= b[|a| - 1]
    decreases |s|
  {
    if p != s {
      var s' := s[..|s| - 1];
      assert p <= s';
      SplitPrefix(p, s');
    }
  }

  // ------------------------------------------------------------- the report

  function Repeat(c: char, n: nat): (r: string)
    ensures |r| == n && forall k :: 0 <= k < n ==> r[k] == c
  {
    if n == 0 then "" else [c] + Repeat(c, n - 1)
  }

  /** `(" " * (column - 1)) + "^"`; Python repeats a string a negative number of times as "". */
  function Caret(column: int): (r: string)
    ensures |r| == if column >= 1 then column else 1
    ensures r[|r| - 1] == '^'
    ensures forall k :: 0 <= k < |r| - 1 ==> r[k] == ' '
  {
    Repeat(' ', if column >= 1 then column - 1 else 0) + "^"
  }

  /** Python's `xs[i]` with negative indices counting from the end; None for an IndexError. */
  function Index<T>(xs: seq<T>, i: int): (r: Option<T>)
    ensures r.Some? <==> -|xs| <= i < |xs|
    ensures 0 <= i < |xs| ==> r == Some(xs[i])
  {
    if 0 <= i < |xs| then Some(xs[i])
    else if -|xs| <= i < 0 then Some(xs[|xs| + i])
    else None
  }

  /** The five lines printed for an error at (line, column) in text; None where indexing the lines would raise. */
  function Report(text: string, line: int, column: int): (r: Option<seq<string>>)
    ensures r.Some? ==> |r.value| == 5 && r.value[4] == Caret(column)
    ensures r.Some? <==> Index(Split(text), line - 1).Some?
  {
    match Index(Split(text), line - 1)
    case None => None
    case Some(l) => Some([Repeat('-', 120), text, Repeat('-', 120), l, Caret(column)])
  }

  /** A character other than a newline extends the last line and adds no line. */
  lemma SplitStep(p: string, ch: char)
    requires ch != '\n'
    ensures var a, q := Split(p), Split(p + [ch]);
      |q| == |a| && q[|q| - 1] == a[|a| - 1] + [ch]
  {
    SplitSnoc(p, ch);
  }

  /** The line of an offset exists in the whole text, and the text before it on that line is a prefix of it. */
  lemma OffsetLine(text: string, offset: nat)
    requires offset <= |text|
    ensures var a, b := Split(text[..offset]), Split(text);
      |a| == Line(text[..offset]) <= |b| && |a[|a| - 1]| == Column(text[..offset]) - 1 &&
      a[|a| - 1] <= b[|a| - 1]
  {
    SplitShape(text[..offset]);
    SplitPrefix(text[..offset], text);
  }

  /** The character at an offset, when it is not a newline, lies on its line right after the text before it. */
  lemma OffsetChar(text: string, offset: nat)
    requires offset < |text| && text[offset] != '\n'
    ensures var a, b := Split(text[..offset]), Split(text);
      |a| <= |b| && |a[|a| - 1]| < |b[|a| - 1]| && b[|a| - 1][|a[|a| - 1]|] == text[offset]
  {
    var p, q := text[..offset], text[..offset + 1];
    assert q == p + [text[offset]];
    SplitStep(p, text[offset]);
    SplitPrefix(q, text);
  }

  /**
   * The line and column of an offset name a line that exists, and the caret
   * under that line stands under the character at the offset; at a newline or
   * at the end of input it stands just past the end of the line.
   */
  lemma CaretMarksOffset(text: string, offset: nat)
    requires offset <= |text|
    ensures var (l, c) := LineColumn(text, offset);
      var lines := Split(text);
      1 <= l <= |lines| && 1 <= c <= |lines[l - 1]| + 1 &&
      (offset < |text| && text[offset] != '\n' ==> c <= |lines[l - 1]| && lines[l - 1][c - 1] == text[offset])
  {
    OffsetLine(text, offset);
    if offset < |text| && text[offset] != '\n' {
      OffsetChar(text, offset);
    }
  }

  /** The report for the (line, column) of an offset prints the offending line and a caret under the offending character. */
  lemma ReportPointsAt(text: string, offset: nat)
    requires offset <= |text|
    ensures var (l, c) := LineColumn(text, offset);
      var r := Report(text, l, c);
      1 <= l <= |Split(text)| && r.Some? && r.value[3] == Split(text)[l - 1] &&
      |r.value[4]| == c && r.value[4][c - 1] == '^' &&
      (offset < |text| && text[offset] != '\n' ==> c <= |r.value[3]| && r.value[3][c - 1] == text[offset])
  {
    CaretMarksOffset(text, offset);
  }
}
