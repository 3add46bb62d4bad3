/**
 * The parser object of llpdf/repr/PDFParser.py: a cursor over the token
 * stream that each grammar rule advances, with the actions that build the
 * dictionary, array and string written as the loops they are. Every rule
 * method is proved to do exactly what the Grammar function of its production
 * says: the same value, the same next position, and on failure the cursor
 * back where the rule started.
 */
module Parser {
  import opened Wrappers
  import opened Names
  import opened Values
  import opened Lexer
  import opened Grammar
  import opened GrammarFacts
  import opened Diagnostics

  class PDFParser {
    /** The token stream of the text being parsed. */
    const toks: seq<Token>
    /** The index of the next token to read. */
    var pos: nat
    /** The furthest token index looked at so far, where a syntactic error is reported. */
    var far: nat

    ghost predicate Valid()
      reads this
    {
      pos <= |toks| && far <= |toks|
    }

    constructor (toks: seq<Token>)
      ensures Valid() && this.toks == toks && pos == 0 && far == 0
    {
      this.toks := toks;
      pos := 0;
      far := 0;
    }

    /** The kind of the next token, None at the end of input; looking at it moves `far`. */
    method Peek() returns (k: Option<Kind>)
      requires Valid()
      modifies this
      ensures Valid() && pos == old(pos) && far == Max(old(far), pos)
      ensures k == KindAt(toks, pos)
    {
      far := Max(far, pos);
      k := if pos < |toks| then Some(toks[pos].kind) else None;
    }

    /** `PDFName/e -> pdfname_token/e` */
    method NameRule() returns (r: Option<PDFName>)
      requires Valid()
      modifies this
      ensures Valid()
      ensures var o := ParseName(toks, old(pos));
        far == Max(old(far), o.far) &&
        (if o.Success? then r == Some(o.value) && pos == o.next else r == None && pos == old(pos))
    {
      var k := Peek();
      if k.Some? && k.value.NameTok? {
        pos := pos + 1;
        r := Some(k.value.name);
      } else {
        r := None;
      }
    }

    /** `PDFXRef/e -> integer/a integer/b 'R'` */
    method XRefRule() returns (r: Option<Value>)
      requires Valid()
      modifies this
      ensures Valid()
      ensures var o := ParseXRef(toks, old(pos));
        far == Max(old(far), o.far) &&
        (if o.Success? then r == Some(o.value) && pos == o.next else r == None && pos == old(pos))
    {
      var start := pos;
      var k := Peek();
      if !(k.Some? && k.value.IntegerTok?) {
        return None;
      }
      var a := k.value.intValue;
      pos := pos + 1;
      k := Peek();
      if !(k.Some? && k.value.IntegerTok?) {
        pos := start;
        return None;
      }
      var b := k.value.intValue;
      pos := pos + 1;
      k := Peek();
      if k != Some(RefMarker) {
        pos := start;
        return None;
      }
      pos := pos + 1;
      r := Some(XRef(a, b));
    }

    /** `PDFValue/e -> integer/e | float/e | bool/e` */
    method ValueRule() returns (r: Option<Value>)
      requires Valid()
      modifies this
      ensures Valid()
      ensures var o := ParseValue(toks, old(pos));
        far == Max(old(far), o.far) &&
        (if o.Success? then r == Some(o.value) && pos == o.next else r == None && pos == old(pos))
    {
      var k := Peek();
      if k.Some? && k.value.IntegerTok? {
        r := Some(Integer(k.value.intValue));
      } else if k.Some? && k.value.FloatTok? {
        r := Some(Real(k.value.lexeme));
      } else if k.Some? && k.value.BoolTok? {
        r := Some(Boolean(k.value.boolValue));
      } else {
        return None;
      }
      pos := pos + 1;
    }

    /** `PDFExpression/e -> PDFXRef/e | PDFDict/e | PDFValue/e | PDFName/e | PDFArray/e | PDFString/e` */
    method Expression() returns (r: Option<Value>)
      requires Valid()
      modifies this
      ensures Valid()
      ensures var o := ParseExpression(toks, old(pos));
        far == Max(old(far), o.far) &&
        (if o.Success? then r == Some(o.value) && pos == o.next else r == None && pos == old(pos))
      decreases |toks| - pos, 2
    {
      ghost var p, f := pos, far;
      ghost var o6 := StringValue(ParseString(toks, p));
      ghost var o5 := OrElse(ParseArray(toks, p), o6);
      ghost var o4 := OrElse(NameValue(ParseName(toks, p)), o5);
      ghost var o3 := OrElse(ParseValue(toks, p), o4);
      ghost var o2 := OrElse(ParseDict(toks, p), o3);
      r := XRefRule();
      if r.Some? { return; }
      OrElseStep(f, ParseXRef(toks, p), o2);
      f := far;
      r := DictRule();
      if r.Some? { return; }
      OrElseStep(f, ParseDict(toks, p), o3);
      f := far;
      r := ValueRule();
      if r.Some? { return; }
      OrElseStep(f, ParseValue(toks, p), o4);
      f := far;
      var n := NameRule();
      if n.Some? { return Some(Name(n.value)); }
      OrElseStep(f, NameValue(ParseName(toks, p)), o5);
      f := far;
      r := ArrayRule();
      if r.Some? { return; }
      OrElseStep(f, ParseArray(toks, p), o6);
      var s := StringRule();
      if s.Some? { return Some(String(s.value)); }
      r := None;
    }

    /** `PDFDict/d -> start_dict ( PDFName/k PDFExpression/v )* end_dict` */
    method DictRule() returns (r: Option<Value>)
      requires Valid()
      modifies this
      ensures Valid()
      ensures var o := ParseDict(toks, old(pos));
        far == Max(old(far), o.far) &&
        (if o.Success? then r == Some(o.value) && pos == o.next else r == None && pos == old(pos))
      decreases |toks| - pos, 1
    {
      var start := pos;
      var k := Peek();
      if k != Some(StartDict) {
        return None;
      }
      pos := pos + 1;
      var d := DictBody();
      k := Peek();
      if k != Some(EndDict) {
        pos := start;
        return None;
      }
      pos := pos + 1;
      r := Some(Dict(d));
    }

    /** The `( PDFName/k PDFExpression/v $ d[k] = v )*` loop of PDFDict, from `d = dict()`. */
    method DictBody() returns (d: Entries)
      requires Valid()
      modifies this
      ensures Valid()
      ensures var m := DictPairs(toks, old(pos));
        pos == m.next && far == Max(old(far), m.far) && d == Build(m.items)
      decreases |toks| - pos, 0
    {
      ghost var all := DictPairs(toks, pos);
      ghost var far0 := far;
      d := [];
      while true
        invariant Valid() && old(pos) <= pos <= all.next
        invariant DictPairs(toks, pos).next == all.next
        invariant AssignAll(d, DictPairs(toks, pos).items) == Build(all.items)
        invariant Max(far, DictPairs(toks, pos).far) == Max(far0, all.far)
        decreases |toks| - pos
      {
        var save := pos;
        var key := NameRule();
        if key.None? {
          break;
        }
        var val := Expression();
        if val.None? {
          pos := save;
          break;
        }
        PairStep(toks, save, d);
        d := Assign(d, key.value, val.value);
      }
    }

    /** `PDFArray/a -> start_array ( PDFExpression/e )* end_array` */
    method ArrayRule() returns (r: Option<Value>)
      requires Valid()
      modifies this
      ensures Valid()
      ensures var o := ParseArray(toks, old(pos));
        far == Max(old(far), o.far) &&
        (if o.Success? then r == Some(o.value) && pos == o.next else r == None && pos == old(pos))
      decreases |toks| - pos, 1
    {
      var start := pos;
      var k := Peek();
      if k != Some(StartArray) {
        return None;
      }
      pos := pos + 1;
      var a := ArrayBody();
      k := Peek();
      if k != Some(EndArray) {
        pos := start;
        return None;
      }
      pos := pos + 1;
      r := Some(Array(a));
    }

    /** The `( PDFExpression/e $ a.append(e) )*` loop of PDFArray, from `a = list()`. */
    method ArrayBody() returns (a: seq<Value>)
      requires Valid()
      modifies this
      ensures Valid()
      ensures var m := ArrayElems(toks, old(pos));
        pos == m.next && far == Max(old(far), m.far) && a == m.items
      decreases |toks| - pos, 3
    {
      ghost var all := ArrayElems(toks, pos);
      ghost var far0 := far;
      a := [];
      while true
        invariant Valid() && old(pos) <= pos <= all.next
        invariant var rest := ArrayElems(toks, pos);
          rest.next == all.next && a + rest.items == all.items &&
          Max(far, rest.far) == Max(far0, all.far)
        decreases |toks| - pos
      {
        var e := Expression();
        if e.None? {
          break;
        }
        a := a + [e.value];
      }
    }

    /** `PDFString/s -> start_string ( string/e | PDFString/e )* end_string` */
    method StringRule() returns (r: Option<string>)
      requires Valid()
      modifies this
      ensures Valid()
      ensures var o := ParseString(toks, old(pos));
        far == Max(old(far), o.far) &&
        (if o.Success? then r == Some(o.value) && pos == o.next else r == None && pos == old(pos))
      decreases |toks| - pos, 0
    {
      var start := pos;
      var k := Peek();
      if k != Some(StartString) {
        return None;
      }
      pos := pos + 1;
      var s := StringBody();
      k := Peek();
      if k != Some(EndString) {
        pos := start;
        return None;
      }
      pos := pos + 1;
      r := Some(s);
    }

    /** One `string/e | PDFString/e` alternative of PDFString, as the text `s` grows by. */
    method StringPart() returns (r: Option<string>)
      requires Valid()
      modifies this
      ensures Valid()
      ensures var o := ParseStringPart(toks, old(pos));
        far == Max(old(far), o.far) &&
        (if o.Success? then r == Some(o.value) && pos == o.next else r == None && pos == old(pos))
      decreases |toks| - pos, 1
    {
      var k := Peek();
      if k.Some? && k.value.StringTok? {
        pos := pos + 1;
        return Some(k.value.text);
      }
      var inner := StringRule();
      if inner.None? {
        return None;
      }
      r := Some("(" + inner.value + ")");
    }

    /**
     * The loop of PDFString from `s = ""`: `s += e` for a text run,
     * `s += "(" + e + ")"` for a nested string.
     */
    method StringBody() returns (s: string)
      requires Valid()
      modifies this
      ensures Valid()
      ensures var m := StringParts(toks, old(pos));
        pos == m.next && far == Max(old(far), m.far) && s == Concat(m.items)
      decreases |toks| - pos, 2
    {
      ghost var all := StringParts(toks, pos);
      ghost var far0 := far;
      ghost var done: seq<string> := [];
      s := "";
      while true
        invariant Valid() && old(pos) <= pos <= all.next
        invariant s == Concat(done)
        invariant StringParts(toks, pos).next == all.next
        invariant done + StringParts(toks, pos).items == all.items
        invariant Max(far, StringParts(toks, pos).far) == Max(far0, all.far)
        decreases |toks| - pos
      {
        ghost var here := pos;
        var e := StringPart();
        if e.None? {
          break;
        }
        PartsStep(toks, here, done);
        ConcatSnoc(done, e.value);
        done := done + [e.value];
        s := s + e.value;
      }
      assert done == done + StringParts(toks, pos).items == all.items;
    }
  }

  lemma PartsStep(toks: seq<Token>, pos: nat, done: seq<string>)
    requires pos <= |toks| && ParseStringPart(toks, pos).Success?
    ensures var p := ParseStringPart(toks, pos);
      var m, rest := StringParts(toks, pos), StringParts(toks, p.next);
      m.next == rest.next && m.far == Max(p.far, rest.far) &&
      done + m.items == (done + [p.value]) + rest.items
  {
  }

  /** One more `PDFName/k PDFExpression/v` pair: `d[k] = v`, then the rest of the pairs. */
  lemma PairStep(toks: seq<Token>, pos: nat, d: Entries)
    requires pos <= |toks|
    requires ParseName(toks, pos).Success?
    requires ParseExpression(toks, ParseName(toks, pos).next).Success?
    ensures var k := ParseName(toks, pos);
      var v := ParseExpression(toks, k.next);
      var m, rest := DictPairs(toks, pos), DictPairs(toks, v.next);
      m.next == rest.next && m.far == Max(v.far, rest.far) &&
      AssignAll(d, m.items) == AssignAll(Assign(d, k.value, v.value), rest.items)
  {
  }

  /** Trying B after A failed: the outcome is B's, and the furthest token looked at is the furthest of both. */
  lemma OrElseStep<T>(f: nat, a: Outcome<T>, b: Outcome<T>)
    requires a.Failure?
    ensures OrElse(a, b).Success? == b.Success?
    ensures b.Success? ==> OrElse(a, b).value == b.value && OrElse(a, b).next == b.next
    ensures Max(f, OrElse(a, b).far) == Max(Max(f, a.far), b.far)
  {
  }

  /** `s += e` on the concatenation of the parts so far. */
  lemma {:induction false} ConcatSnoc(parts: seq<string>, e: string)
    ensures Concat(parts + [e]) == Concat(parts) + e
    decreases |parts|
  {
    if parts == [] {
      assert parts + [e] == [e];
      assert Concat([e]) == e + Concat([]);
    } else {
      assert (parts + [e])[1..] == parts[1..] + [e];
      ConcatSnoc(parts[1..], e);
    }
  }

  // ------------------------------------------------------------ parse(text)

  /** The error the parser raises, at a 1-based line and column of the text. */
  datatype ParseError = LexicalError(line: nat, column: nat) | SyntacticError(line: nat, column: nat)

  /** Where a syntactic error at token index i is reported: the token's first character, or the end of the text. */
  function ErrorOffset(text: string, toks: seq<Token>, i: nat): nat
    requires forall k :: 0 <= k < |toks| ==> toks[k].start < |text|
  {
    if i < |toks| then toks[i].start else |text|
  }

  /**
   * The value `PDFParser()(text)` returns, or the error it raises: a lexical
   * error exactly when lexing fails, otherwise the outcome of START over the
   * token stream, with a rejection raised as a syntactic error.
   */
  function ParseText(text: string): (r: Result<Value, ParseError>)
    ensures r.Err? && r.error.LexicalError? <==> Tokenize(text).Err?
    ensures Tokenize(text).Ok? ==> (r.Ok? <==> ParseStart(Tokenize(text).value).Ok?)
    ensures Tokenize(text).Ok? && r.Ok? ==> r.value == ParseStart(Tokenize(text).value).value
  {
    match Tokenize(text)
    case Err(o) =>
      var (l, c) := LineColumn(text, o);
      Err(LexicalError(l, c))
    case Ok(toks) =>
      TokensOfText(text);
      match ParseStart(toks)
      case Ok(v) => Ok(v)
      case Err(i) =>
        var (l, c) := LineColumn(text, ErrorOffset(text, toks, i));
        Err(SyntacticError(l, c))
  }

  /** What `parse` prints before re-raising an error; nothing on success. */
  function Printed(text: string, r: Result<Value, ParseError>): seq<string> {
    if r.Ok? then []
    else
      match Report(text, r.error.line, r.error.column)
      case Some(lines) => lines
      case None => []
  }

  /**
   * `parse(text)`: run the parser over the whole text; on a lexical or
   * syntactic error print the report and pass the error on.
   */
  method Parse(text: string) returns (r: Result<Value, ParseError>, printed: seq<string>)
    ensures r == ParseText(text)
    ensures printed == Printed(text, r)
  {
    var lexed := Tokenize(text);
    if lexed.Err? {
      var (l, c) := LineColumn(text, lexed.error);
      r := Err(LexicalError(l, c));
    } else {
      var toks := lexed.value;
      TokensOfText(text);
      var parser := new PDFParser(toks);
      var e := parser.Expression();
      if e.Some? {
        var k := parser.Peek();
        if k == None {
          assert ParseStart(toks) == Ok(e.value);
          return Ok(e.value), [];
        }
      }
      assert ParseStart(toks) == Err(parser.far);
      var (l, c) := LineColumn(text, ErrorOffset(text, toks, parser.far));
      r := Err(SyntacticError(l, c));
    }
    printed := Printed(text, r);
  }

  // -------------------------------------------------------------- properties

  /** What every token of a covered text satisfies. */
  ghost predicate TokenFacts(text: string, t: Token) {
    t.start < t.stop <= |text| && !IsSpace(text[t.start]) &&
    (t.kind.StringTok? ==> NoParens(t.kind.text)) &&
    (t.kind.NameTok? ==> IsNameLexeme(t.kind.name.Value()) && t.kind.name.Value() == text[t.start..t.stop])
  }

  lemma {:induction false} SpannedTokens(text: string, from: nat, ts: seq<Token>)
    requires Spanned(text, from, ts)
    ensures forall k :: 0 <= k < |ts| ==> TokenFacts(text, ts[k])
    decreases |ts|
  {
    if ts != [] {
      SpannedTokens(text, ts[0].stop, ts[1..]);
      assert forall k :: 1 <= k < |ts| ==> ts[k] == ts[1..][k - 1];
    }
  }

  /**
   * The lexer never fails, every text run it yields is free of parentheses,
   * and every name it yields is a well-formed `/Name` spelled as in the text.
   */
  lemma TokensOfText(text: string)
    ensures Tokenize(text).Ok?
    ensures TextRunsPlain(Tokenize(text).value)
    ensures forall k :: 0 <= k < |Tokenize(text).value| ==> TokenFacts(text, Tokenize(text).value[k])
  {
    TokenizeNeverFails(text, 0);
    SpannedTokens(text, 0, Tokenize(text).value);
  }

  /** `parse` never raises a lexical error. */
  lemma NoLexicalError(text: string)
    ensures !(ParseText(text).Err? && ParseText(text).error.LexicalError?)
  {
    TokenizeNeverFails(text, 0);
  }

  /**
   * The report printed for a syntactic error shows the line holding the
   * error with a caret under the first character of the offending token, or
   * just past the end of the last line when the input ended too early.
   */
  lemma ReportMarksOffendingToken(text: string)
    ensures Tokenize(text).Ok?
    ensures forall k :: 0 <= k < |Tokenize(text).value| ==> Tokenize(text).value[k].start < |text|
    ensures var toks := Tokenize(text).value;
      var r := ParseText(text);
      ParseStart(toks).Err? ==>
        r.Err? && r.error.SyntacticError? &&
        var i, l, c := ParseStart(toks).error, r.error.line, r.error.column;
        var rs := Printed(text, r);
        1 <= l <= |Split(text)| && |rs| == 5 && rs[3] == Split(text)[l - 1] && rs[4] == Caret(c) &&
        |rs[4]| == c && rs[4][c - 1] == '^' &&
        (i < |toks| ==> c <= |rs[3]| && rs[3][c - 1] == text[toks[i].start]) &&
        (i == |toks| ==> l == |Split(text)| && c == |rs[3]| + 1)
  {
    TokensOfText(text);
    var toks := Tokenize(text).value;
    if ParseStart(toks).Err? {
      var i := ParseStart(toks).error;
      var offset := ErrorOffset(text, toks, i);
      SyntacticErrorAt(text);
      SyntacticReport(text, offset);
      var (l, c) := LineColumn(text, offset);
      var r := ParseText(text);
      assert r == Err(SyntacticError(l, c));
      assert r.error.line == l && r.error.column == c;
      if i < |toks| {
        assert TokenFacts(text, toks[i]);
      }
    }
  }

  /** A rejected token stream makes `parse` raise a syntactic error at the (line, column) of the offending offset. */
  lemma SyntacticErrorAt(text: string)
    requires Tokenize(text).Ok?
    requires forall k :: 0 <= k < |Tokenize(text).value| ==> Tokenize(text).value[k].start < |text|
    ensures var toks := Tokenize(text).value;
      ParseStart(toks).Err? ==>
        var (l, c) := LineColumn(text, ErrorOffset(text, toks, ParseStart(toks).error));
        ParseText(text) == Err(SyntacticError(l, c))
  {
  }

  /** What is printed for a syntactic error at an offset: its line, and a caret under it. */
  lemma SyntacticReport(text: string, offset: nat)
    requires offset <= |text|
    ensures var (l, c) := LineColumn(text, offset);
      var rs := Printed(text, Err(SyntacticError(l, c)));
      1 <= l <= |Split(text)| && |rs| == 5 && rs[3] == Split(text)[l - 1] && rs[4] == Caret(c) &&
      |rs[4]| == c && rs[4][c - 1] == '^' &&
      (offset < |text| && text[offset] != '\n' ==> c <= |rs[3]| && rs[3][c - 1] == text[offset]) &&
      (offset == |text| ==> l == |Split(text)| && c == |rs[3]| + 1)
  {
    var (l, c) := LineColumn(text, offset);
    ReportPointsAt(text, offset);
    assert Printed(text, Err(SyntacticError(l, c))) == Report(text, l, c).value;
    if offset == |text| {
      assert text[..offset] == text;
      SplitShape(text);
    }
  }
}
