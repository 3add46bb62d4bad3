/**
 * The token declarations of PDFParser (llpdf/repr/PDFParser.py). The lexer
 * tries, at each position, the inline literal 'R' of the PDFXRef rule, then
 * the separator and the declared tokens in declaration order, and takes the
 * first that matches; each regular expression takes its longest match.
 */
module Lexer {
  import opened Wrappers
  import opened Names

  predicate IsDigit(c: char) { '0' <= c <= '9' }
  predicate IsLetter(c: char) { 'a' <= c <= 'z' || 'A' <= c <= 'Z' }
  /** `[-+a-zA-Z0-9]` */
  predicate IsNameChar(c: char) { IsLetter(c) || IsDigit(c) || c == '-' || c == '+' }
  /** `[\s\n]`: space, tab, line feed, vertical tab, form feed, carriage return. */
  predicate IsSpace(c: char) { c == ' ' || '\t' <= c <= '\r' }
  /** `[^()]` */
  predicate IsNotParen(c: char) { c != '(' && c != ')' }
  /** `\w`, which decides the word boundary after the literal 'R'. */
  predicate IsWordChar(c: char) { IsLetter(c) || IsDigit(c) || c == '_' }

  /** The character classes the token expressions repeat. */
  datatype CharClass = Spaces | Digits | WordChars | NameChars | NotParens

  predicate InClass(c: char, cls: CharClass) {
    match cls
    case Spaces => IsSpace(c)
    case Digits => IsDigit(c)
    case WordChars => IsWordChar(c)
    case NameChars => IsNameChar(c)
    case NotParens => IsNotParen(c)
  }

  /** Length of the longest run of characters of class cls that starts at i. */
  function Run(text: string, i: nat, cls: CharClass): (n: nat)
    requires i <= |text|
    ensures i + n <= |text|
    ensures i + n < |text| ==> !InClass(text[i + n], cls)
    decreases |text| - i
  {
    if i < |text| && InClass(text[i], cls) then 1 + Run(text, i + 1, cls) else 0
  }

  /** Every character of the run is of the class. */
  lemma {:induction false} RunAll(text: string, i: nat, cls: CharClass)
    requires i <= |text|
    ensures forall k :: i <= k < i + Run(text, i, cls) ==> InClass(text[k], cls)
    decreases |text| - i
  {
    if i < |text| && InClass(text[i], cls) {
      RunAll(text, i + 1, cls);
    }
  }

  predicate StartsAt(text: string, i: nat, literal: string) {
    i + |literal| <= |text| && text[i..i + |literal|] == literal
  }

  /** The character c twice, from i: `<<` or `>>`. */
  predicate Doubled(text: string, i: nat, c: char) {
    i + 1 < |text| && text[i] == c && text[i + 1] == c
  }

  function SignLen(text: string, i: nat): nat {
    if i < |text| && text[i] == '-' then 1 else 0
  }

  /** Length of the match of `-?\d*\.\d+` at i, 0 when there is none. */
  function FloatLen(text: string, i: nat): (n: nat)
    requires i <= |text|
    ensures i + n <= |text|
  {
    var s := SignLen(text, i);
    var dot := i + s + Run(text, i + s, Digits);
    if dot < |text| && text[dot] == '.' && Run(text, dot + 1, Digits) > 0
    then dot + 1 + Run(text, dot + 1, Digits) - i
    else 0
  }

  /** Length of the match of `-?\d+` at i, 0 when there is none. */
  function IntegerLen(text: string, i: nat): (n: nat)
    requires i <= |text|
    ensures i + n <= |text|
  {
    var s := SignLen(text, i);
    var d := Run(text, i + s, Digits);
    if d > 0 then s + d else 0
  }

  /** Length of the match of `true|false` at i, 0 when there is none. */
  function BoolLen(text: string, i: nat): (n: nat)
    requires i <= |text|
    ensures i + n <= |text|
  {
    if StartsAt(text, i, "true") then 4
    else if StartsAt(text, i, "false") then 5
    else 0
  }

  /** Length of the match of `/[a-zA-Z][-+a-zA-Z0-9]*` at i, 0 when there is none. */
  function NameLen(text: string, i: nat): (n: nat)
    requires i <= |text|
    ensures i + n <= |text|
  {
    if i + 1 < |text| && text[i] == '/' && IsLetter(text[i + 1])
    then 2 + Run(text, i + 2, NameChars)
    else 0
  }

  /** The inline literal 'R', which must end at a word boundary. */
  predicate RefMarkerAt(text: string, i: nat) {
    i < |text| && text[i] == 'R' && (i + 1 == |text| || !IsWordChar(text[i + 1]))
  }

  /** The token kinds, with the value each token's conversion function gives. */
  datatype Kind =
    | RefMarker
    | StartDict | EndDict
    | StartArray | EndArray
    | StartString | EndString
    | FloatTok(lexeme: string)
    | IntegerTok(intValue: int)
    | BoolTok(boolValue: bool)
    | NameTok(name: PDFName)
    | StringTok(text: string)

  /** A token and the span [start, stop) of its lexeme in the text. */
  datatype Token = Token(kind: Kind, start: nat, stop: nat)

  predicate NoParens(s: string) {
    forall k :: 0 <= k < |s| ==> IsNotParen(s[k])
  }

  predicate AllDigits(s: string) {
    forall k :: 0 <= k < |s| ==> IsDigit(s[k])
  }

  function Unsigned(s: string): string {
    if |s| > 0 && s[0] == '-' then s[1..] else s
  }

  /** Matches `-?\d+` as a whole. */
  predicate IsIntegerLexeme(s: string) {
    |Unsigned(s)| > 0 && AllDigits(Unsigned(s))
  }

  /** Matches `-?\d*\.\d+` as a whole. */
  ghost predicate IsFloatLexeme(s: string) {
    exists d :: DotSplits(Unsigned(s), d)
  }

  /** u is digits, the dot at d, then at least one digit. */
  predicate DotSplits(u: string, d: int) {
    0 <= d < |u| - 1 && u[d] == '.' && DigitsBetween(u, 0, d) && DigitsBetween(u, d + 1, |u|)
  }

  /** Only digits from index lo up to hi. */
  predicate DigitsBetween(s: string, lo: nat, hi: nat)
    requires hi <= |s|
  {
    forall k :: lo <= k < hi ==> IsDigit(s[k])
  }

  /** Matches `/[a-zA-Z][-+a-zA-Z0-9]*` as a whole. */
  predicate IsNameLexeme(s: string) {
    |s| >= 2 && s[0] == '/' && IsLetter(s[1]) && forall k :: 2 <= k < |s| ==> IsNameChar(s[k])
  }

  /** The decimal value of a run of digits. */
  function DigitsValue(ds: string): nat
    requires AllDigits(ds)
    decreases |ds|
  {
    if ds == [] then 0
    else 10 * DigitsValue(ds[..|ds| - 1]) + (ds[|ds| - 1] as int - '0' as int)
  }

  /** `int(lexeme)` on an integer lexeme. */
  function IntValue(lexeme: string): int
    requires IsIntegerLexeme(lexeme)
  {
    if lexeme[0] == '-' then -(DigitsValue(lexeme[1..]) as int) else DigitsValue(lexeme)
  }

  /** `_to_bool`: true for the text `true`, false for `false` and for any other text. */
  function ToBool(value: string): (b: bool)
    ensures b <==> value == "true"
    ensures value == "false" ==> !b
  {
    value == "true"
  }

  /**
   * The token at i, which is not a separator: the first kind, in declaration
   * order, whose expression matches there.
   */
  function NextToken(text: string, i: nat): (t: Option<Token>)
    requires i < |text| && !IsSpace(text[i])
    ensures t.Some? ==> t.value.start == i < t.value.stop <= |text|
  {
    if PunctuationAt(text, i) then FixedToken(text, i)
    else if FloatLen(text, i) > 0 then
      var n := FloatLen(text, i);
      Some(Token(FloatTok(text[i..i + n]), i, i + n))
    else if IntegerLen(text, i) > 0 then
      var n := IntegerLen(text, i);
      IntegerShape(text, i);
      Some(Token(IntegerTok(IntValue(text[i..i + n])), i, i + n))
    else WordToken(text, i)
  }

  /** The inline literal 'R', then the bracket tokens, in declaration order. */
  function FixedToken(text: string, i: nat): (t: Option<Token>)
    requires i < |text|
    ensures t.Some? ==> t.value.start == i < t.value.stop <= |text|
  {
    if RefMarkerAt(text, i) then Some(Token(RefMarker, i, i + 1))
    else if Doubled(text, i, '<') then Some(Token(StartDict, i, i + 2))
    else if Doubled(text, i, '>') then Some(Token(EndDict, i, i + 2))
    else if text[i] == '[' then Some(Token(StartArray, i, i + 1))
    else if text[i] == ']' then Some(Token(EndArray, i, i + 1))
    else if text[i] == '(' then Some(Token(StartString, i, i + 1))
    else if text[i] == ')' then Some(Token(EndString, i, i + 1))
    else None
  }

  /** The declared tokens after the numbers, in order: `bool`, `pdfname_token`, `string`. */
  function WordToken(text: string, i: nat): (t: Option<Token>)
    requires i < |text|
    ensures t.Some? ==> t.value.start == i < t.value.stop <= |text|
  {
    if BoolLen(text, i) > 0 then
      var n := BoolLen(text, i);
      Some(Token(BoolTok(ToBool(text[i..i + n])), i, i + n))
    else if NameLen(text, i) > 0 then
      var n := NameLen(text, i);
      Some(Token(NameTok(NewName(text[i..i + n])), i, i + n))
    else if Run(text, i, NotParens) > 0 then
      var n := Run(text, i, NotParens);
      Some(Token(StringTok(text[i..i + n]), i, i + n))
    else None
  }

  /** The tokens from i to the end of the text, or the offset where no token matches. */
  function Lex(text: string, i: nat): (r: Result<seq<Token>, nat>)
    requires i <= |text|
    ensures r.Err? ==> i <= r.error < |text|
    decreases |text| - i
  {
    var j := i + Run(text, i, Spaces);
    if j == |text| then Ok([])
    else
      match NextToken(text, j)
      case None => Err(j)
      case Some(t) =>
        match Lex(text, t.stop)
        case Err(p) => Err(p)
        case Ok(rest) => Ok([t] + rest)
  }

  /**
   * The whole token stream of a text: the tokens cover the text, with only
   * separators around them, and each denotes its lexeme.
   */
  function Tokenize(text: string): (r: Result<seq<Token>, nat>)
    ensures r.Err? ==> r.error < |text|
    ensures r.Ok? ==> Spanned(text, 0, r.value)
  {
    TokenizeNeverFails(text, 0);
    Lex(text, 0)
  }

  /** The character at i starts a fractional part `.\d`. */
  predicate FractionAt(text: string, i: nat) {
    i + 1 < |text| && text[i] == '.' && IsDigit(text[i + 1])
  }

  /** The character at i, if any, is of class cls. */
  predicate NextIs(text: string, i: nat, cls: CharClass) {
    i < |text| && InClass(text[i], cls)
  }

  /**
   * A token's kind and payload are what its lexeme denotes, and a lexeme of
   * variable length is the longest match of its expression.
   */
  ghost predicate Denotes(text: string, t: Token)
    requires t.start < t.stop <= |text|
  {
    match t.kind
    case RefMarker => text[t.start..t.stop] == "R" && !NextIs(text, t.stop, WordChars)
    case FloatTok(l) => FloatSpan(text, t.start, t.stop, l)
    case IntegerTok(v) => IntegerSpan(text, t.start, t.stop, v)
    case BoolTok(b) => BoolSpan(text, t.start, t.stop, b)
    case NameTok(n) => NameSpan(text, t.start, t.stop, n)
    case StringTok(str) => TextSpan(text, t.start, t.stop, str)
    case _ => text[t.start..t.stop] == Bracket(t.kind)
  }

  /** The fixed text of a bracket token. */
  function Bracket(k: Kind): string {
    match k
    case StartDict => "<<"
    case EndDict => ">>"
    case StartArray => "["
    case EndArray => "]"
    case StartString => "("
    case EndString => ")"
    case _ => ""
  }

  /** `-?\d*\.\d+` spans start..stop, not followed by a digit, and the token keeps the lexeme. */
  ghost predicate FloatSpan(text: string, start: nat, stop: nat, l: string)
    requires start <= stop <= |text|
  {
    l == text[start..stop] && IsFloatLexeme(l) && !NextIs(text, stop, Digits)
  }

  /** `-?\d+` spans start..stop, followed by neither a digit nor a fraction, and v is its value. */
  ghost predicate IntegerSpan(text: string, start: nat, stop: nat, v: int)
    requires start <= stop <= |text|
  {
    var lexeme := text[start..stop];
    IsIntegerLexeme(lexeme) && v == IntValue(lexeme) && !NextIs(text, stop, Digits) && !FractionAt(text, stop)
  }

  /** `true` or `false` spans start..stop and b is `_to_bool` of it. */
  ghost predicate BoolSpan(text: string, start: nat, stop: nat, b: bool)
    requires start <= stop <= |text|
  {
    var lexeme := text[start..stop];
    (lexeme == "true" && b) || (lexeme == "false" && !b)
  }

  /** A whole `/Name` spans start..stop and n holds it. */
  ghost predicate NameSpan(text: string, start: nat, stop: nat, n: PDFName)
    requires start <= stop <= |text|
  {
    var lexeme := text[start..stop];
    n.Value() == lexeme && IsNameLexeme(lexeme) && !NextIs(text, stop, NameChars)
  }

  /** A whole run of non-parentheses, starting with a non-space, spans start..stop and str is it. */
  ghost predicate TextSpan(text: string, start: nat, stop: nat, str: string)
    requires start <= stop <= |text|
  {
    str == text[start..stop] && |str| > 0 && !IsSpace(str[0]) && NoParens(str) && !NextIs(text, stop, NotParens)
  }

  /** Only white space between from and to. */
  ghost predicate AllSpace(text: string, from: nat, to: nat)
    requires from <= to <= |text|
  {
    forall k :: from <= k < to ==> IsSpace(text[k])
  }

  /**
   * The tokens ts cover text from offset `from` on: they follow each other,
   * only separators lie before, between and after them, and each token
   * denotes its lexeme.
   */
  ghost predicate Spanned(text: string, from: nat, ts: seq<Token>)
    decreases |ts|
  {
    from <= |text| &&
    if ts == [] then AllSpace(text, from, |text|)
    else
      from <= ts[0].start < ts[0].stop <= |text| && AllSpace(text, from, ts[0].start) &&
      !IsSpace(text[ts[0].start]) && Denotes(text, ts[0]) && Spanned(text, ts[0].stop, ts[1..])
  }

  /** Dropping the sign of a lexeme that starts at i. */
  lemma UnsignedAt(text: string, i: nat, j: nat)
    requires i < j <= |text|
    ensures Unsigned(text[i..j]) == text[i + SignLen(text, i)..j]
  {
  }

  /** Digits of text between lo and hi are digits of any slice a..b that covers them. */
  lemma DigitsInSlice(text: string, a: nat, b: nat, lo: nat, hi: nat)
    requires a <= b <= |text| && lo <= hi <= b - a
    requires DigitsBetween(text, a + lo, a + hi)
    ensures DigitsBetween(text[a..b], lo, hi)
  {
    forall k | lo <= k < hi ensures IsDigit(text[a..b][k]) {
      assert text[a..b][k] == text[a + k];
    }
  }

  /** The float match at i: digits, then a dot, then at least one digit up to its end. */
  lemma FloatParts(text: string, i: nat)
    requires i < |text| && FloatLen(text, i) > 0
    ensures var s := SignLen(text, i);
      var dot := i + s + Run(text, i + s, Digits);
      var end := i + FloatLen(text, i);
      dot + 1 < end && text[dot] == '.' &&
      DigitsBetween(text, i + s, dot) && DigitsBetween(text, dot + 1, end)
  {
    var s := SignLen(text, i);
    RunAll(text, i + s, Digits);
    RunAll(text, i + s + Run(text, i + s, Digits) + 1, Digits);
  }

  /** The float match is a float lexeme: optional sign, digits, a dot, at least one digit. */
  lemma FloatShape(text: string, i: nat)
    requires i < |text| && FloatLen(text, i) > 0
    ensures IsFloatLexeme(text[i..i + FloatLen(text, i)])
  {
    FloatDot(text, i);
    UnsignedAt(text, i, i + FloatLen(text, i));
  }

  /** Without its sign, the float match has its dot right after the leading digits. */
  lemma FloatDot(text: string, i: nat)
    requires i < |text| && FloatLen(text, i) > 0
    ensures var s := SignLen(text, i);
      DotSplits(text[i + s..i + FloatLen(text, i)], Run(text, i + s, Digits))
  {
    var n := FloatLen(text, i);
    var s := SignLen(text, i);
    FloatParts(text, i);
    DotSplitsSlice(text, i + s, i + n, Run(text, i + s, Digits));
  }

  /** Digits from a, a dot d characters on, then digits up to b: the slice from a splits at d. */
  lemma DotSplitsSlice(text: string, a: nat, b: nat, d: nat)
    requires a + d + 1 < b <= |text| && text[a + d] == '.'
    requires DigitsBetween(text, a, a + d) && DigitsBetween(text, a + d + 1, b)
    ensures DotSplits(text[a..b], d)
  {
    DigitsInSlice(text, a, b, 0, d);
    DigitsInSlice(text, a, b, d + 1, b - a);
  }

  /** The float match is a whole float lexeme, the longest one. */
  lemma FloatDenotes(text: string, i: nat)
    requires i < |text| && FloatLen(text, i) > 0
    ensures var n := FloatLen(text, i);
      FloatSpan(text, i, i + n, text[i..i + n])
  {
    FloatShape(text, i);
    FloatEnd(text, i);
  }

  /** The float match is not followed by a digit. */
  lemma FloatEnd(text: string, i: nat)
    requires i < |text| && FloatLen(text, i) > 0
    ensures !NextIs(text, i + FloatLen(text, i), Digits)
  {
    var s := SignLen(text, i);
    var dot := i + s + Run(text, i + s, Digits);
    assert i + FloatLen(text, i) == dot + 1 + Run(text, dot + 1, Digits);
  }

  /** The integer match is a whole integer lexeme, not cut short before digits or a fraction. */
  lemma IntegerDenotes(text: string, i: nat)
    requires i < |text| && FloatLen(text, i) == 0 && IntegerLen(text, i) > 0
    ensures IsIntegerLexeme(text[i..i + IntegerLen(text, i)])
    ensures var n := IntegerLen(text, i);
      IntegerSpan(text, i, i + n, IntValue(text[i..i + n]))
  {
    IntegerShape(text, i);
    IntegerEnd(text, i);
  }

  /** The integer match is an integer lexeme: optional sign, at least one digit. */
  lemma IntegerShape(text: string, i: nat)
    requires i < |text| && IntegerLen(text, i) > 0
    ensures IsIntegerLexeme(text[i..i + IntegerLen(text, i)])
  {
    var n := IntegerLen(text, i);
    var s := SignLen(text, i);
    RunAll(text, i + s, Digits);
    UnsignedAt(text, i, i + n);
    DigitsInSlice(text, i + s, i + n, 0, n - s);
    assert AllDigits(text[i + s..i + n]);
  }

  /** The integer match is followed by neither a digit nor, when no float matched, a fraction. */
  lemma IntegerEnd(text: string, i: nat)
    requires i < |text| && FloatLen(text, i) == 0 && IntegerLen(text, i) > 0
    ensures !NextIs(text, i + IntegerLen(text, i), Digits) && !FractionAt(text, i + IntegerLen(text, i))
  {
    var n := IntegerLen(text, i);
    assert !NextIs(text, i + n, Digits);
    NoFraction(text, i, i + n);
  }

  /** Where no float matches at i, the digits after the sign are not followed by `.\d`. */
  lemma NoFraction(text: string, i: nat, dot: nat)
    requires i <= |text| && FloatLen(text, i) == 0
    requires dot == i + SignLen(text, i) + Run(text, i + SignLen(text, i), Digits)
    ensures !FractionAt(text, dot)
  {
    assert dot + 1 < |text| && IsDigit(text[dot + 1]) ==> Run(text, dot + 1, Digits) > 0;
  }

  /** The name match is a whole name lexeme, the longest one. */
  lemma NameDenotes(text: string, i: nat)
    requires i < |text| && NameLen(text, i) > 0
    ensures var n := NameLen(text, i);
      IsNameLexeme(text[i..i + n]) && NameSpan(text, i, i + n, NewName(text[i..i + n]))
  {
    var n := NameLen(text, i);
    var lexeme := text[i..i + n];
    RunAll(text, i + 2, NameChars);
    forall k | 2 <= k < n ensures IsNameChar(lexeme[k]) {
      assert lexeme[k] == text[i + k];
    }
    assert IsNameLexeme(lexeme);
    assert !NextIs(text, i + n, NameChars);
  }

  /** The text-run match runs up to the next parenthesis or the end. */
  lemma StringDenotes(text: string, i: nat)
    requires i < |text| && Run(text, i, NotParens) > 0
    requires !IsSpace(text[i])
    ensures var n := Run(text, i, NotParens);
      TextSpan(text, i, i + n, text[i..i + n])
  {
    var n := Run(text, i, NotParens);
    assert NoParens(text[i..i + n]) by {
      RunAll(text, i, NotParens);
      NoParensSlice(text, i, i + n);
    }
    TextSpanOf(text, i, i + n);
  }

  /** A stretch that starts with a non-space, holds no parenthesis and is not followed by one is a whole text run. */
  lemma TextSpanOf(text: string, start: nat, stop: nat)
    requires start < stop <= |text| && !IsSpace(text[start])
    requires NoParens(text[start..stop]) && !NextIs(text, stop, NotParens)
    ensures TextSpan(text, start, stop, text[start..stop])
  {
    assert text[start..stop][0] == text[start];
  }

  /** A stretch of text without parentheses, as a string of its own. */
  lemma NoParensSlice(text: string, a: nat, b: nat)
    requires a <= b <= |text|
    requires forall k :: a <= k < b ==> InClass(text[k], NotParens)
    ensures NoParens(text[a..b])
  {
    forall k | 0 <= k < b - a ensures IsNotParen(text[a..b][k]) {
      assert text[a..b][k] == text[a + k];
      assert InClass(text[a + k], NotParens);
    }
  }

  /** True when one of the fixed-text tokens matches at i. */
  predicate PunctuationAt(text: string, i: nat)
    requires i < |text|
  {
    RefMarkerAt(text, i) || Doubled(text, i, '<') || Doubled(text, i, '>') ||
    text[i] == '[' || text[i] == ']' || text[i] == '(' || text[i] == ')'
  }

  /**
   * A bracket or the marker R lexes as its own token over its own text: the
   * inline 'R' and the bracket tokens are tried before any text run.
   */
  lemma PunctuationDenotes(text: string, i: nat)
    requires i < |text| && !IsSpace(text[i]) && PunctuationAt(text, i)
    ensures NextToken(text, i).Some? && Denotes(text, NextToken(text, i).value)
    ensures RefMarkerAt(text, i) ==> NextToken(text, i) == Some(Token(RefMarker, i, i + 1))
    ensures Doubled(text, i, '<') ==> NextToken(text, i) == Some(Token(StartDict, i, i + 2))
    ensures Doubled(text, i, '>') ==> NextToken(text, i) == Some(Token(EndDict, i, i + 2))
    ensures text[i] == '[' ==> NextToken(text, i) == Some(Token(StartArray, i, i + 1))
    ensures text[i] == ']' ==> NextToken(text, i) == Some(Token(EndArray, i, i + 1))
    ensures text[i] == '(' ==> NextToken(text, i) == Some(Token(StartString, i, i + 1))
    ensures text[i] == ')' ==> NextToken(text, i) == Some(Token(EndString, i, i + 1))
  {
    if RefMarkerAt(text, i) {
      assert text[i..i + 1] == "R";
    } else if Doubled(text, i, '<') || Doubled(text, i, '>') {
      assert text[i..i + 2] == [text[i], text[i + 1]];
    } else {
      assert text[i..i + 1] == [text[i]];
    }
  }

  /** Where a float matches, the token is that float and denotes its lexeme. */
  lemma FloatTokenDenotes(text: string, i: nat)
    requires i < |text| && !IsSpace(text[i]) && !PunctuationAt(text, i) && FloatLen(text, i) > 0
    ensures NextToken(text, i).Some? && Denotes(text, NextToken(text, i).value)
  {
    FloatBeforeInteger(text, i);
    FloatDenotes(text, i);
  }

  /** Where no float but an integer matches, the token is that integer and denotes its lexeme. */
  lemma IntegerTokenDenotes(text: string, i: nat)
    requires i < |text| && !IsSpace(text[i]) && !PunctuationAt(text, i)
    requires FloatLen(text, i) == 0 && IntegerLen(text, i) > 0
    ensures NextToken(text, i).Some? && Denotes(text, NextToken(text, i).value)
  {
    IntegerToken(text, i);
    IntegerDenotes(text, i);
  }

  /** Where no fixed token and no float matches but an integer does, the token is that integer. */
  lemma IntegerToken(text: string, i: nat)
    requires i < |text| && !IsSpace(text[i]) && !PunctuationAt(text, i)
    requires FloatLen(text, i) == 0 && IntegerLen(text, i) > 0
    ensures var n := IntegerLen(text, i);
      IsIntegerLexeme(text[i..i + n]) &&
      NextToken(text, i) == Some(Token(IntegerTok(IntValue(text[i..i + n])), i, i + n))
  {
    IntegerShape(text, i);
  }

  /** Where no fixed token and no number matches, `true` or `false` is a boolean, through `_to_bool`. */
  lemma BoolToken(text: string, i: nat)
    requires i < |text| && !IsSpace(text[i]) && !PunctuationAt(text, i)
    requires FloatLen(text, i) == 0 && IntegerLen(text, i) == 0 && BoolLen(text, i) > 0
    ensures var n := BoolLen(text, i);
      NextToken(text, i) == Some(Token(BoolTok(ToBool(text[i..i + n])), i, i + n))
  {
  }

  /** Where no fixed token, no number and no boolean matches, a `/Name` is a name token. */
  lemma NameToken(text: string, i: nat)
    requires i < |text| && !IsSpace(text[i]) && !PunctuationAt(text, i)
    requires FloatLen(text, i) == 0 && IntegerLen(text, i) == 0 && BoolLen(text, i) == 0 < NameLen(text, i)
    ensures var n := NameLen(text, i);
      StartsWithSlash(text[i..i + n]) &&
      NextToken(text, i) == Some(Token(NameTok(NewName(text[i..i + n])), i, i + n))
  {
  }

  /** Where no other token matches, the text run up to the next parenthesis is the token. */
  lemma TextRunToken(text: string, i: nat)
    requires i < |text| && !IsSpace(text[i]) && !PunctuationAt(text, i)
    requires FloatLen(text, i) == 0 && IntegerLen(text, i) == 0 && BoolLen(text, i) == 0 && NameLen(text, i) == 0
    ensures Run(text, i, NotParens) > 0
    ensures var n := Run(text, i, NotParens);
      NextToken(text, i) == Some(Token(StringTok(text[i..i + n]), i, i + n))
  {
    RunStarts(text, i, NotParens);
    AfterNumbers(text, i);
    WordTokenRun(text, i);
  }

  /** Where no fixed token and no number matches, the token is the first word token that does. */
  lemma AfterNumbers(text: string, i: nat)
    requires i < |text| && !IsSpace(text[i]) && !PunctuationAt(text, i)
    requires FloatLen(text, i) == 0 && IntegerLen(text, i) == 0
    ensures NextToken(text, i) == WordToken(text, i)
  {
  }

  /** Where neither a boolean nor a name matches, a non-empty run of non-parentheses is the token. */
  lemma WordTokenRun(text: string, i: nat)
    requires i < |text| && Run(text, i, NotParens) > 0 && BoolLen(text, i) == 0 && NameLen(text, i) == 0
    ensures var n := Run(text, i, NotParens);
      WordToken(text, i) == Some(Token(StringTok(text[i..i + n]), i, i + n))
  {
  }

  /** A character of the class starts a non-empty run. */
  lemma RunStarts(text: string, i: nat, cls: CharClass)
    requires i < |text| && InClass(text[i], cls)
    ensures Run(text, i, cls) > 0
  {
  }

  /**
   * Where no fixed token and no number matches: a boolean, through
   * `_to_bool`, is tried first, then a name, then a text run.
   */
  lemma WordDenotes(text: string, i: nat)
    requires i < |text| && !IsSpace(text[i]) && !PunctuationAt(text, i)
    requires FloatLen(text, i) == 0 && IntegerLen(text, i) == 0
    ensures NextToken(text, i).Some? && Denotes(text, NextToken(text, i).value)
    ensures NextToken(text, i).value.kind.BoolTok? || NextToken(text, i).value.kind.NameTok? ||
            NextToken(text, i).value.kind.StringTok?
  {
    if BoolLen(text, i) > 0 {
      BoolToken(text, i);
    } else if NameLen(text, i) > 0 {
      NameToken(text, i);
      NameDenotes(text, i);
    } else {
      TextRunToken(text, i);
      StringDenotes(text, i);
    }
  }

  /** Every token NextToken produces denotes its lexeme, and at a non-space character there always is one. */
  lemma NextTokenDenotes(text: string, i: nat)
    requires i < |text| && !IsSpace(text[i])
    ensures NextToken(text, i).Some?
    ensures Denotes(text, NextToken(text, i).value)
  {
    if PunctuationAt(text, i) {
      PunctuationDenotes(text, i);
    } else if FloatLen(text, i) > 0 {
      FloatTokenDenotes(text, i);
    } else if IntegerLen(text, i) > 0 {
      IntegerTokenDenotes(text, i);
    } else {
      WordDenotes(text, i);
    }
  }

  /** The lexer never reports an error: `[^()]*` matches any character that is not a parenthesis. */
  lemma {:induction false} TokenizeNeverFails(text: string, i: nat)
    requires i <= |text|
    ensures Lex(text, i).Ok?
    ensures Spanned(text, i, Lex(text, i).value)
    decreases |text| - i
  {
    var j := i + Run(text, i, Spaces);
    if j == |text| {
      SkippedSpace(text, i);
      assert Lex(text, i) == Ok([]);
    } else {
      NextTokenDenotes(text, j);
      var t := NextToken(text, j).value;
      TokenizeNeverFails(text, t.stop);
      var rest := Lex(text, t.stop).value;
      assert Lex(text, i) == Ok([t] + rest) by {
        LexStep(text, i, j, t, rest);
      }
      assert Spanned(text, i, [t] + rest) by {
        SkippedSpace(text, i);
        SpannedCons(text, i, t, rest);
      }
    }
  }

  /** The separators skipped before a token are all white space. */
  lemma SkippedSpace(text: string, i: nat)
    requires i <= |text|
    ensures AllSpace(text, i, i + Run(text, i, Spaces))
  {
    RunAll(text, i, Spaces);
  }

  /** Lexing from i: skip the separators, take the next token, lex the rest. */
  lemma LexStep(text: string, i: nat, j: nat, t: Token, rest: seq<Token>)
    requires i <= j < |text| && j == i + Run(text, i, Spaces)
    requires NextToken(text, j) == Some(t) && Lex(text, t.stop) == Ok(rest)
    ensures Lex(text, i) == Ok([t] + rest)
  {
  }

  /** A token preceded by separators and followed by a covered rest covers the text from i. */
  lemma SpannedCons(text: string, i: nat, t: Token, rest: seq<Token>)
    requires i <= t.start < t.stop <= |text| && AllSpace(text, i, t.start)
    requires !IsSpace(text[t.start]) && Denotes(text, t) && Spanned(text, t.stop, rest)
    ensures Spanned(text, i, [t] + rest)
  {
    assert ([t] + rest)[1..] == rest;
  }


  /**
   * Float is declared before integer: where `-?\d*\.\d+` matches, the token is
   * a float with that lexeme, whatever integer would have matched.
   */
  lemma FloatBeforeInteger(text: string, i: nat)
    requires i < |text| && FloatLen(text, i) > 0
    ensures NextToken(text, i) == Some(Token(FloatTok(text[i..i + FloatLen(text, i)]), i, i + FloatLen(text, i)))
  {
    FloatParts(text, i);
    assert text[i] == '-' || text[i] == '.' || IsDigit(text[i]);
    if i + 2 <= |text| {
      assert text[i..i + 2][0] == text[i];
    }
  }
}
