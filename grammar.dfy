/**
 * The grammar of PDFParser (llpdf/repr/PDFParser.py) as ordered-choice
 * recursive descent over the token stream: one function per production.
 * Each returns the value and the index of the first token after it, or a
 * failure from which the caller backtracks to where it started. Every
 * outcome also carries `far`, the furthest token index the production looked
 * at (|toks| stands for the end of input), where a syntactic error is reported.
 */
module Grammar {
  import opened Wrappers
  import opened Names
  import opened Values
  import opened Lexer

  datatype Outcome<+T> = Success(value: T, next: nat, far: nat) | Failure(far: nat)

  /** What a `( ... )*` repetition gathered, and where it stopped. */
  datatype Many<+T> = Many(items: seq<T>, next: nat, far: nat)

  function Max(a: nat, b: nat): nat {
    if a < b then b else a
  }

  /** The kind of the token at index i; None at the end of input. */
  function KindAt(toks: seq<Token>, i: nat): Option<Kind> {
    if i < |toks| then Some(toks[i].kind) else None
  }

  /** A success consumes at least one token; nothing looks beyond the end of input. */
  predicate Sound<T>(o: Outcome<T>, toks: seq<Token>, pos: nat) {
    pos <= o.far <= |toks| && (o.Success? ==> pos < o.next <= |toks|)
  }

  /** `A | B`: B is tried only when A fails, from the same position. */
  function OrElse<T>(first: Outcome<T>, second: Outcome<T>): (r: Outcome<T>)
    ensures r.Success? <==> first.Success? || second.Success?
    ensures first.Success? ==> r == first
    ensures first.Failure? && second.Success? ==> r.value == second.value && r.next == second.next
    ensures first.Failure? ==> r.far == Max(first.far, second.far)
  {
    if first.Success? then first
    else
      match second
      case Success(v, next, far) => Success(v, next, Max(first.far, far))
      case Failure(far) => Failure(Max(first.far, far))
  }

  function NameValue(o: Outcome<PDFName>): Outcome<Value> {
    match o
    case Success(n, next, far) => Success(Name(n), next, far)
    case Failure(far) => Failure(far)
  }

  function StringValue(o: Outcome<string>): Outcome<Value> {
    match o
    case Success(s, next, far) => Success(String(s), next, far)
    case Failure(far) => Failure(far)
  }

  /** `PDFName/e -> pdfname_token/e` */
  function ParseName(toks: seq<Token>, pos: nat): (r: Outcome<PDFName>)
    requires pos <= |toks|
    ensures Sound(r, toks, pos)
    ensures r.far == pos
    ensures r.Success? <==> KindAt(toks, pos).Some? && KindAt(toks, pos).value.NameTok?
    ensures r.Success? ==> r.next == pos + 1 && r.value == toks[pos].kind.name
  {
    match KindAt(toks, pos)
    case Some(NameTok(n)) => Success(n, pos + 1, pos)
    case _ => Failure(pos)
  }

  /** `PDFXRef/e -> integer/a integer/b 'R'` */
  function ParseXRef(toks: seq<Token>, pos: nat): (r: Outcome<Value>)
    requires pos <= |toks|
    ensures Sound(r, toks, pos)
    ensures r.far <= pos + 2
    ensures r.Success? ==> r.next == pos + 3 && KindAt(toks, pos + 2) == Some(RefMarker)
    ensures r.Success? ==> r.value.XRef? && toks[pos].kind == IntegerTok(r.value.objectNumber) &&
                           toks[pos + 1].kind == IntegerTok(r.value.generation)
  {
    match KindAt(toks, pos)
    case Some(IntegerTok(a)) =>
      (match KindAt(toks, pos + 1)
       case Some(IntegerTok(b)) =>
         if KindAt(toks, pos + 2) == Some(RefMarker) then Success(XRef(a, b), pos + 3, pos + 2)
         else Failure(pos + 2)
       case _ => Failure(pos + 1))
    case _ => Failure(pos)
  }

  /** `PDFValue/e -> integer/e | float/e | bool/e` */
  function ParseValue(toks: seq<Token>, pos: nat): (r: Outcome<Value>)
    requires pos <= |toks|
    ensures Sound(r, toks, pos)
    ensures r.far == pos
    ensures r.Success? ==> r.next == pos + 1
    ensures r.Success? <==> pos < |toks| && (toks[pos].kind.IntegerTok? || toks[pos].kind.FloatTok? || toks[pos].kind.BoolTok?)
  {
    match KindAt(toks, pos)
    case Some(IntegerTok(v)) => Success(Integer(v), pos + 1, pos)
    case Some(FloatTok(l)) => Success(Real(l), pos + 1, pos)
    case Some(BoolTok(b)) => Success(Boolean(b), pos + 1, pos)
    case _ => Failure(pos)
  }

  /** `PDFExpression/e -> PDFXRef/e | PDFDict/e | PDFValue/e | PDFName/e | PDFArray/e | PDFString/e` */
  function ParseExpression(toks: seq<Token>, pos: nat): (r: Outcome<Value>)
    requires pos <= |toks|
    ensures Sound(r, toks, pos)
    decreases |toks| - pos, 2
  {
    OrElse(ParseXRef(toks, pos),
    OrElse(ParseDict(toks, pos),
    OrElse(ParseValue(toks, pos),
    OrElse(NameValue(ParseName(toks, pos)),
    OrElse(ParseArray(toks, pos),
           StringValue(ParseString(toks, pos)))))))
  }

  /** `PDFDict/d -> start_dict ( PDFName/k PDFExpression/v )* end_dict` */
  function ParseDict(toks: seq<Token>, pos: nat): (r: Outcome<Value>)
    requires pos <= |toks|
    ensures Sound(r, toks, pos)
    decreases |toks| - pos, 1
  {
    if KindAt(toks, pos) != Some(StartDict) then Failure(pos)
    else
      var pairs := DictPairs(toks, pos + 1);
      if KindAt(toks, pairs.next) == Some(EndDict) then
        Success(Dict(Build(pairs.items)), pairs.next + 1, pairs.far)
      else Failure(pairs.far)
  }

  /** The `( PDFName/k PDFExpression/v )*` part of PDFDict. */
  function DictPairs(toks: seq<Token>, pos: nat): (r: Many<(PDFName, Value)>)
    requires pos <= |toks|
    ensures pos <= r.next <= r.far <= |toks|
    decreases |toks| - pos, 0
  {
    var key := ParseName(toks, pos);
    if key.Failure? then Many([], pos, key.far)
    else
      var val := ParseExpression(toks, key.next);
      if val.Failure? then Many([], pos, val.far)
      else
        var rest := DictPairs(toks, val.next);
        Many([(key.value, val.value)] + rest.items, rest.next, Max(val.far, rest.far))
  }

  /** `PDFArray/a -> start_array ( PDFExpression/e )* end_array` */
  function ParseArray(toks: seq<Token>, pos: nat): (r: Outcome<Value>)
    requires pos <= |toks|
    ensures Sound(r, toks, pos)
    decreases |toks| - pos, 1
  {
    if KindAt(toks, pos) != Some(StartArray) then Failure(pos)
    else
      var elems := ArrayElems(toks, pos + 1);
      if KindAt(toks, elems.next) == Some(EndArray) then
        Success(Array(elems.items), elems.next + 1, elems.far)
      else Failure(elems.far)
  }

  /** The `( PDFExpression/e )*` part of PDFArray. */
  function ArrayElems(toks: seq<Token>, pos: nat): (r: Many<Value>)
    requires pos <= |toks|
    ensures pos <= r.next <= r.far <= |toks|
    decreases |toks| - pos, 3
  {
    var e := ParseExpression(toks, pos);
    if e.Failure? then Many([], pos, e.far)
    else
      var rest := ArrayElems(toks, e.next);
      Many([e.value] + rest.items, rest.next, Max(e.far, rest.far))
  }

  /** `PDFString/s -> start_string ( string/e | PDFString/e )* end_string` */
  function ParseString(toks: seq<Token>, pos: nat): (r: Outcome<string>)
    requires pos <= |toks|
    ensures Sound(r, toks, pos)
    decreases |toks| - pos, 0
  {
    if KindAt(toks, pos) != Some(StartString) then Failure(pos)
    else
      var parts := StringParts(toks, pos + 1);
      if KindAt(toks, parts.next) == Some(EndString) then
        Success(Concat(parts.items), parts.next + 1, parts.far)
      else Failure(parts.far)
  }

  /**
   * One `string/e | PDFString/e` alternative of PDFString, as the text it adds:
   * a text run as it is, a nested string put back between its parentheses.
   */
  function ParseStringPart(toks: seq<Token>, pos: nat): (r: Outcome<string>)
    requires pos <= |toks|
    ensures Sound(r, toks, pos)
    decreases |toks| - pos, 1
  {
    if pos < |toks| && toks[pos].kind.StringTok? then Success(toks[pos].kind.text, pos + 1, pos)
    else
      var inner := ParseString(toks, pos);
      if inner.Failure? then Failure(inner.far)
      else Success("(" + inner.value + ")", inner.next, inner.far)
  }

  /** The `( string/e | PDFString/e )*` part of PDFString. */
  function StringParts(toks: seq<Token>, pos: nat): (r: Many<string>)
    requires pos <= |toks|
    ensures pos <= r.next <= r.far <= |toks|
    decreases |toks| - pos, 2
  {
    var part := ParseStringPart(toks, pos);
    if part.Failure? then Many([], pos, part.far)
    else
      var rest := StringParts(toks, part.next);
      Many([part.value] + rest.items, rest.next, Max(part.far, rest.far))
  }

  /** The concatenation of a sequence of strings, `s += e` for each in turn. */
  function Concat(parts: seq<string>): (s: string)
    ensures |s| >= if parts == [] then 0 else |parts[0]|
    ensures parts != [] ==> s[..|parts[0]|] == parts[0]
    ensures |parts| == 1 ==> s == parts[0]
  {
    if parts == [] then "" else parts[0] + Concat(parts[1..])
  }

  /**
   * `START/e -> PDFExpression/e` followed by the end of input; the error is
   * the index of the furthest token looked at.
   */
  function ParseStart(toks: seq<Token>): (r: Result<Value, nat>)
    ensures r.Err? ==> r.error <= |toks|
  {
    var e := ParseExpression(toks, 0);
    if e.Failure? then Err(e.far)
    else if e.next == |toks| then Ok(e.value)
    else Err(Max(e.far, e.next))
  }
}
