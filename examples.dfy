/**
 * Small token streams run through the grammar of llpdf/repr/PDFParser.py:
 * the behaviours its productions show on concrete inputs.
 */
module Examples {
  import opened Wrappers
  import opened Names
  import opened Values
  import opened Lexer
  import opened Grammar
  import opened GrammarFacts

  /** A token whose position does not matter to the grammar. */
  function T(k: Kind): Token {
    Token(k, 0, 0)
  }

  /** `48 489 R`: two integers and `R` are a reference, tried before the integer alone. */
  lemma XRefTokens()
    ensures ParseStart([T(IntegerTok(48)), T(IntegerTok(489)), T(RefMarker)]) == Ok(XRef(48, 489))
  {
  }

  /**
   * `1 2`: two integers without `R` are not one expression. The error is at
   * the end of input, where PDFXRef looked for `R`.
   */
  lemma TwoIntegers()
    ensures ParseStart([T(IntegerTok(1)), T(IntegerTok(2))]) == Err(2)
  {
  }

  /** `<< >>` is the empty dictionary. */
  lemma EmptyDict()
    ensures ParseStart([T(StartDict), T(EndDict)]) == Ok(Dict([]))
  {
  }

  /** `[ ]` is the empty array. */
  lemma EmptyArray()
    ensures ParseStart([T(StartArray), T(EndArray)]) == Ok(Array([]))
  {
  }

  /** `<< /Foo`: the dictionary is never closed, reported at the end of input. */
  lemma UnclosedDict()
    ensures ParseStart([T(StartDict), T(NameTok(PDFName("/Foo")))]) == Err(2)
  {
  }

  /** `<< /Foo 1 /Foo 2 >>` builds its dict from two pairs with the same key: one entry, the later value. */
  lemma LaterValueWins(k: PDFName, a: Value, b: Value)
    ensures Build([(k, a), (k, b)]) == [(k, b)]
  {
    var pairs := [(k, a), (k, b)];
    var first := Assign([], k, a);
    assert first == [(k, a)];
    assert Assign(first, k, b) == [(k, b)];
    assert AssignAll(first, pairs[1..]) == [(k, b)] by {
      assert pairs[1..] == [(k, b)] && pairs[1..][1..] == [];
    }
  }

  /**
   * `[12345 9999 48 489 8473]`, or any five integers between brackets: with
   * no `R` after any two of them, each integer is its own element.
   */
  lemma FiveIntegers(a: int, b: int, c: int, d: int, e: int)
    ensures ParseStart([T(StartArray), T(IntegerTok(a)), T(IntegerTok(b)), T(IntegerTok(c)),
                        T(IntegerTok(d)), T(IntegerTok(e)), T(EndArray)])
         == Ok(Array([Integer(a), Integer(b), Integer(c), Integer(d), Integer(e)]))
  {
    var toks := [T(StartArray), T(IntegerTok(a)), T(IntegerTok(b)), T(IntegerTok(c)),
                 T(IntegerTok(d)), T(IntegerTok(e)), T(EndArray)];
    ArrayOfIntegers(toks, 0, 6);
    assert IntegerValues(toks[1..6]) == [Integer(a), Integer(b), Integer(c), Integer(d), Integer(e)];
    assert ParseExpression(toks, 0) == ParseArray(toks, 0);
  }

  /** The tokens of `(a(b)c)`, with any text runs x, y, z in place of a, b, c. */
  function NestedTokens(x: string, y: string, z: string): seq<Token> {
    [T(StartString), T(StringTok(x)), T(StartString), T(StringTok(y)),
     T(EndString), T(StringTok(z)), T(EndString)]
  }

  /** In `(a(b)c)`, the inner `(b)` is a string of its own, over tokens 2 to 4. */
  lemma NestedInner(x: string, y: string, z: string)
    ensures var toks := NestedTokens(x, y, z);
      ParseString(toks, 2).Success? && ParseString(toks, 2).value == y && ParseString(toks, 2).next == 5
  {
    var toks := NestedTokens(x, y, z);
    assert KindAt(toks, 4) == Some(EndString) && ParseStringPart(toks, 4).Failure?;
    assert StringParts(toks, 4).items == [] && StringParts(toks, 4).next == 4;
    assert StringParts(toks, 3).items == [y] && StringParts(toks, 3).next == 4;
    assert Concat([y]) == y;
  }

  /** In `(a(b)c)`, the outer string's parts are `a`, `(b)` and `c`, up to the last `)`. */
  lemma NestedParts(x: string, y: string, z: string)
    ensures var toks := NestedTokens(x, y, z);
      StringParts(toks, 1).items == [x, "(" + y + ")", z] && StringParts(toks, 1).next == 6
  {
    var toks := NestedTokens(x, y, z);
    NestedInner(x, y, z);
    assert KindAt(toks, 6) == Some(EndString) && ParseStringPart(toks, 6).Failure?;
    assert StringParts(toks, 6).items == [];
    assert StringParts(toks, 5).items == [z] && StringParts(toks, 5).next == 6;
    assert StringParts(toks, 2).items == ["(" + y + ")", z] && StringParts(toks, 2).next == 6;
  }

  /**
   * `(a(b)c)`, or any text runs x, y, z arranged so: the nested string keeps
   * its parentheses inside the outer string's text, which is `a(b)c`.
   */
  lemma NestedString(x: string, y: string, z: string)
    ensures ParseStart([T(StartString), T(StringTok(x)), T(StartString), T(StringTok(y)),
                        T(EndString), T(StringTok(z)), T(EndString)])
         == Ok(String(x + "(" + y + ")" + z))
  {
    var toks := NestedTokens(x, y, z);
    NestedParts(x, y, z);
    assert Concat([x, "(" + y + ")", z]) == x + "(" + y + ")" + z by {
      assert Concat([z]) == z;
      assert ["(" + y + ")", z][1..] == [z];
      assert [x, "(" + y + ")", z][1..] == ["(" + y + ")", z];
    }
    assert ParseExpression(toks, 0).value == String(x + "(" + y + ")" + z);
    assert ParseExpression(toks, 0).Success? && ParseExpression(toks, 0).next == |toks|;
  }
}
