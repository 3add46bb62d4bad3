/**
 * What the productions of the grammar guarantee: the three-token lookahead
 * that tells `a b R` from two integers, the shape of arrays, dicts and
 * strings, and that every parsed expression closes every bracket it opens.
 */
module GrammarFacts {
  import opened Wrappers
  import opened Names
  import opened Values
  import opened Lexer
  import opened Grammar

  /** Tokens that cannot start an expression. */
  predicate IsCloser(k: Option<Kind>) {
    k == None || k == Some(EndDict) || k == Some(EndArray) || k == Some(EndString) || k == Some(RefMarker)
  }

  /** No expression starts at a closing token, at the literal R, or at the end of input. */
  lemma CloserStartsNothing(toks: seq<Token>, pos: nat)
    requires pos <= |toks| && IsCloser(KindAt(toks, pos))
    ensures ParseExpression(toks, pos).Failure?
  {
  }

  /**
   * An integer starts an indirect reference when an integer and the literal
   * R follow it (PDFXRef is the first alternative); otherwise PDFXRef fails,
   * the parser backtracks, and the integer alone is the expression.
   */
  lemma IntegerLookahead(toks: seq<Token>, pos: nat, a: int)
    requires pos < |toks| && toks[pos].kind == IntegerTok(a)
    ensures ParseExpression(toks, pos).Success?
    ensures KindAt(toks, pos + 1).Some? && KindAt(toks, pos + 1).value.IntegerTok? &&
            KindAt(toks, pos + 2) == Some(RefMarker) ==>
              ParseExpression(toks, pos).value == XRef(a, toks[pos + 1].kind.intValue) &&
              ParseExpression(toks, pos).next == pos + 3
    ensures !(KindAt(toks, pos + 1).Some? && KindAt(toks, pos + 1).value.IntegerTok? &&
              KindAt(toks, pos + 2) == Some(RefMarker)) ==>
              ParseExpression(toks, pos).value == Integer(a) &&
              ParseExpression(toks, pos).next == pos + 1
  {
  }

  /**
   * A float, a boolean or a name token is an expression of one token: every
   * alternative tried before PDFValue (or PDFName) fails at once, so the
   * value is `Real(lexeme)`, `Boolean(b)` or `Name(n)`.
   */
  lemma LeafValues(toks: seq<Token>, pos: nat)
    requires pos < |toks|
    ensures toks[pos].kind.FloatTok? ==>
      ParseExpression(toks, pos) == Success(Real(toks[pos].kind.lexeme), pos + 1, pos)
    ensures toks[pos].kind.BoolTok? ==>
      ParseExpression(toks, pos) == Success(Boolean(toks[pos].kind.boolValue), pos + 1, pos)
    ensures toks[pos].kind.NameTok? ==>
      ParseExpression(toks, pos) == Success(Name(toks[pos].kind.name), pos + 1, pos)
  {
  }

  // ---------------------------------------------------------------- arrays

  /** vals are the values of expressions parsed one after another from `from`, ending at `to`. */
  ghost predicate ExpressionChain(toks: seq<Token>, from: nat, vals: seq<Value>, to: nat)
    decreases |vals|
  {
    from <= |toks| &&
    if vals == [] then from == to
    else
      var e := ParseExpression(toks, from);
      e.Success? && e.value == vals[0] && ExpressionChain(toks, e.next, vals[1..], to)
  }

  lemma {:induction false} ElemsChain(toks: seq<Token>, pos: nat)
    requires pos <= |toks|
    ensures ExpressionChain(toks, pos, ArrayElems(toks, pos).items, ArrayElems(toks, pos).next)
    ensures ParseExpression(toks, ArrayElems(toks, pos).next).Failure?
    decreases |toks| - pos
  {
    var e := ParseExpression(toks, pos);
    if e.Success? {
      ElemsChain(toks, e.next);
      assert ArrayElems(toks, pos).items[1..] == ArrayElems(toks, e.next).items;
    }
  }

  lemma {:induction false} ChainElems(toks: seq<Token>, from: nat, vals: seq<Value>, to: nat)
    requires ExpressionChain(toks, from, vals, to)
    requires to <= |toks| && ParseExpression(toks, to).Failure?
    ensures ArrayElems(toks, from).items == vals && ArrayElems(toks, from).next == to
    decreases |vals|
  {
    if vals != [] {
      var e := ParseExpression(toks, from);
      ChainElems(toks, e.next, vals[1..], to);
      assert vals == [vals[0]] + vals[1..];
    }
  }

  /**
   * A parsed array is `[`, expressions parsed one after another, then `]`,
   * and its elements are those expressions' values in source order.
   */
  lemma ArrayIsBracketedExpressions(toks: seq<Token>, pos: nat)
    requires pos <= |toks| && ParseArray(toks, pos).Success?
    ensures var r := ParseArray(toks, pos);
      r.value.Array? && KindAt(toks, pos) == Some(StartArray) && KindAt(toks, r.next - 1) == Some(EndArray) &&
      ExpressionChain(toks, pos + 1, r.value.elems, r.next - 1)
  {
    var elems := ArrayElems(toks, pos + 1);
    assert KindAt(toks, pos) == Some(StartArray) && KindAt(toks, elems.next) == Some(EndArray);
    assert ParseArray(toks, pos) == Success(Array(elems.items), elems.next + 1, elems.far);
    ElemsChain(toks, pos + 1);
  }

  /** Conversely, `[`, any chain of expressions, then `]` parses as the array of their values. */
  lemma ArrayFromExpressions(toks: seq<Token>, pos: nat, vals: seq<Value>, to: nat)
    requires pos < |toks| && toks[pos].kind == StartArray
    requires ExpressionChain(toks, pos + 1, vals, to) && KindAt(toks, to) == Some(EndArray)
    ensures ParseArray(toks, pos).Success?
    ensures ParseArray(toks, pos).value == Array(vals) && ParseArray(toks, pos).next == to + 1
  {
    CloserStartsNothing(toks, to);
    ChainElems(toks, pos + 1, vals, to);
  }

  /** The Integer values of a run of integer tokens, in order. */
  function IntegerValues(run: seq<Token>): (r: seq<Value>)
    requires forall i :: 0 <= i < |run| ==> run[i].kind.IntegerTok?
    ensures |r| == |run|
    ensures forall i :: 0 <= i < |run| ==> r[i] == Integer(run[i].kind.intValue)
  {
    if run == [] then [] else [Integer(run[0].kind.intValue)] + IntegerValues(run[1..])
  }

  /**
   * Integers with no R anywhere among or after them (up to a token that is
   * neither an integer nor R) are each an expression of their own: PDFXRef
   * fails at every one of them and the parser backtracks to PDFValue.
   */
  lemma {:induction false} IntegerRun(toks: seq<Token>, from: nat, to: nat)
    requires from <= to < |toks|
    requires forall i :: from <= i < to ==> toks[i].kind.IntegerTok?
    requires !toks[to].kind.IntegerTok? && toks[to].kind != RefMarker
    ensures ExpressionChain(toks, from, IntegerValues(toks[from..to]), to)
    decreases (to as int) - (from as int)
  {
    if from < to {
      IntegerLookahead(toks, from, toks[from].kind.intValue);
      IntegerRun(toks, from + 1, to);
      assert toks[from..to][1..] == toks[from + 1..to];
    }
  }

  /** `[`, integers with no R, then `]` is the array of those Integers, however many there are. */
  lemma ArrayOfIntegers(toks: seq<Token>, pos: nat, to: nat)
    requires pos < to < |toks| && toks[pos].kind == StartArray && toks[to].kind == EndArray
    requires forall i :: pos < i < to ==> toks[i].kind.IntegerTok?
    ensures ParseArray(toks, pos).Success? && ParseArray(toks, pos).next == to + 1
    ensures ParseArray(toks, pos).value == Array(IntegerValues(toks[pos + 1..to]))
  {
    IntegerRun(toks, pos + 1, to);
    ArrayFromExpressions(toks, pos, IntegerValues(toks[pos + 1..to]), to);
  }

  // ---------------------------------------------------------------- dicts

  /** pairs are (name, expression) pairs parsed one after another from `from`, ending at `to`. */
  ghost predicate PairChain(toks: seq<Token>, from: nat, pairs: Entries, to: nat)
    decreases |pairs|
  {
    from <= |toks| &&
    if pairs == [] then from == to
    else
      KindAt(toks, from) == Some(NameTok(pairs[0].0)) &&
      var e := ParseExpression(toks, from + 1);
      e.Success? && e.value == pairs[0].1 && PairChain(toks, e.next, pairs[1..], to)
  }

  lemma {:induction false} PairsChain(toks: seq<Token>, pos: nat)
    requires pos <= |toks|
    ensures PairChain(toks, pos, DictPairs(toks, pos).items, DictPairs(toks, pos).next)
    decreases |toks| - pos
  {
    var key := ParseName(toks, pos);
    if key.Success? {
      var e := ParseExpression(toks, pos + 1);
      if e.Success? {
        PairsChain(toks, e.next);
        assert DictPairs(toks, pos).items[1..] == DictPairs(toks, e.next).items;
      }
    }
  }

  /** A name and an expression after it: the pairs are that pair followed by the pairs after it. */
  lemma PairsUnfold(toks: seq<Token>, pos: nat)
    requires pos < |toks| && toks[pos].kind.NameTok? && ParseExpression(toks, pos + 1).Success?
    ensures var e := ParseExpression(toks, pos + 1);
      var m, rest := DictPairs(toks, pos), DictPairs(toks, e.next);
      m.items == [(toks[pos].kind.name, e.value)] + rest.items && m.next == rest.next
  {
    assert ParseName(toks, pos) == Success(toks[pos].kind.name, pos + 1, pos);
  }

  lemma {:induction false} ChainPairs(toks: seq<Token>, from: nat, pairs: Entries, to: nat)
    requires PairChain(toks, from, pairs, to)
    requires KindAt(toks, to) == Some(EndDict)
    ensures DictPairs(toks, from).items == pairs && DictPairs(toks, from).next == to
    decreases |pairs|
  {
    if pairs == [] {
      assert ParseName(toks, from).Failure?;
    } else {
      PairsUnfold(toks, from);
      var e := ParseExpression(toks, from + 1);
      ChainPairs(toks, e.next, pairs[1..], to);
      assert pairs == [(toks[from].kind.name, e.value)] + pairs[1..];
    }
  }

  /**
   * A parsed dict is `<<`, (name, expression) pairs, then `>>`; it is the
   * dict that assigning the pairs in source order builds, so each key has
   * the value of its last pair.
   */
  lemma DictIsBracketedPairs(toks: seq<Token>, pos: nat)
    requires pos <= |toks| && ParseDict(toks, pos).Success?
    ensures var r := ParseDict(toks, pos);
      var pairs := DictPairs(toks, pos + 1).items;
      r.value == Dict(Build(pairs)) && KindAt(toks, pos) == Some(StartDict) &&
      KindAt(toks, r.next - 1) == Some(EndDict) && PairChain(toks, pos + 1, pairs, r.next - 1)
  {
    var pairs := DictPairs(toks, pos + 1);
    assert KindAt(toks, pos) == Some(StartDict) && KindAt(toks, pairs.next) == Some(EndDict);
    assert ParseDict(toks, pos) == Success(Dict(Build(pairs.items)), pairs.next + 1, pairs.far);
    PairsChain(toks, pos + 1);
  }

  /** Conversely, `<<`, any chain of pairs, then `>>` parses as the dict those pairs build. */
  lemma DictFromPairs(toks: seq<Token>, pos: nat, pairs: Entries, to: nat)
    requires pos < |toks| && toks[pos].kind == StartDict
    requires PairChain(toks, pos + 1, pairs, to) && KindAt(toks, to) == Some(EndDict)
    ensures ParseDict(toks, pos).Success?
    ensures ParseDict(toks, pos).value == Dict(Build(pairs)) && ParseDict(toks, pos).next == to + 1
  {
    ChainPairs(toks, pos + 1, pairs, to);
  }

  // ---------------------------------------------------------------- strings

  /** The text a string-part token stands for inside a string. */
  function SpellKind(k: Kind): string {
    match k
    case StringTok(t) => t
    case StartString => "("
    case EndString => ")"
    case _ => ""
  }

  /** The text the tokens from lo up to hi stand for inside a string. */
  function Spell(toks: seq<Token>, lo: nat, hi: nat): string
    requires lo <= hi <= |toks|
    decreases hi - lo
  {
    if lo == hi then "" else SpellKind(toks[lo].kind) + Spell(toks, lo + 1, hi)
  }

  /** Text runs hold no parenthesis, as the lexer's `[^()]*` guarantees. */
  predicate TextRunsPlain(toks: seq<Token>) {
    forall k :: 0 <= k < |toks| && toks[k].kind.StringTok? ==> NoParens(toks[k].kind.text)
  }

  /** The depth of parenthesis nesting after reading s from depth d; None once a `)` has nothing to close. */
  function Final(s: string, d: nat): Option<nat>
    decreases |s|
  {
    if s == [] then Some(d)
    else if s[0] == '(' then Final(s[1..], d + 1)
    else if s[0] == ')' then (if d == 0 then None else Final(s[1..], d - 1))
    else Final(s[1..], d)
  }

  /** Every `(` in s is closed by a later `)`, and every `)` closes an earlier `(`. */
  predicate Balanced(s: string) {
    Final(s, 0) == Some(0)
  }

  lemma {:induction false} SpellSplit(toks: seq<Token>, lo: nat, mid: nat, hi: nat)
    requires lo <= mid <= hi <= |toks|
    ensures Spell(toks, lo, hi) == Spell(toks, lo, mid) + Spell(toks, mid, hi)
    decreases mid - lo
  {
    if lo == mid {
      assert Spell(toks, lo, mid) + Spell(toks, mid, hi) == Spell(toks, mid, hi);
    } else {
      SpellSplit(toks, lo + 1, mid, hi);
      var k := SpellKind(toks[lo].kind);
      assert k + (Spell(toks, lo + 1, mid) + Spell(toks, mid, hi)) ==
             (k + Spell(toks, lo + 1, mid)) + Spell(toks, mid, hi);
    }
  }

  lemma {:induction false} FinalConcat(a: string, b: string, d: nat)
    ensures Final(a + b, d) == if Final(a, d).Some? then Final(b, Final(a, d).value) else None
    decreases |a|
  {
    if a == [] {
      assert a + b == b;
    } else {
      assert (a + b)[1..] == a[1..] + b;
      if a[0] == '(' {
        FinalConcat(a[1..], b, d + 1);
      } else if a[0] == ')' {
        if d > 0 {
          FinalConcat(a[1..], b, d - 1);
        }
      } else {
        FinalConcat(a[1..], b, d);
      }
    }
  }

  lemma {:induction false} FinalShift(s: string, d: nat)
    requires Final(s, d).Some?
    ensures Final(s, d + 1) == Some(Final(s, d).value + 1)
    decreases |s|
  {
    if s != [] {
      if s[0] == '(' {
        FinalShift(s[1..], d + 1);
      } else if s[0] == ')' {
        FinalShift(s[1..], d - 1);
      } else {
        FinalShift(s[1..], d);
      }
    }
  }

  lemma {:induction false} FinalNoParens(t: string, d: nat)
    requires NoParens(t)
    ensures Final(t, d) == Some(d)
    decreases |t|
  {
    if t != [] {
      assert IsNotParen(t[0]);
      FinalNoParens(t[1..], d);
    }
  }

  lemma WrappedBalanced(s: string)
    requires Balanced(s)
    ensures Balanced("(" + s + ")")
  {
    assert "(" + s + ")" == "(" + (s + ")");
    FinalConcat("(", s + ")", 0);
    FinalShift(s, 0);
    FinalConcat(s, ")", 1);
  }

  lemma ConcatBalanced(a: string, b: string)
    requires Balanced(a) && Balanced(b)
    ensures Balanced(a + b)
  {
    FinalConcat(a, b, 0);
  }

  lemma ConcatCons(x: string, xs: seq<string>)
    ensures Concat([x] + xs) == x + Concat(xs)
  {
    assert ([x] + xs)[1..] == xs;
  }

  lemma TextRunBalanced(t: string, rest: string)
    requires NoParens(t) && Balanced(rest)
    ensures Balanced(t + rest)
  {
    FinalNoParens(t, 0);
    ConcatBalanced(t, rest);
  }

  lemma {:induction false} StringPartsSpelled(toks: seq<Token>, pos: nat)
    requires pos <= |toks| && TextRunsPlain(toks)
    ensures var m := StringParts(toks, pos);
      Concat(m.items) == Spell(toks, pos, m.next) && Balanced(Concat(m.items))
    decreases |toks| - pos, 2
  {
    var m := StringParts(toks, pos);
    var part := ParseStringPart(toks, pos);
    if part.Success? {
      var rest := StringParts(toks, part.next);
      StringPartsSpelled(toks, part.next);
      assert m.items == [part.value] + rest.items && m.next == rest.next;
      ConcatCons(part.value, rest.items);
      SpellSplit(toks, pos, part.next, m.next);
      if pos < |toks| && toks[pos].kind.StringTok? {
        assert Spell(toks, pos, part.next) == part.value by {
          SpellFirst(toks, pos, part.next);
        }
        TextRunBalanced(part.value, Concat(rest.items));
      } else {
        var inner := ParseString(toks, pos);
        StringSpelled(toks, pos);
        assert Spell(toks, pos, part.next) == part.value;
        WrappedBalanced(inner.value);
        ConcatBalanced(part.value, Concat(rest.items));
      }
      assert Concat(m.items) == Spell(toks, pos, m.next);
    } else {
      assert m.items == [] && m.next == pos;
    }
  }

  /** The tokens of a string from its `(` to its `)` spell its inner text between parentheses. */
  lemma Wrapped(toks: seq<Token>, pos: nat, q: nat)
    requires pos < q < |toks| && toks[pos].kind == StartString && toks[q].kind == EndString
    ensures Spell(toks, pos, q + 1) == "(" + Spell(toks, pos + 1, q) + ")"
  {
    SpellSplit(toks, pos + 1, q, q + 1);
    SpellOne(toks, q);
    SpellFirst(toks, pos, q + 1);
    Enclosed(Spell(toks, pos, q + 1), Spell(toks, pos + 1, q + 1), Spell(toks, pos + 1, q));
  }

  /** A string that is `(` then a tail ending in `)` is its inner part between parentheses. */
  lemma Enclosed(whole: string, tail: string, inner: string)
    requires whole == "(" + tail && tail == inner + ")"
    ensures whole == "(" + inner + ")"
  {
  }

  lemma SpellFirst(toks: seq<Token>, lo: nat, hi: nat)
    requires lo < hi <= |toks|
    ensures Spell(toks, lo, hi) == SpellKind(toks[lo].kind) + Spell(toks, lo + 1, hi)
  {
  }

  lemma SpellOne(toks: seq<Token>, i: nat)
    requires i < |toks|
    ensures Spell(toks, i, i + 1) == SpellKind(toks[i].kind)
  {
    assert Spell(toks, i, i + 1) == SpellKind(toks[i].kind) + "";
  }

  /**
   * A parsed string keeps its inner parentheses as data: its content is the
   * text of the tokens between its outer parentheses, nested strings
   * included with their own parentheses.
   */
  lemma StringContent(toks: seq<Token>, pos: nat)
    requires pos <= |toks| && TextRunsPlain(toks)
    ensures var r := ParseString(toks, pos);
      r.Success? ==>
        KindAt(toks, pos) == Some(StartString) && KindAt(toks, r.next - 1) == Some(EndString) &&
        r.value == Spell(toks, pos + 1, r.next - 1)
  {
    if pos < |toks| {
      StringPartsSpelled(toks, pos + 1);
    }
  }

  /**
   * The content of a parsed string is balanced, and the tokens from its `(`
   * to its `)` spell the content between parentheses.
   */
  lemma {:induction false} StringSpelled(toks: seq<Token>, pos: nat)
    requires pos <= |toks| && TextRunsPlain(toks)
    ensures var r := ParseString(toks, pos);
      r.Success? ==> Balanced(r.value)
    ensures var r := ParseString(toks, pos);
      r.Success? ==> Spell(toks, pos, r.next) == "(" + r.value + ")"
    decreases |toks| - pos, 0
  {
    var r := ParseString(toks, pos);
    if r.Success? {
      var parts := StringParts(toks, pos + 1);
      var q := parts.next;
      assert r.value == Concat(parts.items) && r.next == q + 1;
      StringPartsSpelled(toks, pos + 1);
      Wrapped(toks, pos, q);
    }
  }
}
