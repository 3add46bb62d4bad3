/**
 * Bracket balance of what the grammar accepts: every dictionary, array and
 * string the parser recognises spans as many closing as opening tokens of
 * each bracket kind, so an input with a missing (or a stray) closer is a
 * syntactic error.
 */
module Brackets {
  import opened Wrappers
  import opened Values
  import opened Lexer
  import opened Grammar

  datatype Bracket = DictBrackets | ArrayBrackets | StringBrackets

  function Opener(b: Bracket): Kind {
    match b
    case DictBrackets => StartDict
    case ArrayBrackets => StartArray
    case StringBrackets => StartString
  }

  function Closer(b: Bracket): Kind {
    match b
    case DictBrackets => EndDict
    case ArrayBrackets => EndArray
    case StringBrackets => EndString
  }

  /** +1 for an opener of kind b, -1 for its closer, 0 for any other token. */
  function Weight(k: Kind, b: Bracket): int {
    if k == Opener(b) then 1 else if k == Closer(b) then -1 else 0
  }

  /** Openers minus closers of kind b in ts. */
  function Net(ts: seq<Token>, b: Bracket): int {
    if ts == [] then 0 else Weight(ts[0].kind, b) + Net(ts[1..], b)
  }

  lemma {:induction false} NetConcat(x: seq<Token>, y: seq<Token>, b: Bracket)
    ensures Net(x + y, b) == Net(x, b) + Net(y, b)
    decreases |x|
  {
    if x == [] {
      assert x + y == y;
    } else {
      assert (x + y)[1..] == x[1..] + y;
      NetConcat(x[1..], y, b);
    }
  }

  lemma NetSplit(toks: seq<Token>, i: nat, j: nat, k: nat, b: Bracket)
    requires i <= j <= k <= |toks|
    ensures Net(toks[i..k], b) == Net(toks[i..j], b) + Net(toks[j..k], b)
  {
    assert toks[i..k] == toks[i..j] + toks[j..k];
    NetConcat(toks[i..j], toks[j..k], b);
  }

  lemma NetOne(toks: seq<Token>, i: nat, b: Bracket)
    requires i < |toks|
    ensures Net(toks[i..i + 1], b) == Weight(toks[i].kind, b)
  {
    assert toks[i..i + 1][1..] == [];
  }

  /** A bracketed production: opener, a balanced middle, closer. */
  lemma Enclosed(toks: seq<Token>, pos: nat, q: nat, c: Bracket, b: Bracket)
    requires pos < q < |toks| && toks[pos].kind == Opener(c) && toks[q].kind == Closer(c)
    requires Net(toks[pos + 1..q], b) == 0
    ensures Net(toks[pos..q + 1], b) == 0
  {
    NetSplit(toks, pos, pos + 1, q + 1, b);
    NetSplit(toks, pos + 1, q, q + 1, b);
    NetOne(toks, pos, b);
    NetOne(toks, q, b);
  }

  /** A run of tokens none of which is a bracket of kind b. */
  lemma Plain(toks: seq<Token>, pos: nat, next: nat, b: Bracket)
    requires pos <= next <= |toks|
    requires forall i :: pos <= i < next ==> Weight(toks[i].kind, b) == 0
    ensures Net(toks[pos..next], b) == 0
    decreases next - pos
  {
    if pos < next {
      NetSplit(toks, pos, pos + 1, next, b);
      NetOne(toks, pos, b);
      Plain(toks, pos + 1, next, b);
    }
  }

  lemma {:induction false} ExpressionBalanced(toks: seq<Token>, pos: nat, b: Bracket)
    requires pos <= |toks|
    ensures var r := ParseExpression(toks, pos);
      r.Success? ==> Net(toks[pos..r.next], b) == 0
    decreases |toks| - pos, 2
  {
    var r := ParseExpression(toks, pos);
    var k := KindAt(toks, pos);
    if k == Some(StartDict) {
      DictBalanced(toks, pos, b);
    } else if k == Some(StartArray) {
      ArrayBalanced(toks, pos, b);
    } else if k == Some(StartString) {
      StringBalanced(toks, pos, b);
    } else if r.Success? {
      assert ParseDict(toks, pos).Failure? && ParseArray(toks, pos).Failure? && ParseString(toks, pos).Failure?;
      Plain(toks, pos, r.next, b);
    }
  }

  lemma {:induction false} DictBalanced(toks: seq<Token>, pos: nat, b: Bracket)
    requires pos <= |toks|
    ensures var r := ParseDict(toks, pos);
      r.Success? ==> Net(toks[pos..r.next], b) == 0
    decreases |toks| - pos, 1
  {
    var r := ParseDict(toks, pos);
    if r.Success? {
      var pairs := DictPairs(toks, pos + 1);
      assert KindAt(toks, pos) == Some(StartDict) && KindAt(toks, pairs.next) == Some(EndDict);
      assert r.next == pairs.next + 1;
      DictPairsBalanced(toks, pos + 1, b);
      Enclosed(toks, pos, pairs.next, DictBrackets, b);
    }
  }

  lemma {:induction false} DictPairsBalanced(toks: seq<Token>, pos: nat, b: Bracket)
    requires pos <= |toks|
    ensures Net(toks[pos..DictPairs(toks, pos).next], b) == 0
    decreases |toks| - pos, 0
  {
    var m := DictPairs(toks, pos);
    var key := ParseName(toks, pos);
    if key.Success? {
      var val := ParseExpression(toks, key.next);
      if val.Success? {
        ExpressionBalanced(toks, key.next, b);
        DictPairsBalanced(toks, val.next, b);
        NetSplit(toks, pos, key.next, m.next, b);
        NetSplit(toks, key.next, val.next, m.next, b);
        NetOne(toks, pos, b);
      }
    }
  }

  lemma {:induction false} ArrayBalanced(toks: seq<Token>, pos: nat, b: Bracket)
    requires pos <= |toks|
    ensures var r := ParseArray(toks, pos);
      r.Success? ==> Net(toks[pos..r.next], b) == 0
    decreases |toks| - pos, 1
  {
    var r := ParseArray(toks, pos);
    if r.Success? {
      var elems := ArrayElems(toks, pos + 1);
      assert KindAt(toks, pos) == Some(StartArray) && KindAt(toks, elems.next) == Some(EndArray);
      assert r.next == elems.next + 1;
      ArrayElemsBalanced(toks, pos + 1, b);
      Enclosed(toks, pos, elems.next, ArrayBrackets, b);
    }
  }

  lemma {:induction false} ArrayElemsBalanced(toks: seq<Token>, pos: nat, b: Bracket)
    requires pos <= |toks|
    ensures Net(toks[pos..ArrayElems(toks, pos).next], b) == 0
    decreases |toks| - pos, 3
  {
    var m := ArrayElems(toks, pos);
    var e := ParseExpression(toks, pos);
    if e.Success? {
      ExpressionBalanced(toks, pos, b);
      ArrayElemsBalanced(toks, e.next, b);
      NetSplit(toks, pos, e.next, m.next, b);
    }
  }

  lemma {:induction false} StringBalanced(toks: seq<Token>, pos: nat, b: Bracket)
    requires pos <= |toks|
    ensures var r := ParseString(toks, pos);
      r.Success? ==> Net(toks[pos..r.next], b) == 0
    decreases |toks| - pos, 0
  {
    var r := ParseString(toks, pos);
    if r.Success? {
      var parts := StringParts(toks, pos + 1);
      assert KindAt(toks, pos) == Some(StartString) && KindAt(toks, parts.next) == Some(EndString);
      assert r.next == parts.next + 1;
      StringPartsBalanced(toks, pos + 1, b);
      Enclosed(toks, pos, parts.next, StringBrackets, b);
    }
  }

  lemma {:induction false} StringPartsBalanced(toks: seq<Token>, pos: nat, b: Bracket)
    requires pos <= |toks|
    ensures Net(toks[pos..StringParts(toks, pos).next], b) == 0
    decreases |toks| - pos, 2
  {
    var m := StringParts(toks, pos);
    var part := ParseStringPart(toks, pos);
    if part.Success? {
      if pos < |toks| && toks[pos].kind.StringTok? {
        NetOne(toks, pos, b);
      } else {
        StringBalanced(toks, pos, b);
      }
      StringPartsBalanced(toks, part.next, b);
      NetSplit(toks, pos, part.next, m.next, b);
    }
  }

  /** Whatever the parser accepts holds as many closers as openers of each kind. */
  lemma AcceptedIsBalanced(toks: seq<Token>, b: Bracket)
    ensures ParseStart(toks).Ok? ==> Net(toks, b) == 0
  {
    ExpressionBalanced(toks, 0, b);
    assert toks[0..|toks|] == toks;
  }

  /**
   * An input whose numbers of openers and closers of some kind differ
   * (`<< /Foo`, `[ 1 2`, `(abc`, `1 ]`) is never accepted.
   */
  lemma MissingCloserIsError(toks: seq<Token>, b: Bracket)
    requires Net(toks, b) != 0
    ensures ParseStart(toks).Err?
  {
    AcceptedIsBalanced(toks, b);
  }
}
