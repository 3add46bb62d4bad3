/**
 * The PDFName wrapper of llpdf/types/PDFName.py: an immutable name whose text
 * starts with '/'. Equality and ordering go through the comparison key
 * ("PDFName", text), compared the way Python compares tuples of strings.
 */
module Names {

  /** The constructor's assertion: the text starts with '/'. */
  predicate StartsWithSlash(s: string) {
    |s| > 0 && s[0] == '/'
  }

  /** Texts a PDFName can hold. */
  type NameText = s: string | StartsWithSlash(s) witness "/"

  datatype PDFName = PDFName(name: NameText) {

    /** The `value` property: the text given to the constructor, which starts with '/'. */
    function Value(): (v: string)
      ensures StartsWithSlash(v)
    {
      name
    }

    /** `cmpkey()`: the class tag first, then the text. */
    function CmpKey(): (key: (string, string))
      ensures key.0 == "PDFName" && key.1 == Value()
    {
      ("PDFName", name)
    }

    /** `__str__`: the text between `Name<` and `>`. */
    function ToString(): (s: string)
      ensures |s| == |Value()| + 6
      ensures s[..5] == "Name<" && s[5..|s| - 1] == Value() && s[|s| - 1] == '>'
    {
      "Name<" + name + ">"
    }

    /** `__repr__`, which delegates to `__str__`. */
    function Repr(): (s: string)
      ensures s == ToString()
    {
      ToString()
    }

    /** Equality through the comparison key: the same text, that is, the same name. */
    predicate Equals(other: PDFName)
      ensures Equals(other) <==> Value() == other.Value()
      ensures Equals(other) <==> this == other
    {
      CmpKey() == other.CmpKey()
    }

    /** Ordering through the comparison key: Python's order on the texts. */
    predicate Less(other: PDFName)
      ensures Less(other) <==> StrLess(Value(), other.Value())
    {
      KeyLess(CmpKey(), other.CmpKey())
    }
  }

  /** `PDFName(name)`: the assertion becomes the precondition. */
  function NewName(name: string): (n: PDFName)
    requires StartsWithSlash(name)
    ensures n.Value() == name
  {
    PDFName(name)
  }

  /** Python's `<` on strings: lexicographic by code point, a proper prefix first. */
  predicate StrLess(a: string, b: string)
  {
    if a == [] then b != []
    else b != [] && (a[0] < b[0] || (a[0] == b[0] && StrLess(a[1..], b[1..])))
  }

  /** Python's `<` on pairs: the first differing component decides. */
  predicate KeyLess(a: (string, string), b: (string, string))
  {
    if a.0 != b.0 then StrLess(a.0, b.0) else StrLess(a.1, b.1)
  }

  lemma {:induction false} StrLessIrreflexive(a: string)
    ensures !StrLess(a, a)
  {
    if a != [] {
      StrLessIrreflexive(a[1..]);
    }
  }

  lemma {:induction false} StrLessTransitive(a: string, b: string, c: string)
    requires StrLess(a, b) && StrLess(b, c)
    ensures StrLess(a, c)
  {
    if a != [] && a[0] == b[0] && b[0] == c[0] {
      StrLessTransitive(a[1..], b[1..], c[1..]);
    }
  }

  lemma {:induction false} StrLessTotal(a: string, b: string)
    requires a != b
    ensures StrLess(a, b) || StrLess(b, a)
  {
    if a != [] && b != [] && a[0] == b[0] {
      assert a == [a[0]] + a[1..] && b == [b[0]] + b[1..];
      StrLessTotal(a[1..], b[1..]);
    }
  }

  /**
   * `==` and `<` through the comparison key agree: of two names, exactly one
   * of `a < b`, `a == b` and `b < a` holds.
   */
  lemma NameTrichotomy(a: PDFName, b: PDFName)
    ensures a.Less(b) || a.Equals(b) || b.Less(a)
    ensures !(a.Less(b) && a.Equals(b)) && !(b.Less(a) && a.Equals(b))
    ensures !(a.Less(b) && b.Less(a))
  {
    StrLessIrreflexive(a.name);
    if a != b {
      StrLessTotal(a.name, b.name);
    }
    if a.Less(b) && b.Less(a) {
      StrLessTransitive(a.name, b.name, a.name);
    }
  }

  /**
   * Names are ordered by the lexicographic order of their texts, and that
   * order is a strict total order.
   */
  lemma NameLessIsStrictTotalOrder(a: PDFName, b: PDFName, c: PDFName)
    ensures a.Less(b) <==> StrLess(a.Value(), b.Value())
    ensures !a.Less(a)
    ensures a.Less(b) && b.Less(c) ==> a.Less(c)
    ensures a != b ==> a.Less(b) || b.Less(a)
  {
    StrLessIrreflexive(a.name);
    if a.Less(b) && b.Less(c) {
      StrLessTransitive(a.name, b.name, c.name);
    }
    if a != b {
      StrLessTotal(a.name, b.name);
    }
  }

  /** The string form is "Name<" + text + ">", and `__repr__` is the same string. */
  lemma ToStringShape(a: PDFName)
    ensures a.Repr() == a.ToString()
    ensures |a.ToString()| == |a.Value()| + 6
    ensures a.ToString()[..5] == "Name<"
    ensures a.ToString()[5..|a.ToString()| - 1] == a.Value()
    ensures a.ToString()[|a.ToString()| - 1] == '>'
  {
  }

  /** Distinct names print differently: the text can be read back from the string form. */
  lemma ToStringInjective(a: PDFName, b: PDFName)
    requires a.ToString() == b.ToString()
    ensures a == b
  {
    var s := a.ToString();
    assert a.name == s[5..|s| - 1];
    assert b.name == s[5..|s| - 1];
  }
}
