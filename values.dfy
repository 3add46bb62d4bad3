/**
 * The value tree the parser builds: Python ints, floats and bools, PDFName,
 * str, list, dict and PDFXRef. A dict is kept as Python keeps it: an ordered
 * list of entries with unique keys, where assigning to an existing key
 * replaces its value in place and a new key is appended.
 */
module Values {
  import opened Wrappers
  import opened Names

  datatype Value =
    | Integer(intValue: int)
    | Real(lexeme: string)
    | Boolean(boolValue: bool)
    | Name(nameValue: PDFName)
    | String(text: string)
    | Array(elems: seq<Value>)
    | Dict(entries: seq<(PDFName, Value)>)
    | XRef(objectNumber: int, generation: int)

  type Entries = seq<(PDFName, Value)>

  predicate HasKey(d: Entries, k: PDFName) {
    exists i :: 0 <= i < |d| && d[i].0 == k
  }

  predicate UniqueKeys(d: Entries) {
    forall i, j :: 0 <= i < j < |d| ==> d[i].0 != d[j].0
  }

  /** `d[k]`, or None where Python raises KeyError. */
  function Get(d: Entries, k: PDFName): (r: Option<Value>)
    ensures r.Some? <==> HasKey(d, k)
    ensures r.Some? ==> exists i :: 0 <= i < |d| && d[i] == (k, r.value)
  {
    if d == [] then None
    else if d[0].0 == k then Some(d[0].1)
    else
      var r := Get(d[1..], k);
      assert forall i :: 0 < i < |d| ==> d[i] == d[1..][i - 1];
      r
  }

  /** `d[k] = v`: replace the value of an existing key where it stands, or append. */
  function Assign(d: Entries, k: PDFName, v: Value): (r: Entries)
    ensures |r| == if HasKey(d, k) then |d| else |d| + 1
    decreases |d|
  {
    if d == [] then [(k, v)]
    else if d[0].0 == k then [(k, v)] + d[1..]
    else
      assert HasKey(d, k) <==> HasKey(d[1..], k) by {
        if HasKey(d, k) {
          var i :| 0 <= i < |d| && d[i].0 == k;
          assert d[1..][i - 1].0 == k;
        }
      }
      [d[0]] + Assign(d[1..], k, v)
  }

  /** After `d[k] = v`, `d[k]` is v and every other key keeps its value. */
  lemma {:induction false} AssignGet(d: Entries, k: PDFName, v: Value, k': PDFName)
    ensures Get(Assign(d, k, v), k') == if k' == k then Some(v) else Get(d, k')
    decreases |d|
  {
    if d != [] && d[0].0 != k {
      AssignGet(d[1..], k, v, k');
      assert Assign(d, k, v)[1..] == Assign(d[1..], k, v);
    } else if d != [] {
      assert Assign(d, k, v)[1..] == d[1..];
    }
  }

  /** `d[k] = v` keeps the keys of a dict unique. */
  lemma {:induction false} AssignUnique(d: Entries, k: PDFName, v: Value)
    requires UniqueKeys(d)
    ensures UniqueKeys(Assign(d, k, v))
    decreases |d|
  {
    var r := Assign(d, k, v);
    if d == [] {
    } else if d[0].0 == k {
      assert forall i :: 0 < i < |r| ==> r[i] == d[i];
    } else {
      var rest := Assign(d[1..], k, v);
      AssignUnique(d[1..], k, v);
      assert r == [d[0]] + rest;
      AssignGet(d[1..], k, v, d[0].0);
      forall i | 0 <= i < |d[1..]| ensures d[1..][i].0 != d[0].0 {
        assert d[1..][i] == d[i + 1];
      }
      assert !HasKey(rest, d[0].0);
      forall j | 0 < j < |r| ensures r[j].0 != d[0].0 {
        assert r[j] == rest[j - 1];
      }
    }
  }

  /** No later pair has the key of pair i. */
  predicate LastOccurrence(pairs: Entries, i: nat)
    requires i < |pairs|
  {
    forall j :: i < j < |pairs| ==> pairs[j].0 != pairs[i].0
  }

  /**
   * The dict an assignment loop leaves after assigning every pair in order:
   * no entry is ever removed, and each pair adds at most one.
   */
  function AssignAll(d: Entries, pairs: Entries): (r: Entries)
    ensures |d| <= |r| <= |d| + |pairs|
    decreases |pairs|
  {
    if pairs == [] then d
    else AssignAll(Assign(d, pairs[0].0, pairs[0].1), pairs[1..])
  }

  /**
   * The dict built by `d = dict()` followed by `d[k] = v` for each pair:
   * its keys are distinct, and it has no more entries than there are pairs.
   */
  function Build(pairs: Entries): (d: Entries)
    ensures UniqueKeys(d)
    ensures |d| <= |pairs|
    ensures pairs != [] ==> |d| > 0
  {
    AssignAllUnique([], pairs);
    AssignAll([], pairs)
  }

  lemma {:induction false} AssignAllAbsent(d: Entries, pairs: Entries, k: PDFName)
    requires forall j :: 0 <= j < |pairs| ==> pairs[j].0 != k
    ensures Get(AssignAll(d, pairs), k) == Get(d, k)
    decreases |pairs|
  {
    if pairs != [] {
      AssignGet(d, pairs[0].0, pairs[0].1, k);
      AssignAllAbsent(Assign(d, pairs[0].0, pairs[0].1), pairs[1..], k);
    }
  }

  lemma {:induction false} AssignAllLast(d: Entries, pairs: Entries, i: nat)
    requires i < |pairs|
    requires LastOccurrence(pairs, i)
    ensures Get(AssignAll(d, pairs), pairs[i].0) == Some(pairs[i].1)
    decreases |pairs|
  {
    var d' := Assign(d, pairs[0].0, pairs[0].1);
    if i == 0 {
      AssignGet(d, pairs[0].0, pairs[0].1, pairs[0].0);
      AssignAllAbsent(d', pairs[1..], pairs[0].0);
    } else {
      AssignAllLast(d', pairs[1..], i - 1);
    }
  }

  lemma {:induction false} AssignAllUnique(d: Entries, pairs: Entries)
    requires UniqueKeys(d)
    ensures UniqueKeys(AssignAll(d, pairs))
    decreases |pairs|
  {
    if pairs != [] {
      AssignUnique(d, pairs[0].0, pairs[0].1);
      AssignAllUnique(Assign(d, pairs[0].0, pairs[0].1), pairs[1..]);
    }
  }

  lemma {:induction false} AssignAllKeys(d: Entries, pairs: Entries, k: PDFName)
    ensures HasKey(AssignAll(d, pairs), k) <==> HasKey(d, k) || exists j :: 0 <= j < |pairs| && pairs[j].0 == k
    decreases |pairs|
  {
    if pairs != [] {
      var d' := Assign(d, pairs[0].0, pairs[0].1);
      AssignAllKeys(d', pairs[1..], k);
      AssignGet(d, pairs[0].0, pairs[0].1, k);
      if exists j :: 0 <= j < |pairs| && pairs[j].0 == k {
        var j :| 0 <= j < |pairs| && pairs[j].0 == k;
        if j > 0 {
          assert pairs[1..][j - 1].0 == k;
        }
      }
      if exists j :: 0 <= j < |pairs[1..]| && pairs[1..][j].0 == k {
        var j :| 0 <= j < |pairs[1..]| && pairs[1..][j].0 == k;
        assert pairs[j + 1].0 == k;
      }
    }
  }

  /**
   * Last assignment wins: the built dict has unique keys, holds exactly the
   * keys of the pairs, and maps each key to the value of its last pair.
   */
  lemma BuildLastWins(pairs: Entries, k: PDFName)
    ensures UniqueKeys(Build(pairs))
    ensures HasKey(Build(pairs), k) <==> exists j :: 0 <= j < |pairs| && pairs[j].0 == k
    ensures forall i :: 0 <= i < |pairs| && pairs[i].0 == k && LastOccurrence(pairs, i) ==>
      Get(Build(pairs), k) == Some(pairs[i].1)
  {
    AssignAllUnique([], pairs);
    AssignAllKeys([], pairs, k);
    forall i | 0 <= i < |pairs| && pairs[i].0 == k && LastOccurrence(pairs, i)
      ensures Get(Build(pairs), k) == Some(pairs[i].1)
    {
      AssignAllLast([], pairs, i);
    }
  }
}
