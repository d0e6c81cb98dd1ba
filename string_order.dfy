/**
 * The ordering used for the sorted arrays of the serialised graph:
 * lexicographic comparison of code points. JavaScript's default
 * `Array.prototype.sort` compares UTF-16 code units instead; the two agree
 * unless a character above U+FFFF meets one in U+E000 to U+FFFF. Used to
 * give the serialised graph a canonical, insertion-order-independent shape.
 */
module StringOrder {

  /** The set of elements of a sequence (what `new Set([...xs])` keeps). */
  function Elements<T>(xs: seq<T>): set<T> {
    set x | x in xs
  }

  /** `a` sorts no later than `b`. */
  predicate Below(a: string, b: string) {
    if a == [] then true
    else if b == [] then false
    else if a[0] != b[0] then a[0] < b[0]
    else Below(a[1..], b[1..])
  }

  /** `a` sorts strictly before `b`. */
  predicate StrictlyBelow(a: string, b: string) {
    Below(a, b) && a != b
  }

  lemma {:induction false} BelowReflexive(a: string)
    ensures Below(a, a)
  {
    if a != [] {
      BelowReflexive(a[1..]);
    }
  }

  lemma {:induction false} BelowTotal(a: string, b: string)
    ensures Below(a, b) || Below(b, a)
  {
    if a != [] && b != [] && a[0] == b[0] {
      BelowTotal(a[1..], b[1..]);
    }
  }

  lemma {:induction false} BelowAntisymmetric(a: string, b: string)
    requires Below(a, b) && Below(b, a)
    ensures a == b
  {
    ElementsEmpty(a);
    ElementsEmpty(b);
    if a != [] && b != [] {
      BelowAntisymmetric(a[1..], b[1..]);
      assert a == [a[0]] + a[1..];
      assert b == [b[0]] + b[1..];
    }
  }

  lemma {:induction false} BelowTransitive(a: string, b: string, c: string)
    requires Below(a, b) && Below(b, c)
    ensures Below(a, c)
  {
    if a != [] && b != [] && c != [] && a[0] == b[0] && b[0] == c[0] {
      BelowTransitive(a[1..], b[1..], c[1..]);
    }
  }

  /** No two positions hold the same string, and positions increase in order. */
  predicate StrictlySorted(xs: seq<string>) {
    forall i, j :: 0 <= i < j < |xs| ==> StrictlyBelow(xs[i], xs[j])
  }

  /** The least element of a non-empty finite set of strings. */
  ghost function Least(s: set<string>): (m: string)
    requires s != {}
    ensures m in s
    ensures forall y :: y in s ==> Below(m, y)
    decreases |s|
  {
    var x :| x in s;
    if s == {x} then
      BelowReflexive(x);
      x
    else
      var m := Least(s - {x});
      LeastStep(s, x, m);
      if Below(x, m) then x else m
  }

  lemma LeastStep(s: set<string>, x: string, m: string)
    requires x in s && m in s
    requires forall y :: y in s - {x} ==> Below(m, y)
    ensures Below(x, m) ==> forall y :: y in s ==> Below(x, y)
    ensures !Below(x, m) ==> forall y :: y in s ==> Below(m, y)
  {
    BelowTotal(x, m);
    BelowReflexive(x);
    forall y | y in s && y != x && Below(x, m) ensures Below(x, y) {
      BelowTransitive(x, m, y);
    }
  }

  /** The elements of `s` in ascending order, as `[...s].sort()` yields them. */
  ghost function SortedElements(s: set<string>): (r: seq<string>)
    ensures StrictlySorted(r)
    ensures Elements(r) == s
    ensures |r| == |s|
    decreases |s|
  {
    if s == {} then []
    else
      var m := Least(s);
      var rest := SortedElements(s - {m});
      PrependLeast(s, m, rest);
      [m] + rest
  }

  lemma ElementsEmpty<T>(xs: seq<T>)
    ensures Elements(xs) == {} <==> xs == []
  {
    if xs != [] {
      assert xs[0] in Elements(xs);
    }
  }

  lemma PrependLeast(s: set<string>, m: string, rest: seq<string>)
    requires m in s && forall y :: y in s ==> Below(m, y)
    requires StrictlySorted(rest) && Elements(rest) == s - {m} && |rest| == |s - {m}|
    ensures StrictlySorted([m] + rest)
    ensures Elements([m] + rest) == s
    ensures |[m] + rest| == |s|
  {
    forall y | y in Elements(rest) ensures StrictlyBelow(m, y) {
      assert y in s - {m};
    }
    PrependSorted(m, rest);
    assert Elements([m] + rest) == {m} + Elements(rest);
  }

  lemma PrependSorted(m: string, rest: seq<string>)
    requires StrictlySorted(rest) && forall y :: y in Elements(rest) ==> StrictlyBelow(m, y)
    ensures StrictlySorted([m] + rest)
  {
    var r := [m] + rest;
    forall i, j | 0 <= i < j < |r| ensures StrictlyBelow(r[i], r[j]) {
      assert r[j] == rest[j - 1] && r[j] in Elements(rest);
      if i > 0 {
        assert r[i] == rest[i - 1];
      }
    }
  }

  /**
   * A strictly sorted sequence is determined by its elements: however a set
   * was built, sorting it gives one and the same array.
   */
  lemma {:induction false} SortedUnique(a: seq<string>, b: seq<string>)
    requires StrictlySorted(a) && StrictlySorted(b)
    requires Elements(a) == Elements(b)
    ensures a == b
  {
    ElementsEmpty(a);
    ElementsEmpty(b);
    if a != [] && b != [] {
      assert b[0] in Elements(a);
      assert a[0] in Elements(b);
      var i :| 0 <= i < |a| && a[i] == b[0];
      var j :| 0 <= j < |b| && b[j] == a[0];
      assert Below(a[0], b[0]) by {
        if i > 0 { assert StrictlyBelow(a[0], a[i]); } else { BelowReflexive(a[0]); }
      }
      assert Below(b[0], a[0]) by {
        if j > 0 { assert StrictlyBelow(b[0], b[j]); } else { BelowReflexive(b[0]); }
      }
      BelowAntisymmetric(a[0], b[0]);
      assert Elements(a[1..]) == Elements(a) - {a[0]} by {
        forall x | x in Elements(a[1..]) ensures x != a[0] {
          var k :| 1 <= k < |a| && a[k] == x;
          assert StrictlyBelow(a[0], a[k]);
        }
        assert a == [a[0]] + a[1..];
      }
      assert Elements(b[1..]) == Elements(b) - {b[0]} by {
        forall x | x in Elements(b[1..]) ensures x != b[0] {
          var k :| 1 <= k < |b| && b[k] == x;
          assert StrictlyBelow(b[0], b[k]);
        }
        assert b == [b[0]] + b[1..];
      }
      SortedUnique(a[1..], b[1..]);
      assert a == [a[0]] + a[1..];
      assert b == [b[0]] + b[1..];
    }
  }
}
