/** The JavaScript array operations the user routes apply to a follower list:
    `indexOf`, `splice(i, 1)` and `filter(y => y !== x)`. */
module Lists {

  /** `i` is the position of the first occurrence of `x` in `s`. */
  ghost predicate FirstOccurrence<T>(s: seq<T>, x: T, i: int) {
    0 <= i < |s| && s[i] == x && x !in s[..i]
  }

  lemma FirstOccurrenceUnique<T>(s: seq<T>, x: T, i: int)
    requires FirstOccurrence(s, x, i)
    ensures forall j :: FirstOccurrence(s, x, j) ==> j == i
  {
  }

  /** `Array.prototype.indexOf`: the first position holding `x`, or -1 when there is none. */
  function IndexOf<T(==)>(s: seq<T>, x: T): (r: int)
    ensures -1 <= r < |s|
    ensures r == -1 <==> x !in s
    ensures r != -1 ==> FirstOccurrence(s, x, r)
  {
    if |s| == 0 then -1
    else if s[0] == x then 0
    else
      var k := IndexOf(s[1..], x);
      if k == -1 then -1
      else
        assert s[..k + 1] == [s[0]] + s[1..][..k];
        k + 1
  }

  /** `splice(i, 1)`: drop the element at position `i`. */
  function RemoveAt<T>(s: seq<T>, i: nat): (r: seq<T>)
    requires i < |s|
    ensures |r| == |s| - 1
    ensures multiset(r) + multiset{s[i]} == multiset(s)
    ensures forall j :: 0 <= j < |r| ==> r[j] == (if j < i then s[j] else s[j + 1])
  {
    assert s == s[..i] + [s[i]] + s[i + 1..];
    s[..i] + s[i + 1..]
  }

  /** `filter(y => y !== x)`: every element other than `x`, in the original order. */
  function Strip<T(==,!new)>(s: seq<T>, x: T): (r: seq<T>)
    ensures forall y :: y in r <==> y in s && y != x
    ensures multiset(r) == multiset(s)[x := 0]
  {
    if |s| == 0 then []
    else
      assert s == [s[0]] + s[1..];
      (if s[0] == x then [] else [s[0]]) + Strip(s[1..], x)
  }

  /** `filter` works element by element: a one-element list keeps its element
      exactly when it differs from `x`... */
  lemma StripOne<T(!new)>(y: T, x: T)
    ensures Strip([y], x) == if y == x then [] else [y]
  {
    assert [y][1..] == [];
  }

  /** ...and the filter of a concatenation is the concatenation of the filters,
      so the surviving elements keep their relative order. */
  lemma {:induction false} StripConcat<T(!new)>(a: seq<T>, b: seq<T>, x: T)
    ensures Strip(a + b, x) == Strip(a, x) + Strip(b, x)
  {
    if |a| > 0 {
      var head := if a[0] == x then [] else [a[0]];
      assert Strip(a + b, x) == head + Strip(a[1..] + b, x) by {
        assert (a + b)[0] == a[0];
        assert (a + b)[1..] == a[1..] + b;
      }
      StripConcat(a[1..], b, x);
      assert head + (Strip(a[1..], x) + Strip(b, x)) == (head + Strip(a[1..], x)) + Strip(b, x);
    } else {
      assert a + b == b;
    }
  }

  /** Filtering out a value the list does not hold leaves the list as it was. */
  lemma {:induction false} StripAbsent<T(!new)>(s: seq<T>, x: T)
    requires x !in s
    ensures Strip(s, x) == s
  {
    if |s| > 0 {
      assert s[0] != x;
      StripAbsent(s[1..], x);
      assert s == [s[0]] + s[1..];
    }
  }

  /** Removing the first occurrence of `x` from a list that ends with an
      appended `x` gives back the original elements, and the original order
      too when `x` was not already present. */
  lemma RemoveFirstAfterAppend<T>(s: seq<T>, x: T)
    ensures IndexOf(s + [x], x) != -1
    ensures multiset(RemoveAt(s + [x], IndexOf(s + [x], x))) == multiset(s)
    ensures x !in s ==> RemoveAt(s + [x], IndexOf(s + [x], x)) == s
  {
    var t := s + [x];
    assert t[|s|] == x;
    var i := IndexOf(t, x);
    var r := RemoveAt(t, i);
    assert multiset(t) == multiset(s) + multiset{x};
    MultisetCancel(multiset(r), multiset(s), x);
    if x !in s {
      AppendedIsFirst(s, x);
      assert r == t[..|s|] == s;
    }
  }

  lemma MultisetCancel<T>(a: multiset<T>, b: multiset<T>, x: T)
    requires a + multiset{x} == b + multiset{x}
    ensures a == b
  {
    forall y ensures a[y] == b[y] {
      assert (a + multiset{x})[y] == (b + multiset{x})[y];
    }
  }

  /** When `x` is absent from `s`, its first occurrence in `s + [x]` is the appended one. */
  lemma AppendedIsFirst<T>(s: seq<T>, x: T)
    requires x !in s
    ensures IndexOf(s + [x], x) == |s|
  {
    var t := s + [x];
    assert t[|s|] == x;
  }

  /** After appending `x` twice, removing its first occurrence still leaves an `x`. */
  lemma RemoveFirstAfterAppendTwice<T>(s: seq<T>, x: T)
    ensures IndexOf(s + [x] + [x], x) != -1
    ensures x in RemoveAt(s + [x] + [x], IndexOf(s + [x] + [x], x))
  {
    var t := s + [x] + [x];
    assert t[|s|] == x;
    var i := IndexOf(t, x);
    var r := RemoveAt(t, i);
    assert multiset(r) + multiset{t[i]} == multiset(t);
    assert multiset(t)[x] == multiset(s)[x] + 2;
    assert multiset(r)[x] >= 1;
  }

  /** When `x` already occurs earlier, append-then-remove-first does not restore
      the order: ["a", "b"] becomes ["b", "a"]. */
  lemma RemoveFirstAfterAppendMayReorder()
    ensures RemoveAt(["a", "b"] + ["a"], IndexOf(["a", "b"] + ["a"], "a")) == ["b", "a"]
    ensures ["b", "a"] != ["a", "b"]
  {
    assert IndexOf(["a", "b", "a"], "a") == 0;
    assert ["a", "b"] + ["a"] == ["a", "b", "a"];
  }
}
