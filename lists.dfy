/** The two list queries the application runs on its tables: JavaScript's
    `Array.prototype.find` (first element satisfying a test) and
    `Array.prototype.filter` (every element satisfying a test, in order). */
module Lists {

  datatype Option<+T> = None | Some(value: T)

  /** Position of the first element of `s` that satisfies `p`; `find` returns
      the element stored there (for objects, a reference to it). */
  function FindFirst<T>(s: seq<T>, p: T -> bool): (r: Option<nat>)
    ensures r.None? <==> forall i :: 0 <= i < |s| ==> !p(s[i])
    ensures r.Some? ==> r.value < |s| && p(s[r.value])
    ensures r.Some? ==> forall j :: 0 <= j < r.value ==> !p(s[j])
  {
    if s == [] then None
    else if p(s[0]) then Some(0)
    else
      var k := FindFirst(s[1..], p);
      if k.None? then None else Some(k.value + 1)
  }

  /** The elements of `s` that satisfy `p`, in their original order. */
  function Filter<T>(s: seq<T>, p: T -> bool): (r: seq<T>)
    ensures |r| <= |s|
    ensures forall x :: x in r ==> x in s && p(x)
    ensures forall i :: 0 <= i < |s| && p(s[i]) ==> s[i] in r
  {
    if s == [] then []
    else if p(s[0]) then [s[0]] + Filter(s[1..], p)
    else Filter(s[1..], p)
  }

  /** Filtering distributes over concatenation: the result keeps the
      relative order of the input. */
  lemma {:induction false} FilterAppend<T>(a: seq<T>, b: seq<T>, p: T -> bool)
    ensures Filter(a + b, p) == Filter(a, p) + Filter(b, p)
  {
    if a == [] {
      assert a + b == b;
    } else {
      var ab := a + b;
      assert ab[0] == a[0];
      assert ab[1..] == a[1..] + b;
      FilterAppend(a[1..], b, p);
      var head := if p(a[0]) then [a[0]] else [];
      assert Filter(ab, p) == head + (Filter(a[1..], p) + Filter(b, p));
      assert Filter(a, p) == head + Filter(a[1..], p);
      assert head + (Filter(a[1..], p) + Filter(b, p)) == (head + Filter(a[1..], p)) + Filter(b, p);
    }
  }

  /** When every element passes, filtering changes nothing. */
  lemma {:induction false} FilterKeepsAll<T>(s: seq<T>, p: T -> bool)
    requires forall x :: x in s ==> p(x)
    ensures Filter(s, p) == s
  {
    if s != [] {
      assert s[0] in s;
      assert forall x :: x in s[1..] ==> x in s;
      FilterKeepsAll(s[1..], p);
    }
  }

  /** Filtering after appending one element. */
  lemma FilterSnoc<T>(s: seq<T>, x: T, p: T -> bool)
    ensures Filter(s + [x], p) == Filter(s, p) + (if p(x) then [x] else [])
  {
    FilterAppend(s, [x], p);
    assert Filter([x], p) == (if p(x) then [x] else []) by {
      assert [x][1..] == [];
    }
  }

  /** The positions of `s` whose element satisfies `p`. */
  ghost function Matching<T>(s: seq<T>, p: T -> bool): set<nat>
  {
    set i: nat | i < |s| && p(s[i])
  }

  /** Appending one element adds its position to the matching positions
      exactly when it satisfies `p`. */
  lemma MatchingSnoc<T>(s: seq<T>, x: T, p: T -> bool)
    ensures Matching(s + [x], p) == if p(x) then Matching(s, p) + {|s|} else Matching(s, p)
  {
    var t := s + [x];
    forall i: nat | i < |s| ensures t[i] == s[i] { }
  }

  /** `filter(...).length` counts exactly the positions that satisfy `p`. */
  lemma {:induction false} FilterCount<T>(s: seq<T>, p: T -> bool)
    ensures |Filter(s, p)| == |Matching(s, p)|
  {
    if s == [] {
      assert Matching(s, p) == {};
    } else {
      var n := |s| - 1;
      var init := s[..n];
      assert s == init + [s[n]];
      FilterSnoc(init, s[n], p);
      FilterCount(init, p);
      MatchingSnoc(init, s[n], p);
      assert n !in Matching(init, p);
    }
  }
}
