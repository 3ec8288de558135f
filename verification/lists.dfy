/** Order-preserving list filtering and counting, the `Array.prototype.filter`
    and list-comprehension step several pages and the scan rely on. */
module Lists {

  /** The elements of `s` that satisfy `keep`, in their original order. */
  function Filter<T>(s: seq<T>, keep: T -> bool): (r: seq<T>)
    ensures |r| <= |s|
    ensures forall i :: 0 <= i < |r| ==> keep(r[i])
    ensures (forall i :: 0 <= i < |s| ==> keep(s[i])) ==> r == s
  {
    if s == [] then []
    else (if keep(s[0]) then [s[0]] else []) + Filter(s[1..], keep)
  }

  /** Filtering keeps exactly the elements that pass: everything kept comes
      from `s`, and every element of `s` that passes is kept. */
  lemma {:induction false} FilterMembers<T>(s: seq<T>, keep: T -> bool)
    ensures forall i :: 0 <= i < |Filter(s, keep)| ==> Filter(s, keep)[i] in s
    ensures forall i :: 0 <= i < |s| && keep(s[i]) ==> s[i] in Filter(s, keep)
  {
    if s != [] {
      FilterMembers(s[1..], keep);
      var head := if keep(s[0]) then [s[0]] else [];
      var rest := Filter(s[1..], keep);
      assert Filter(s, keep) == head + rest;
      forall i | 0 <= i < |head + rest| ensures (head + rest)[i] in s {
        if i >= |head| {
          assert (head + rest)[i] == rest[i - |head|];
          assert rest[i - |head|] in s[1..];
        }
      }
      forall i | 0 <= i < |s| && keep(s[i]) ensures s[i] in head + rest {
        if i > 0 {
          assert s[i] == s[1..][i - 1];
          assert s[i] in rest;
        }
      }
    }
  }

  /** Filtering a concatenation filters each part: the kept elements keep
      their relative order. */
  lemma {:induction false} FilterAppend<T>(a: seq<T>, b: seq<T>, keep: T -> bool)
    ensures Filter(a + b, keep) == Filter(a, keep) + Filter(b, keep)
  {
    if a == [] {
      assert a + b == b;
    } else {
      assert (a + b)[1..] == a[1..] + b;
      FilterAppend(a[1..], b, keep);
    }
  }

  /** Filtering a list with `x` spliced in filters the parts around `x` and `x` itself. */
  lemma FilterSplice<T>(a: seq<T>, x: T, b: seq<T>, keep: T -> bool)
    ensures Filter(a + [x] + b, keep) == Filter(a, keep) + Filter([x], keep) + Filter(b, keep)
  {
    FilterAppend(a + [x], b, keep);
    FilterAppend(a, [x], keep);
  }

  /** When nothing after `x` passes, splicing `x` in front of `b` filters
      like appending `x` at the end. */
  lemma FilterSpliceLast<T>(a: seq<T>, x: T, b: seq<T>, keep: T -> bool)
    requires forall i :: 0 <= i < |b| ==> !keep(b[i])
    ensures Filter(a + [x] + b, keep) == Filter(a + b, keep) + Filter([x], keep)
  {
    FilterSplice(a, x, b, keep);
    FilterAppend(a, b, keep);
    FilterNone(b, keep);
    var fa, fx := Filter(a, keep), Filter([x], keep);
    assert fa + fx + [] == (fa + []) + fx;
  }

  /** Splicing in an element that fails the test changes nothing. */
  lemma FilterSpliceSkip<T>(a: seq<T>, x: T, b: seq<T>, keep: T -> bool)
    requires !keep(x)
    ensures Filter(a + [x] + b, keep) == Filter(a + b, keep) + Filter([x], keep)
  {
    FilterSplice(a, x, b, keep);
    FilterAppend(a, b, keep);
    FilterNone([x], keep);
    var fa, fb := Filter(a, keep), Filter(b, keep);
    assert fa + [] + fb == (fa + fb) + [];
  }

  /** Filtering twice with the same test changes nothing more. */
  lemma {:induction false} FilterIdempotent<T>(s: seq<T>, keep: T -> bool)
    ensures Filter(Filter(s, keep), keep) == Filter(s, keep)
  {
    var r := Filter(s, keep);
    assert forall i :: 0 <= i < |r| ==> keep(r[i]) by {
      forall i | 0 <= i < |r| ensures keep(r[i]) {
        assert r[i] in r;
      }
    }
  }

  /** When no element satisfies `keep`, nothing is kept. */
  lemma {:induction false} FilterNone<T>(s: seq<T>, keep: T -> bool)
    requires forall i :: 0 <= i < |s| ==> !keep(s[i])
    ensures Filter(s, keep) == []
  {
    if s != [] {
      FilterNone(s[1..], keep);
    }
  }

  /** The number of elements of `s` that satisfy `keep` (`s.filter(keep).length`). */
  function CountIf<T>(s: seq<T>, keep: T -> bool): (n: nat)
    ensures n <= |s|
  {
    |Filter(s, keep)|
  }

  /** Counting over two parts adds the parts' counts. */
  lemma CountAppend<T>(a: seq<T>, b: seq<T>, keep: T -> bool)
    ensures CountIf(a + b, keep) == CountIf(a, keep) + CountIf(b, keep)
  {
    FilterAppend(a, b, keep);
  }

  /** The elements a test keeps and those its opposite keeps add up to the
      whole list. */
  lemma {:induction false} CountComplement<T>(s: seq<T>, keep: T -> bool, drop: T -> bool)
    requires forall i :: 0 <= i < |s| ==> drop(s[i]) == !keep(s[i])
    ensures CountIf(s, keep) + CountIf(s, drop) == |s|
  {
    if s != [] {
      CountComplement(s[1..], keep, drop);
    }
  }

  /** Two tests no element satisfies together count at most `|s|` between them. */
  lemma {:induction false} DisjointCounts<T>(s: seq<T>, p: T -> bool, q: T -> bool)
    requires forall i :: 0 <= i < |s| ==> !(p(s[i]) && q(s[i]))
    ensures CountIf(s, p) + CountIf(s, q) <= |s|
  {
    if s != [] {
      DisjointCounts(s[1..], p, q);
    }
  }
}
