/**
  The pieces of Rust's iterator and slice library that the stub writer's string building
  goes through: `filter_map` over options, `[String]::join`, and, as the reading-back
  partner of `join`, splitting a string at a separator character.
*/
module Strings {
  import opened Wrappers

  /** `iter().filter_map(|x| x.as_ref()).cloned().collect()`: the present values, in order. */
  function FilterSome<T>(xs: seq<Option<T>>): (r: seq<T>)
    ensures forall i :: 0 <= i < |r| ==> Some(r[i]) in xs
    ensures forall i :: 0 <= i < |xs| && xs[i].Some? ==> xs[i].value in r
  {
    if xs == [] then []
    else if xs[0].Some? then [xs[0].value] + FilterSome(xs[1..])
    else FilterSome(xs[1..])
  }

  /** The value of an option as a sequence of zero or one elements. */
  function Present<T>(x: Option<T>): (r: seq<T>)
  {
    if x.Some? then [x.value] else []
  }

  /** Filtering three options keeps the present values in their order. */
  lemma FilterThree<T>(a: Option<T>, b: Option<T>, c: Option<T>)
    ensures FilterSome([a, b, c]) == Present(a) + Present(b) + Present(c)
  {
    assert [a, b, c] == [a] + ([b] + [c]);
    FilterSomeCons(c, []);
    FilterSomeCons(b, [c]);
    FilterSomeCons(a, [b] + [c]);
  }

  lemma FilterSomeCons<T>(x: Option<T>, xs: seq<Option<T>>)
    ensures FilterSome([x] + xs) == Present(x) + FilterSome(xs)
  {
    assert ([x] + xs)[1..] == xs;
  }

  /** `xs.join(sep)`: the elements with `sep` between neighbours and nowhere else. */
  function Join(xs: seq<string>, sep: string): (r: string)
    ensures xs == [] ==> r == ""
    ensures xs != [] ==> xs[0] <= r
  {
    if xs == [] then ""
    else if |xs| == 1 then xs[0]
    else xs[0] + sep + Join(xs[1..], sep)
  }

  /** The pieces of `s` between occurrences of `d`; there is always at least one piece. */
  function Split(s: string, d: char): (r: seq<string>)
    ensures |r| >= 1
    ensures forall i :: 0 <= i < |r| ==> d !in r[i]
  {
    if s == [] then [""]
    else
      var t := Split(s[1..], d);
      if s[0] == d then [""] + t else [[s[0]] + t[0]] + t[1..]
  }

  /** Number of occurrences of `d` in `s`. */
  function Count(s: string, d: char): nat
  {
    if s == [] then 0 else (if s[0] == d then 1 else 0) + Count(s[1..], d)
  }

  lemma {:induction false} CountAppend(s: string, t: string, d: char)
    ensures Count(s + t, d) == Count(s, d) + Count(t, d)
  {
    if s != [] {
      assert (s + t)[1..] == s[1..] + t;
      CountAppend(s[1..], t, d);
    } else {
      assert s + t == t;
    }
  }

  /** A piece free of the separator splits into itself. */
  lemma {:induction false} SplitPlain(x: string, d: char)
    requires d !in x
    ensures Split(x, d) == [x]
  {
    if x != [] {
      SplitPlain(x[1..], d);
      assert [x[0]] + x[1..] == x;
    }
  }

  /** Splitting `x + [d] + rest` cuts off `x` as the first piece. */
  lemma {:induction false} SplitAfterPiece(x: string, d: char, rest: string)
    requires d !in x
    ensures Split(x + [d] + rest, d) == [x] + Split(rest, d)
  {
    var s := x + [d] + rest;
    if x == [] {
      assert s[1..] == rest;
    } else {
      assert s[1..] == x[1..] + [d] + rest;
      SplitAfterPiece(x[1..], d, rest);
      assert [x[0]] + x[1..] == x;
    }
  }

  /** Joining separator-free pieces with a one-character separator, then splitting, gives the pieces back. */
  lemma {:induction false} SplitJoin(xs: seq<string>, d: char)
    requires xs != []
    requires forall i :: 0 <= i < |xs| ==> d !in xs[i]
    ensures Split(Join(xs, [d]), d) == xs
    ensures Count(Join(xs, [d]), d) == |xs| - 1
  {
    if |xs| == 1 {
      SplitPlain(xs[0], d);
      CountFree(xs[0], d);
    } else {
      SplitJoin(xs[1..], d);
      SplitAfterPiece(xs[0], d, Join(xs[1..], [d]));
      assert [xs[0]] + xs[1..] == xs;
      CountFree(xs[0], d);
      CountAppend(xs[0] + [d], Join(xs[1..], [d]), d);
      CountAppend(xs[0], [d], d);
    }
  }

  lemma {:induction false} CountFree(s: string, d: char)
    requires d !in s
    ensures Count(s, d) == 0
  {
    if s != [] {
      CountFree(s[1..], d);
    }
  }
}
