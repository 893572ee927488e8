/** Sequence helpers shared by the resolvers and the orchestrator: lodash
    `uniq` (first occurrence kept) and `flatten` (one level). */
module Seqs {

  predicate Distinct<T(==)>(xs: seq<T>) {
    forall i, j :: 0 <= i < j < |xs| ==> xs[i] != xs[j]
  }

  /** `xs.indexOf(x) === -1 && xs.push(x)`. */
  function AddIfAbsent<T(==)>(xs: seq<T>, x: T): seq<T> {
    if x in xs then xs else xs + [x]
  }

  /** lodash `uniq`: every value once, at the place it first occurs. */
  function Uniq<T(==)>(xs: seq<T>): seq<T>
    decreases |xs|
  {
    if xs == [] then [] else AddIfAbsent(Uniq(xs[..|xs| - 1]), xs[|xs| - 1])
  }

  /** `uniq` keeps every value and invents none. */
  lemma {:induction false} UniqMembers<T>(xs: seq<T>)
    ensures forall x :: x in Uniq(xs) <==> x in xs
    decreases |xs|
  {
    if xs != [] {
      var init := xs[..|xs| - 1];
      UniqMembers(init);
      assert xs == init + [xs[|xs| - 1]];
    }
  }

  /** `uniq` repeats nothing. */
  lemma {:induction false} UniqDistinct<T>(xs: seq<T>)
    ensures Distinct(Uniq(xs))
    decreases |xs|
  {
    if xs != [] {
      UniqDistinct(xs[..|xs| - 1]);
    }
  }

  /** On a list without repeats `uniq` changes nothing. */
  lemma {:induction false} UniqOfDistinct<T>(xs: seq<T>)
    requires Distinct(xs)
    ensures Uniq(xs) == xs
    decreases |xs|
  {
    if xs != [] {
      var init := xs[..|xs| - 1];
      var last := xs[|xs| - 1];
      assert Distinct(init) by {
        forall i, j | 0 <= i < j < |init| ensures init[i] != init[j] { assert init[i] == xs[i] && init[j] == xs[j]; }
      }
      UniqOfDistinct(init);
      assert last !in init by {
        forall k | 0 <= k < |init| ensures init[k] != last { assert init[k] == xs[k]; }
      }
      assert xs == init + [last];
    }
  }

  /** lodash `flatten` (one level). */
  function Flatten<T>(xss: seq<seq<T>>): seq<T>
    decreases |xss|
  {
    if xss == [] then [] else xss[0] + Flatten(xss[1..])
  }

  lemma {:induction false} FlattenMembers<T>(xss: seq<seq<T>>)
    ensures forall x :: x in Flatten(xss) <==> exists k :: 0 <= k < |xss| && x in xss[k]
    decreases |xss|
  {
    if xss != [] {
      FlattenMembers(xss[1..]);
      forall x ensures x in Flatten(xss) <==> exists k :: 0 <= k < |xss| && x in xss[k] {
        if exists k :: 0 <= k < |xss| && x in xss[k] {
          var k :| 0 <= k < |xss| && x in xss[k];
          if k > 0 { assert x in xss[1..][k - 1]; }
        }
        if exists k :: 0 <= k < |xss[1..]| && x in xss[1..][k] {
          var k :| 0 <= k < |xss[1..]| && x in xss[1..][k];
          assert x in xss[k + 1];
        }
      }
    }
  }

  lemma {:induction false} FlattenConcat<T>(a: seq<seq<T>>, b: seq<seq<T>>)
    ensures Flatten(a + b) == Flatten(a) + Flatten(b)
    decreases |a|
  {
    if a == [] {
      assert a + b == b;
    } else {
      assert (a + b)[1..] == a[1..] + b;
      FlattenConcat(a[1..], b);
    }
  }
}
