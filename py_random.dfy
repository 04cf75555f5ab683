/**
  Python's module-level `random` generator, as the trace generators use it:
  an explicit stream of draws, so that a generated trace is a function of
  the stream.
*/
module PyRandom {

  predicate Distinct(s: seq<nat>) {
    forall a, b :: 0 <= a < b < |s| ==> s[a] != s[b]
  }

  lemma RemoveAt(pool: seq<nat>, j: nat)
    requires j < |pool| && Distinct(pool)
    ensures var rest := pool[..j] + pool[j + 1..];
      && |rest| == |pool| - 1 && Distinct(rest)
      && pool[j] !in rest
      && forall y :: y in rest ==> y in pool
  {
    var rest := pool[..j] + pool[j + 1..];
    forall a, b | 0 <= a < b < |rest| ensures rest[a] != rest[b] {
      var a' := if a < j then a else a + 1;
      var b' := if b < j then b else b + 1;
      assert rest[a] == pool[a'] && rest[b] == pool[b'];
    }
    forall y | y in rest ensures y in pool && y != pool[j] {
      var m :| 0 <= m < |rest| && rest[m] == y;
      var m' := if m < j then m else m + 1;
      assert rest[m] == pool[m'];
    }
  }

  /** The set of elements of a sequence. */
  function Elems(xs: seq<nat>): (r: set<nat>)
    ensures forall x :: x in r <==> x in xs
  {
    set x | x in xs
  }

  /** A sequence without repeats has as many distinct elements as positions. */
  lemma {:induction false} DistinctCard(xs: seq<nat>)
    requires Distinct(xs)
    ensures |Elems(xs)| == |xs|
  {
    if xs == [] {
      assert Elems(xs) == {};
    } else {
      var n := |xs| - 1;
      assert Elems(xs) == Elems(xs[..n]) + {xs[n]};
      assert Distinct(xs[..n]);
      forall a | 0 <= a < n ensures xs[..n][a] != xs[n] {
      }
      assert xs[n] !in Elems(xs[..n]);
      DistinctCard(xs[..n]);
    }
  }

  /** Dropping the head of a suffix of a sequence without repeats drops exactly that element. */
  lemma ElemsDrop(xs: seq<nat>, k: nat)
    requires Distinct(xs) && k < |xs|
    ensures Elems(xs[k + 1..]) == Elems(xs[k..]) - {xs[k]}
  {
    assert xs[k..] == [xs[k]] + xs[k + 1..];
    forall j | k < j < |xs| ensures xs[j] != xs[k] {
    }
  }

  /** A set drawn from a sequence without repeats is no larger than the sequence. */
  lemma SetSizeBound(s: set<nat>, xs: seq<nat>)
    requires s <= Elems(xs)
    requires Distinct(xs)
    ensures |s| <= |xs|
  {
    var t := Elems(xs);
    assert t == s + (t - s) && s * (t - s) == {};
    DistinctCard(xs);
  }

  /** The module-level random generator, as an explicit stream of draws. */
  class Rng {
    const draw: nat -> nat
    var drawn: nat

    constructor (draw: nat -> nat)
      ensures this.draw == draw && drawn == 0
    {
      this.draw := draw;
      drawn := 0;
    }

    method Next() returns (d: nat)
      modifies this
      ensures d == draw(old(drawn)) && drawn == old(drawn) + 1
    {
      d := draw(drawn);
      drawn := drawn + 1;
    }

    /** `random.random() < 0.5`. */
    method Coin() returns (heads: bool)
      modifies this
      ensures drawn == old(drawn) + 1 && heads == (draw(old(drawn)) % 2 == 0)
    {
      var d := Next();
      heads := d % 2 == 0;
    }

    /** `random.choice(xs)`. */
    method Choice(xs: seq<nat>) returns (x: nat)
      requires |xs| > 0
      modifies this
      ensures drawn == old(drawn) + 1 && x == xs[draw(old(drawn)) % |xs|]
    {
      var d := Next();
      x := xs[d % |xs|];
    }

    /** `random.randint(lo, hi)`, both ends included. */
    method RandInt(lo: int, hi: int) returns (r: int)
      requires lo <= hi
      modifies this
      ensures drawn == old(drawn) + 1 && lo <= r <= hi
    {
      var d := Next();
      r := lo + d % (hi - lo + 1);
    }

    /** `random.sample(xs, k)`: k elements of xs at distinct positions. */
    method Sample(xs: seq<nat>, k: nat) returns (s: seq<nat>)
      requires k <= |xs| && Distinct(xs)
      modifies this
      ensures |s| == k && Distinct(s) && forall x :: x in s ==> x in xs
    {
      var pool := xs;
      s := [];
      while |s| < k
        invariant |s| + |pool| == |xs| && |s| <= k
        invariant Distinct(s) && Distinct(pool)
        invariant forall x :: x in s ==> x in xs && x !in pool
        invariant forall x :: x in pool ==> x in xs
      {
        var d := Next();
        var j := d % |pool|;
        var x := pool[j];
        RemoveAt(pool, j);
        forall a | 0 <= a < |s| ensures s[a] != x {
          assert s[a] in s;
        }
        s := s + [x];
        pool := pool[..j] + pool[j + 1..];
      }
    }
  }

}
