/** The variable mixer: every combination of variant choices across a list of variables. */
module Mixer {
  import opened Types

  /** `(variable, i)`: variable with its `i`-th variant selected. */
  datatype Choice = Choice(variable: Variable, index: int)

  /** An element of the mixer's result. With one variable it is a list of choices; with two or
      more it is a tuple whose components are the one-variable lists, each a singleton. */
  datatype Mixture = Flat(choices: seq<Choice>) | Tuple(parts: seq<seq<Choice>>)

  function Prod(ns: seq<nat>): nat
  {
    if ns == [] then 1 else ns[0] * Prod(ns[1..])
  }

  /** `t` picks a position below `ns[j]` in every place `j`. */
  predicate InBounds(t: seq<int>, ns: seq<nat>)
  {
    |t| == |ns| && forall j :: 0 <= j < |t| ==> 0 <= t[j] < ns[j]
  }

  /** Lexicographic order on index vectors. */
  predicate LexLess(a: seq<int>, b: seq<int>)
    decreases |a|
  {
    0 < |a| && 0 < |b| && (a[0] < b[0] || (a[0] == b[0] && LexLess(a[1..], b[1..])))
  }

  predicate StrictlySorted(xs: seq<seq<int>>)
  {
    forall p, q :: 0 <= p < q < |xs| ==> LexLess(xs[p], xs[q])
  }

  function Prepend(i: int, tails: seq<seq<int>>): seq<seq<int>>
  {
    seq(|tails|, k requires 0 <= k < |tails| => [i] + tails[k])
  }

  /** Every first position from `lo` up to `n - 1`, each followed by every tail in order. */
  function Blocks(lo: nat, n: nat, tails: seq<seq<int>>): seq<seq<int>>
    requires lo <= n
    decreases n - lo
  {
    if lo == n then [] else Prepend(lo, tails) + Blocks(lo + 1, n, tails)
  }

  /** Each vector of a block run starts with a position in `[lo, n)` and continues with a tail. */
  lemma {:induction false} BlocksShape(lo: nat, n: nat, tails: seq<seq<int>>)
    requires lo <= n
    ensures forall x :: x in Blocks(lo, n, tails) ==> 1 <= |x| && lo <= x[0] < n && x[1..] in tails
    decreases n - lo
  {
    if lo < n {
      var head := Prepend(lo, tails);
      BlocksShape(lo + 1, n, tails);
      forall x | x in head ensures 1 <= |x| && x[0] == lo && x[1..] in tails {
        var k :| 0 <= k < |head| && head[k] == x;
        assert x[1..] == tails[k];
      }
    }
  }

  /** The index vectors `itertools.product` walks: every in-bounds vector, the last place
      advancing fastest. */
  function Indices(ns: seq<nat>): (r: seq<seq<int>>)
    ensures forall t :: t in r ==> InBounds(t, ns)
    decreases |ns|
  {
    if ns == [] then [[]]
    else
      var tails := Indices(ns[1..]);
      var r := Blocks(0, ns[0], tails);
      assert forall x :: x in r ==> InBounds(x, ns) by {
        BlocksShape(0, ns[0], tails);
        forall x | x in r ensures InBounds(x, ns) {
          assert InBounds(x[1..], ns[1..]);
          assert forall j :: 1 <= j < |x| ==> x[j] == x[1..][j - 1];
        }
      }
      r
  }

  function Lengths<T>(pools: seq<seq<T>>): seq<nat>
  {
    seq(|pools|, j requires 0 <= j < |pools| => |pools[j]|)
  }

  /** The element of every pool that `t` selects. */
  function Pick<T>(pools: seq<seq<T>>, t: seq<int>): seq<T>
    requires InBounds(t, Lengths(pools))
  {
    seq(|pools|, j requires 0 <= j < |pools| => pools[j][t[j]])
  }

  /** `itertools.product(*pools)` */
  function Product<T>(pools: seq<seq<T>>): (r: seq<seq<T>>)
    ensures forall x :: x in r ==> |x| == |pools| && forall j :: 0 <= j < |pools| ==> x[j] in pools[j]
  {
    var idx := Indices(Lengths(pools));
    var r := seq(|idx|, n requires 0 <= n < |idx| => assert idx[n] in idx; Pick(pools, idx[n]));
    assert forall x :: x in r ==> |x| == |pools| && forall j :: 0 <= j < |pools| ==> x[j] in pools[j] by {
      forall x | x in r ensures |x| == |pools| && forall j :: 0 <= j < |pools| ==> x[j] in pools[j] {
        var n :| 0 <= n < |r| && r[n] == x;
        assert idx[n] in idx;
        assert InBounds(idx[n], Lengths(pools));
      }
    }
    r
  }

  /** The one-variable result: `[[(v, 0)], ..., [(v, n - 1)]]`. */
  function Singular(v: Variable): seq<seq<Choice>>
  {
    seq(|v.variants|, i requires 0 <= i < |v.variants| => [Choice(v, i)])
  }

  /** The one-variable result of every variable, in order. */
  function Singulars(vars: seq<Variable>): seq<seq<seq<Choice>>>
  {
    seq(|vars|, j requires 0 <= j < |vars| => Singular(vars[j]))
  }

  /** How many variants each variable has. */
  function Counts(vars: seq<Variable>): seq<nat>
  {
    seq(|vars|, j requires 0 <= j < |vars| => |vars[j].variants|)
  }

  /** `all_variable_mixtures`. With two or more variables it takes the product of the
      one-variable results, so each element is a tuple of singleton lists. */
  function AllVariableMixtures(vars: seq<Variable>): (r: seq<Mixture>)
    ensures |vars| == 0 ==> r == []
    ensures |vars| == 1 ==> |r| == |vars[0].variants|
    ensures |vars| == 1 ==> forall i :: 0 <= i < |r| ==> r[i] == Flat([Choice(vars[0], i)])
  {
    if |vars| == 0 then []
    else if |vars| == 1 then
      var s := Singular(vars[0]);
      seq(|s|, i requires 0 <= i < |s| => Flat(s[i]))
    else
      var prods := Product(Singulars(vars));
      seq(|prods|, n requires 0 <= n < |prods| => Tuple(prods[n]))
  }

  /** The mixture that selects variant `t[j]` of every variable `j`. */
  function Spread(vars: seq<Variable>, t: seq<int>): Mixture
    requires |t| == |vars|
  {
    Tuple(seq(|vars|, j requires 0 <= j < |vars| => [Choice(vars[j], t[j])]))
  }

  /** The variant index each component of a tuple selects. */
  function IndexVector(m: Mixture): seq<int>
  {
    match m
    case Flat(cs) => seq(|cs|, j requires 0 <= j < |cs| => cs[j].index)
    case Tuple(parts) => seq(|parts|, j requires 0 <= j < |parts| => if parts[j] != [] then parts[j][0].index else -1)
  }

  lemma MulSucc(k: nat, t: nat, m: nat)
    requires m == k + 1
    ensures m * t == k * t + t
  {
  }

  lemma {:induction false} BlocksLength(lo: nat, n: nat, tails: seq<seq<int>>)
    requires lo <= n
    ensures |Blocks(lo, n, tails)| == (n - lo) * |tails|
    decreases n - lo
  {
    if lo < n {
      var rest := Blocks(lo + 1, n, tails);
      assert |Blocks(lo, n, tails)| == |tails| + |rest|;
      BlocksLength(lo + 1, n, tails);
      MulSucc(n - (lo + 1), |tails|, n - lo);
    }
  }

  /** There are as many index vectors as the product of the place sizes. */
  lemma {:induction false} IndicesLength(ns: seq<nat>)
    ensures |Indices(ns)| == Prod(ns)
    decreases |ns|
  {
    if ns != [] {
      IndicesLength(ns[1..]);
      BlocksLength(0, ns[0], Indices(ns[1..]));
    }
  }

  lemma LexLessIrreflexive(a: seq<int>)
    ensures !LexLess(a, a)
  {
  }

  lemma {:induction false} BlocksSorted(lo: nat, n: nat, tails: seq<seq<int>>)
    requires lo <= n
    requires StrictlySorted(tails)
    ensures StrictlySorted(Blocks(lo, n, tails))
    decreases n - lo
  {
    if lo < n {
      BlocksSorted(lo + 1, n, tails);
      BlocksShape(lo + 1, n, tails);
      var head := Prepend(lo, tails);
      var rest := Blocks(lo + 1, n, tails);
      var r := Blocks(lo, n, tails);
      assert r == head + rest;
      forall p, q | 0 <= p < q < |r| ensures LexLess(r[p], r[q]) {
        if q < |head| {
          assert r[p] == [lo] + tails[p] && r[q] == [lo] + tails[q];
          assert r[p][1..] == tails[p] && r[q][1..] == tails[q];
        } else if p < |head| {
          assert r[q] == rest[q - |head|];
          assert rest[q - |head|] in rest;
        } else {
          assert r[p] == rest[p - |head|] && r[q] == rest[q - |head|];
        }
      }
    }
  }

  /** The index vectors come in strictly increasing lexicographic order. */
  lemma {:induction false} IndicesSorted(ns: seq<nat>)
    ensures StrictlySorted(Indices(ns))
    decreases |ns|
  {
    if ns != [] {
      IndicesSorted(ns[1..]);
      BlocksSorted(0, ns[0], Indices(ns[1..]));
    }
  }

  lemma {:induction false} BlocksContain(lo: nat, n: nat, tails: seq<seq<int>>, i: int, x: seq<int>)
    requires lo <= i < n
    requires x in tails
    ensures [i] + x in Blocks(lo, n, tails)
    decreases n - lo
  {
    var head := Prepend(lo, tails);
    var rest := Blocks(lo + 1, n, tails);
    assert Blocks(lo, n, tails) == head + rest;
    if i == lo {
      var k :| 0 <= k < |tails| && tails[k] == x;
      assert head[k] == [i] + x;
      assert [i] + x in head;
    } else {
      BlocksContain(lo + 1, n, tails, i, x);
    }
    assert [i] + x in head + rest;
  }

  /** Every in-bounds index vector is reached. */
  lemma {:induction false} IndicesComplete(ns: seq<nat>, t: seq<int>)
    requires InBounds(t, ns)
    ensures t in Indices(ns)
    decreases |ns|
  {
    if ns != [] {
      assert InBounds(t[1..], ns[1..]);
      IndicesComplete(ns[1..], t[1..]);
      BlocksContain(0, ns[0], Indices(ns[1..]), t[0], t[1..]);
      assert [t[0]] + t[1..] == t;
    }
  }

  /** Each variable's one-variable result has one entry per variant. */
  lemma SingularsLengths(vars: seq<Variable>)
    ensures Lengths(Singulars(vars)) == Counts(vars)
  {
  }

  /** For two or more variables there is one mixture per index vector. */
  lemma MixturesLength(vars: seq<Variable>)
    requires |vars| >= 2
    ensures |AllVariableMixtures(vars)| == |Indices(Counts(vars))|
  {
    SingularsLengths(vars);
  }

  /** The `n`-th element of the product picks along the `n`-th index vector. */
  lemma ProductAt<T>(pools: seq<seq<T>>, n: int)
    requires 0 <= n < |Indices(Lengths(pools))|
    ensures |Product(pools)| == |Indices(Lengths(pools))|
    ensures Indices(Lengths(pools))[n] in Indices(Lengths(pools))
    ensures Product(pools)[n] == Pick(pools, Indices(Lengths(pools))[n])
  {
    assert Indices(Lengths(pools))[n] in Indices(Lengths(pools));
  }

  /** Picking from the one-variable results along `t` spreads `t` over the variables. */
  lemma PickSingulars(vars: seq<Variable>, t: seq<int>)
    requires InBounds(t, Counts(vars))
    ensures Lengths(Singulars(vars)) == Counts(vars)
    ensures Tuple(Pick(Singulars(vars), t)) == Spread(vars, t)
  {
    SingularsLengths(vars);
    var singulars := Singulars(vars);
    var p := Pick(singulars, t);
    var s := seq(|vars|, j requires 0 <= j < |vars| => [Choice(vars[j], t[j])]);
    forall j | 0 <= j < |vars| ensures p[j] == s[j] {
      assert singulars[j] == Singular(vars[j]);
    }
    assert p == s;
  }

  /** For two or more variables the `n`-th mixture is the spread of the `n`-th index vector. */
  lemma MixturesAreSpreads(vars: seq<Variable>, n: int)
    requires |vars| >= 2
    requires 0 <= n < |Indices(Counts(vars))|
    ensures |Indices(Counts(vars))| == |AllVariableMixtures(vars)|
    ensures Indices(Counts(vars))[n] in Indices(Counts(vars))
    ensures AllVariableMixtures(vars)[n] == Spread(vars, Indices(Counts(vars))[n])
  {
    SingularsLengths(vars);
    var t := Indices(Counts(vars))[n];
    ProductAt(Singulars(vars), n);
    PickSingulars(vars, t);
  }

  /** A mixture that picks an in-range variant of every variable, in variable order. */
  predicate Shaped(vars: seq<Variable>, m: Mixture)
  {
    var t := IndexVector(m);
    InBounds(t, Counts(vars)) && m == Spread(vars, t)
  }

  /** Index choices that rise strictly in lexicographic order, so no mixture repeats. */
  predicate Ascending(ms: seq<Mixture>)
  {
    forall n, m :: 0 <= n < m < |ms| ==> LexLess(IndexVector(ms[n]), IndexVector(ms[m])) && ms[n] != ms[m]
  }

  /** With two or more variables there are exactly as many mixtures as the product of the
      variant counts, each one the spread of an in-bounds index vector. */
  lemma MixturesCountAndShape(vars: seq<Variable>)
    requires |vars| >= 2
    ensures |AllVariableMixtures(vars)| == Prod(Counts(vars))
    ensures forall m :: m in AllVariableMixtures(vars) ==> Shaped(vars, m)
  {
    var r := AllVariableMixtures(vars);
    var idx := Indices(Counts(vars));
    MixturesLength(vars);
    IndicesLength(Counts(vars));
    forall m | m in r ensures Shaped(vars, m) {
      var n :| 0 <= n < |r| && r[n] == m;
      MixturesAreSpreads(vars, n);
      assert IndexVector(r[n]) == idx[n];
    }
  }

  /** The mixtures' index vectors increase strictly in lexicographic order, so no combination
      appears twice. */
  lemma MixturesOrdered(vars: seq<Variable>)
    requires |vars| >= 2
    ensures Ascending(AllVariableMixtures(vars))
  {
    var r := AllVariableMixtures(vars);
    var idx := Indices(Counts(vars));
    MixturesLength(vars);
    IndicesSorted(Counts(vars));
    forall n, m | 0 <= n < m < |r|
      ensures LexLess(IndexVector(r[n]), IndexVector(r[m])) && r[n] != r[m]
    {
      MixturesAreSpreads(vars, n);
      MixturesAreSpreads(vars, m);
      assert IndexVector(r[n]) == idx[n] && IndexVector(r[m]) == idx[m];
      LexLessIrreflexive(idx[n]);
    }
  }

  /** Every combination of in-range variant indices appears among the mixtures. */
  lemma MixturesComplete(vars: seq<Variable>, t: seq<int>)
    requires |vars| >= 2
    requires InBounds(t, Counts(vars))
    ensures Spread(vars, t) in AllVariableMixtures(vars)
  {
    var idx := Indices(Counts(vars));
    var r := AllVariableMixtures(vars);
    IndicesComplete(Counts(vars), t);
    var n :| 0 <= n < |idx| && idx[n] == t;
    MixturesAreSpreads(vars, n);
    assert r[n] == Spread(vars, t);
  }
}
