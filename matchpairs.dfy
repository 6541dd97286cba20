/**
 * pupil's matchpairs: score every pair of an `xs` item and a `ys` item, keep the pairs that
 * score at least `least`, and take them greedily, best score first, never reusing an item.
 */
module MatchPairs {
  import opened Wrappers
  import opened Sorting

  /** A candidate pair: positions in `xs` and `ys`, and their score. */
  datatype Candidate = Candidate(i: nat, j: nat, score: real)

  /** A matched pair as returned: by position when `index` is set, else by value. */
  datatype Matched<T> = ByIndex(i: nat, j: nat, score: real) | ByValue(x: T, y: T, score: real)

  /** The sort key `(-score, i, j)`: a higher score first, then the earlier `i`, then the earlier `j`. */
  function Before(p: Candidate, q: Candidate): bool {
    p.score > q.score || (p.score == q.score && (p.i < q.i || (p.i == q.i && p.j < q.j)))
  }

  lemma BeforeStrict()
    ensures StrictOrder(Before)
  {
  }

  /** Candidates at different positions are always ordered one way or the other. */
  lemma BeforeTotal(p: Candidate, q: Candidate)
    requires (p.i, p.j) != (q.i, q.j)
    ensures Before(p, q) || Before(q, p)
  {
  }

  /** `c` is the pair at its position, scored by `cmp`, and scores at least `least`. */
  predicate IsCandidate<T>(xs: seq<T>, ys: seq<T>, cmp: (T, T) -> real, least: real, c: Candidate) {
    c.i < |xs| && c.j < |ys| && c.score == cmp(xs[c.i], ys[c.j]) && c.score >= least
  }

  /** Row-major position order: by `i`, then by `j`. */
  predicate PosLess(p: Candidate, q: Candidate) {
    p.i < q.i || (p.i == q.i && p.j < q.j)
  }

  /** Step 1: all the candidates, in row-major order. */
  method AllPairs<T>(xs: seq<T>, ys: seq<T>, cmp: (T, T) -> real, least: real) returns (all: seq<Candidate>)
    ensures forall c :: c in all <==> IsCandidate(xs, ys, cmp, least, c)
    ensures forall a, b :: 0 <= a < b < |all| ==> PosLess(all[a], all[b])
  {
    all := [];
    var i := 0;
    while i < |xs|
      invariant 0 <= i <= |xs|
      invariant forall c :: c in all <==> IsCandidate(xs, ys, cmp, least, c) && c.i < i
      invariant forall a, b :: 0 <= a < b < |all| ==> PosLess(all[a], all[b])
    {
      var j := 0;
      while j < |ys|
        invariant 0 <= j <= |ys|
        invariant forall c :: c in all <==>
          IsCandidate(xs, ys, cmp, least, c) && (c.i < i || (c.i == i && c.j < j))
        invariant forall a, b :: 0 <= a < b < |all| ==> PosLess(all[a], all[b])
      {
        var score := cmp(xs[i], ys[j]);
        if score >= least {
          var c := Candidate(i, j, score);
          assert forall a :: 0 <= a < |all| ==> PosLess(all[a], c) by {
            forall a | 0 <= a < |all| ensures PosLess(all[a], c) {
              assert all[a] in all;
            }
          }
          all := all + [c];
        }
        j := j + 1;
      }
      i := i + 1;
    }
  }

  /** No pair of `chosen` shares a position with `c`. */
  predicate Free(chosen: seq<Candidate>, c: Candidate) {
    forall d :: d in chosen ==> d.i != c.i && d.j != c.j
  }

  /**
   * Each pair of `chosen` is the first candidate of `all`, in `Before` order, that shares no
   * position with the pairs chosen before it.
   */
  ghost predicate GreedyPrefix(all: seq<Candidate>, chosen: seq<Candidate>) {
    forall t :: 0 <= t < |chosen| ==>
      && chosen[t] in all
      && Free(chosen[..t], chosen[t])
      && forall c :: c in all && Free(chosen[..t], c) && c != chosen[t] ==> Before(chosen[t], c)
  }

  /** Every candidate of `seen` shares a position with a chosen pair. */
  ghost predicate Blocked(seen: seq<Candidate>, chosen: seq<Candidate>) {
    forall c :: c in seen ==> !Free(chosen, c)
  }

  /** The greedy matching of `all`: chosen greedily, until no candidate is left free. */
  ghost predicate Greedy(all: seq<Candidate>, chosen: seq<Candidate>) {
    GreedyPrefix(all, chosen) && Blocked(all, chosen)
  }

  /** Positions determine candidates: no two candidates share one. */
  predicate Positional(all: seq<Candidate>) {
    forall p, q :: p in all && q in all && p.i == q.i && p.j == q.j ==> p == q
  }

  /** One returned pair: positions when `index` is set, else the original items. */
  function Emit<T>(c: Candidate, xs: seq<T>, ys: seq<T>, index: bool): Matched<T>
    requires c.i < |xs| && c.j < |ys|
  {
    if index then ByIndex(c.i, c.j, c.score) else ByValue(xs[c.i], ys[c.j], c.score)
  }

  /** The chosen pairs in the requested shape. */
  function Output<T>(chosen: seq<Candidate>, xs: seq<T>, ys: seq<T>, index: bool): seq<Matched<T>>
    requires forall c :: c in chosen ==> c.i < |xs| && c.j < |ys|
  {
    seq(|chosen|, t requires 0 <= t < |chosen| => Emit(chosen[t], xs, ys, index))
  }

  /**
   * Step 2: walk the sorted candidates and take each one whose `xs` and `ys` positions are both
   * still unused.
   */
  method Choose<T>(ghost all: seq<Candidate>, sorted: seq<Candidate>, xs: seq<T>, ys: seq<T>, index: bool)
    returns (pairs: seq<Matched<T>>, ghost chosen: seq<Candidate>)
    requires multiset(sorted) == multiset(all) && SortedBy(sorted, Before) && Positional(all)
    requires forall c :: c in all ==> c.i < |xs| && c.j < |ys|
    ensures Greedy(all, chosen)
    ensures forall c :: c in chosen ==> c in all
    ensures pairs == Output(chosen, xs, ys, index)
    ensures forall s, t :: 0 <= s < t < |pairs| ==> pairs[s].score >= pairs[t].score
  {
    pairs, chosen := [], [];
    var xUsed: set<nat>, yUsed: set<nat> := {}, {};
    var k := 0;
    while k < |sorted|
      invariant 0 <= k <= |sorted|
      invariant xUsed == (set d | d in chosen :: d.i) && yUsed == (set d | d in chosen :: d.j)
      invariant GreedyPrefix(all, chosen) && Blocked(sorted[..k], chosen)
      invariant forall c :: c in chosen ==> c in all
      invariant pairs == Output(chosen, xs, ys, index)
    {
      var s := sorted[k];
      assert s in multiset(all);
      if s.i !in xUsed && s.j !in yUsed {
        ChooseStep(all, sorted, k, chosen);
        OutputSnoc(chosen, s, xs, ys, index);
        pairs := pairs + [Emit(s, xs, ys, index)];
        chosen := chosen + [s];
        xUsed, yUsed := xUsed + {s.i}, yUsed + {s.j};
      } else {
        SkipStep(sorted, k, chosen);
      }
      k := k + 1;
    }
    assert sorted[..k] == sorted;
    forall c | c in all ensures c in sorted {
      assert c in multiset(sorted);
    }
    GreedyOrdered(all, chosen);
  }

  lemma OutputSnoc<T>(chosen: seq<Candidate>, s: Candidate, xs: seq<T>, ys: seq<T>, index: bool)
    requires forall c :: c in chosen ==> c.i < |xs| && c.j < |ys|
    requires s.i < |xs| && s.j < |ys|
    ensures Output(chosen + [s], xs, ys, index) == Output(chosen, xs, ys, index) + [Emit(s, xs, ys, index)]
  {
  }

  /** A candidate that shares a position with a chosen pair is passed over. */
  lemma SkipStep(sorted: seq<Candidate>, k: nat, chosen: seq<Candidate>)
    requires k < |sorted| && !Free(chosen, sorted[k]) && Blocked(sorted[..k], chosen)
    ensures Blocked(sorted[..k + 1], chosen)
  {
    assert sorted[..k + 1] == sorted[..k] + [sorted[k]];
  }

  /** Appending the next sorted candidate, when it is free, keeps the greedy invariant. */
  lemma ChooseStep(all: seq<Candidate>, sorted: seq<Candidate>, k: nat, chosen: seq<Candidate>)
    requires multiset(sorted) == multiset(all) && SortedBy(sorted, Before) && Positional(all)
    requires k < |sorted| && Free(chosen, sorted[k])
    requires GreedyPrefix(all, chosen) && Blocked(sorted[..k], chosen)
    ensures GreedyPrefix(all, chosen + [sorted[k]]) && Blocked(sorted[..k + 1], chosen + [sorted[k]])
  {
    var s := sorted[k];
    var chosen' := chosen + [s];
    assert s in all by {
      assert s in multiset(all);
    }
    assert forall c :: c in all && Free(chosen, c) && c != s ==> Before(s, c) by {
      forall c | c in all && Free(chosen, c) && c != s ensures Before(s, c) {
        assert c in multiset(sorted);
        var q :| 0 <= q < |sorted| && sorted[q] == c;
        assert q > k;
        assert !Before(c, s);
        BeforeTotal(s, c);
      }
    }
    assert GreedyPrefix(all, chosen') by {
      assert forall t :: 0 <= t < |chosen| ==> chosen'[..t] == chosen[..t];
      assert chosen'[..|chosen|] == chosen;
    }
    assert Blocked(sorted[..k + 1], chosen') by {
      forall c | c in sorted[..k + 1] ensures !Free(chosen', c) {
        if c != s {
          assert c in sorted[..k];
          var d :| d in chosen && (d.i == c.i || d.j == c.j);
          assert d in chosen';
        } else {
          assert s in chosen';
        }
      }
    }
  }

  /**
   * matchpairs(xs, ys, cmp, least, key=key, index=index): the candidates are scored on
   * `key(x)`, `key(y)` when `key` is given, and reported as positions or as the original items.
   */
  method MatchPairsOf<T>(xs: seq<T>, ys: seq<T>, cmp: (T, T) -> real, least: real, key: Option<T -> T>, index: bool)
    returns (pairs: seq<Matched<T>>, ghost all: seq<Candidate>, ghost chosen: seq<Candidate>)
    ensures forall c :: c in all <==> IsCandidate(Keyed(xs, key), Keyed(ys, key), cmp, least, c)
    ensures Greedy(all, chosen)
    ensures forall c :: c in chosen ==> c.i < |xs| && c.j < |ys|
    ensures pairs == Output(chosen, xs, ys, index)
    // what the returned list itself guarantees
    ensures |pairs| <= |xs| && |pairs| <= |ys|
    ensures forall s :: 0 <= s < |pairs| ==> pairs[s].score >= least
    ensures forall s, t :: 0 <= s < t < |pairs| ==> pairs[s].score >= pairs[t].score
    ensures !index ==> forall s :: 0 <= s < |pairs| ==> pairs[s].ByValue?
    ensures index ==> forall s :: 0 <= s < |pairs| ==>
      && pairs[s].ByIndex? && pairs[s].i < |xs| && pairs[s].j < |ys|
      && pairs[s].score == cmp(Keyed(xs, key)[pairs[s].i], Keyed(ys, key)[pairs[s].j])
    ensures index ==> forall s, t :: 0 <= s < t < |pairs| ==>
      pairs[s].ByIndex? && pairs[t].ByIndex? && pairs[s].i != pairs[t].i && pairs[s].j != pairs[t].j
  {
    var xs', ys' := Keyed(xs, key), Keyed(ys, key);
    var candidates := AllPairs(xs', ys', cmp, least);
    all := candidates;
    var sorted := Sort(candidates, Before);
    SortPermutes(candidates, Before);
    BeforeStrict();
    SortSorts(candidates, Before);
    pairs, chosen := Choose(all, sorted, xs, ys, index);
    GreedyDisjoint(all, chosen);
    GreedyBound(all, chosen, |xs|, |ys|);
  }

  /** `[key(x) for x in xs]` when `key` is given, else `xs` itself. */
  function Keyed<T>(xs: seq<T>, key: Option<T -> T>): (r: seq<T>)
    ensures |r| == |xs|
    ensures forall i :: 0 <= i < |xs| ==> r[i] == if key.Some? then key.value(xs[i]) else xs[i]
  {
    if key.None? then xs else seq(|xs|, i requires 0 <= i < |xs| => key.value(xs[i]))
  }

  // ---------------------------------------------------------------------------------------
  // What the greedy matching guarantees

  /** No two chosen pairs share an `xs` item or a `ys` item. */
  lemma GreedyDisjoint(all: seq<Candidate>, chosen: seq<Candidate>)
    requires Greedy(all, chosen)
    ensures forall s, t :: 0 <= s < t < |chosen| ==> chosen[s].i != chosen[t].i && chosen[s].j != chosen[t].j
  {
    forall s, t | 0 <= s < t < |chosen|
      ensures chosen[s].i != chosen[t].i && chosen[s].j != chosen[t].j
    {
      assert chosen[s] in chosen[..t];
    }
  }

  /** The chosen pairs come out best first: in the sort order of the candidates. */
  lemma GreedyOrdered(all: seq<Candidate>, chosen: seq<Candidate>)
    requires Greedy(all, chosen)
    ensures forall s, t :: 0 <= s < t < |chosen| ==> Before(chosen[s], chosen[t])
  {
    forall s, t | 0 <= s < t < |chosen| ensures Before(chosen[s], chosen[t]) {
      assert chosen[s] in chosen[..t];
      assert chosen[t] in all && Free(chosen[..t], chosen[t]);
      assert Free(chosen[..s], chosen[t]) by {
        forall d | d in chosen[..s] ensures d in chosen[..t] {
          var u :| 0 <= u < s && chosen[..s][u] == d;
          assert chosen[..t][u] == d;
        }
      }
    }
  }

  /** At most `min(len(xs), len(ys))` pairs are returned. */
  lemma GreedyBound(all: seq<Candidate>, chosen: seq<Candidate>, n: nat, m: nat)
    requires Greedy(all, chosen)
    requires forall c :: c in all ==> c.i < n && c.j < m
    ensures |chosen| <= n && |chosen| <= m
  {
    GreedyDisjoint(all, chosen);
    var firsts := seq(|chosen|, t requires 0 <= t < |chosen| => chosen[t].i);
    var seconds := seq(|chosen|, t requires 0 <= t < |chosen| => chosen[t].j);
    DistinctBelow(firsts, n);
    DistinctBelow(seconds, m);
  }

  /** A list of distinct naturals below `n` has at most `n` elements. */
  lemma DistinctBelow(s: seq<nat>, n: nat)
    requires forall a, b :: 0 <= a < b < |s| ==> s[a] != s[b]
    requires forall a :: 0 <= a < |s| ==> s[a] < n
    ensures |s| <= n
  {
    var elems := set a | 0 <= a < |s| :: s[a];
    DistinctElems(s);
    BelowSpec(n);
    SubsetCard(elems, Below(n));
  }

  lemma {:induction false} DistinctElems(s: seq<nat>)
    requires forall a, b :: 0 <= a < b < |s| ==> s[a] != s[b]
    ensures |set a | 0 <= a < |s| :: s[a]| == |s|
  {
    if s != [] {
      var init := s[..|s| - 1];
      DistinctElems(init);
      var e := set a | 0 <= a < |s| :: s[a];
      var e' := set a | 0 <= a < |init| :: init[a];
      assert e == e' + {s[|s| - 1]} by {
        forall a | 0 <= a < |init| ensures init[a] == s[a] {}
      }
      assert s[|s| - 1] !in e';
    }
  }

  /** The naturals below `n`. */
  function Below(n: nat): set<nat> {
    if n == 0 then {} else Below(n - 1) + {n - 1}
  }

  lemma {:induction false} BelowSpec(n: nat)
    ensures |Below(n)| == n && forall v :: v in Below(n) <==> 0 <= v < n
  {
    if n > 0 {
      BelowSpec(n - 1);
      assert n - 1 !in Below(n - 1);
    }
  }

  lemma {:induction false} SubsetCard(a: set<nat>, b: set<nat>)
    requires a <= b
    ensures |a| <= |b|
  {
    if a != {} {
      var x :| x in a;
      SubsetCard(a - {x}, b - {x});
    }
  }

  /** Two greedy matchings that agree up to `t` agree at `t`. */
  lemma GreedyStepUnique(all: seq<Candidate>, c1: seq<Candidate>, c2: seq<Candidate>, t: nat)
    requires Greedy(all, c1) && Greedy(all, c2)
    requires t < |c1| && t < |c2| && c1[..t] == c2[..t]
    ensures c1[t] == c2[t]
  {
    assert Free(c1[..t], c2[t]) && Free(c2[..t], c1[t]);
  }

  lemma {:induction false} GreedyPrefixUnique(all: seq<Candidate>, c1: seq<Candidate>, c2: seq<Candidate>, t: nat)
    requires Greedy(all, c1) && Greedy(all, c2)
    requires t <= |c1| && t <= |c2|
    ensures c1[..t] == c2[..t]
  {
    if t > 0 {
      GreedyPrefixUnique(all, c1, c2, t - 1);
      GreedyStepUnique(all, c1, c2, t - 1);
      assert c1[..t] == c1[..t - 1] + [c1[t - 1]];
      assert c2[..t] == c2[..t - 1] + [c2[t - 1]];
    }
  }

  /** The greedy matching of a candidate list is unique: the specification fixes the result. */
  lemma GreedyUnique(all: seq<Candidate>, c1: seq<Candidate>, c2: seq<Candidate>)
    requires Greedy(all, c1) && Greedy(all, c2)
    ensures c1 == c2
  {
    if |c1| < |c2| {
      GreedyPrefixUnique(all, c1, c2, |c1|);
    } else if |c2| < |c1| {
      GreedyPrefixUnique(all, c1, c2, |c2|);
    } else {
      GreedyPrefixUnique(all, c1, c2, |c1|);
      assert c1 == c1[..|c1|] && c2 == c2[..|c2|];
    }
  }
}
