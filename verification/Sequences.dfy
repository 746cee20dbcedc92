/** Small facts about sequences and finite sets that the other modules share. */
module Sequences {

  datatype Option<+T> = None | Some(value: T)

  /** The last n elements of s, or all of s when it is shorter. */
  function LastN<T>(s: seq<T>, n: nat): seq<T> {
    if |s| <= n then s else s[|s| - n..]
  }

  /** Appending to a bounded window and appending to the whole log leave the same window. */
  lemma LastNAppend<T>(s: seq<T>, x: T, n: nat)
    ensures LastN(LastN(s, n) + [x], n) == LastN(s + [x], n)
  {
  }

  lemma ImageSize<T>(s: set<nat>, f: nat -> T)
    ensures |set x | x in s :: f(x)| <= |s|
  {
    if |s| > 0 {
      var x :| x in s;
      var rest := s - {x};
      ImageSize(rest, f);
      var image := set y | y in s :: f(y);
      var restImage := set y | y in rest :: f(y);
      assert image == restImage + {f(x)};
    }
  }

  /** A set is no larger than one it is mapped into without two elements meeting. */
  lemma {:induction false} InjectionSize<S, T>(s: set<S>, f: S -> T, t: set<T>)
    requires forall x :: x in s ==> f(x) in t
    requires forall x, y :: x in s && y in s && f(x) == f(y) ==> x == y
    ensures |s| <= |t|
  {
    if |s| == 0 {
    } else {
      var x := Pick(s);
      InjectionSize(s - {x}, f, t - {f(x)});
    }
  }

  lemma MulStep(n: nat, k: nat)
    ensures (n + 1) * k == n * k + k
  {
  }

  lemma Pick<T>(s: set<T>) returns (x: T)
    requires |s| > 0
    ensures x in s
  {
    x :| x in s;
  }

  /** Two sets that differ at most in r. */
  lemma DifferAt<T>(a: set<T>, b: set<T>, r: T)
    requires a - {r} == b - {r}
    ensures |b| == |a| - (if r in a then 1 else 0) + (if r in b then 1 else 0)
  {
    var others := a - {r};
    assert a == if r in a then others + {r} else others;
    assert b == if r in b then others + {r} else others;
  }

  /** A set of positions at least `gap` apart inside [lo, hi) is small. */
  lemma {:induction false} SpacedSetSize(s: set<nat>, lo: nat, hi: nat, gap: nat)
    requires gap >= 1 && lo <= hi
    requires forall p :: p in s ==> lo <= p < hi
    requires forall p, q :: p in s && q in s && p < q ==> p + gap <= q
    ensures |s| * gap <= hi - lo + gap - 1
    decreases hi - lo
  {
    if s == {} {
    } else if hi - 1 in s {
      var rest := s - {hi - 1};
      forall p | p in rest
        ensures lo <= p < hi - gap
      {
        assert p + gap <= hi - 1;
      }
      assert |s| == |rest| + 1;
      MulStep(|rest|, gap);
      assert |s| * gap == |rest| * gap + gap;
      if hi - gap < lo {
        assert rest == {};
        assert |rest| * gap == 0;
      } else {
        SpacedSetSize(rest, lo, hi - gap, gap);
        assert |rest| * gap <= hi - gap - lo + gap - 1;
      }
    } else {
      SpacedSetSize(s, lo, hi - 1, gap);
    }
  }

  function Flatten<T>(ss: seq<seq<T>>): seq<T> {
    if ss == [] then [] else Flatten(ss[..|ss| - 1]) + ss[|ss| - 1]
  }

  lemma FlattenAppend<T>(ss: seq<seq<T>>, s: seq<T>)
    ensures Flatten(ss + [s]) == Flatten(ss) + s
  {
  }

  /** a occurs inside b in order, not necessarily contiguously. */
  ghost predicate InOrder<T>(a: seq<T>, b: seq<T>) {
    exists at: seq<nat> :: Embeds(at, a, b)
  }

  ghost predicate Embeds<T>(at: seq<nat>, a: seq<T>, b: seq<T>) {
    && |at| == |a|
    && (forall i :: 0 <= i < |at| ==> at[i] < |b| && a[i] == b[at[i]])
    && (forall i, j :: 0 <= i < j < |at| ==> at[i] < at[j])
  }

  lemma InOrderSnoc<T>(a: seq<T>, b: seq<T>, x: T)
    requires InOrder(a, b)
    ensures InOrder(a + [x], b + [x])
  {
    var at: seq<nat> :| Embeds(at, a, b);
    assert Embeds(at + [|b|], a + [x], b + [x]);
  }

  lemma InOrderSkip<T>(a: seq<T>, b: seq<T>, x: T)
    requires InOrder(a, b)
    ensures InOrder(a, b + [x])
  {
    var at: seq<nat> :| Embeds(at, a, b);
    assert Embeds(at, a, b + [x]);
  }
}
