/** Laws and folds of sequences that several modules use: slices and sums, elements
    picked by a predicate and what stands for them, pieces put together, and the
    permutations of a list with what is attached to its elements. */
module Sequences {
  lemma Reassociate<T>(a: seq<T>, b: seq<T>, c: seq<T>)
    ensures (a + b) + c == a + (b + c)
  {
  }

  lemma NothingAdded<T>(s: seq<T>)
    ensures [] + s == s && s + [] == s
  {
  }

  lemma Whole<T>(s: seq<T>)
    ensures s[..|s|] == s
  {
  }

  lemma SliceOfRest<T>(s: seq<T>, i: nat, j: nat)
    requires i <= j < |s|
    ensures s[1..][i..j] == s[i + 1..j + 1]
  {
  }

  lemma DropOfRest<T>(s: seq<T>, i: nat)
    requires i < |s|
    ensures s[1..][i..] == s[i + 1..]
  {
  }

  function MapAll<T, U>(s: seq<T>, f: T -> U): (r: seq<U>)
    ensures |r| == |s| && forall i :: 0 <= i < |s| ==> r[i] == f(s[i])
  {
    if |s| == 0 then [] else MapAll(s[..|s| - 1], f) + [f(s[|s| - 1])]
  }

  function FoldAll<S, T>(start: S, s: seq<T>, f: (S, T) -> S): S
  {
    if |s| == 0 then start else f(FoldAll(start, s[..|s| - 1], f), s[|s| - 1])
  }

  lemma FoldMore<S, T>(start: S, s: seq<T>, x: T, f: (S, T) -> S)
    ensures FoldAll(start, s + [x], f) == f(FoldAll(start, s, f), x)
  {
    assert (s + [x])[..|s|] == s;
  }

  lemma FoldUpTo<S, T>(start: S, s: seq<T>, i: nat, f: (S, T) -> S)
    requires i < |s|
    ensures FoldAll(start, s[..i + 1], f) == f(FoldAll(start, s[..i], f), s[i])
  {
    assert s[..i + 1][..i] == s[..i];
  }

  /** Mapping and then folding, one element at a time. */
  lemma MapFoldMore<R, S, T>(start: S, s: seq<R>, i: nat, g: R -> T, f: (S, T) -> S)
    requires i < |s|
    ensures FoldAll(start, MapAll(s[..i + 1], g), f) == f(FoldAll(start, MapAll(s[..i], g), f), g(s[i]))
  {
    assert s[..i + 1][..i] == s[..i];
    FoldMore(start, MapAll(s[..i], g), g(s[i]), f);
  }

  lemma MapFour<T, U>(a: T, b: T, c: T, d: T, f: T -> U)
    ensures MapAll([a, b, c, d], f) == [f(a), f(b), f(c), f(d)]
  {
  }

  lemma FoldFour<S, T>(start: S, a: T, b: T, c: T, d: T, f: (S, T) -> S)
    ensures FoldAll(start, [a, b, c, d], f) == f(f(f(f(start, a), b), c), d)
  {
    FoldMore(start, [], a, f);
    FoldMore(start, [a], b, f);
    FoldMore(start, [a, b], c, f);
    FoldMore(start, [a, b, c], d, f);
    assert [] + [a] == [a] && [a] + [b] == [a, b] && [a, b] + [c] == [a, b, c] && [a, b, c] + [d] == [a, b, c, d];
  }

  /** What the last element to set something sets is what a fold ends with, */
  lemma {:induction false} LastSays<S(!new), T(!new), V>(
    start: S, s: seq<T>, f: (S, T) -> S, get: S -> V, sets: T -> bool, value: T -> V, k: nat)
    requires forall a, x :: get(f(a, x)) == if sets(x) then value(x) else get(a)
    requires k < |s|
    ensures sets(s[k]) && (forall j :: k < j < |s| ==> !sets(s[j])) ==> get(FoldAll(start, s, f)) == value(s[k])
  {
    var n := |s| - 1;
    if k < n {
      LastSays(start, s[..n], f, get, sets, value, k);
    }
  }

  /** and if none does, it ends with what it began with. */
  lemma {:induction false} NoneSays<S(!new), T(!new), V>(
    start: S, s: seq<T>, f: (S, T) -> S, get: S -> V, sets: T -> bool)
    requires forall a, x :: !sets(x) ==> get(f(a, x)) == get(a)
    ensures (forall x :: x in s ==> !sets(x)) ==> get(FoldAll(start, s, f)) == get(start)
  {
    if |s| > 0 && forall x :: x in s ==> !sets(x) {
      var n := |s| - 1;
      NoneSays(start, s[..n], f, get, sets);
      assert s[n] in s;
    }
  }

  lemma SameMembers<T>(a: seq<T>, b: seq<T>, x: T)
    requires multiset(a) == multiset(b)
    ensures x in a <==> x in b
  {
    assert x in a <==> x in multiset(a);
  }

  lemma WithoutOne<T>(s: seq<T>, j: nat)
    requires j < |s|
    ensures multiset(s[..j] + s[j + 1..]) == multiset(s) - multiset{s[j]}
  {
    assert s == s[..j] + [s[j]] + s[j + 1..];
  }

  /** The last element of a list, found in another order of it. */
  lemma TakeOut<T>(a: seq<T>, b: seq<T>) returns (j: nat)
    requires multiset(a) == multiset(b) && |a| > 0
    ensures j < |b| && b[j] == a[|a| - 1]
    ensures multiset(a[..|a| - 1]) == multiset(b[..j] + b[j + 1..])
  {
    var n := |a| - 1;
    SameMembers(a, b, a[n]);
    j :| 0 <= j < |b| && b[j] == a[n];
    WithoutOne(a, n);
    WithoutOne(b, j);
    assert a[..n] + a[n + 1..] == a[..n];
  }

  ghost predicate Pairwise<T>(s: seq<T>, r: (T, T) -> bool)
  {
    forall i, j :: 0 <= i < j < |s| ==> r(s[i], s[j])
  }

  /** What holds of any two elements, whichever comes first, holds in any order. */
  lemma {:induction false} PairwisePermuted<T(!new)>(a: seq<T>, b: seq<T>, r: (T, T) -> bool)
    requires multiset(a) == multiset(b) && Pairwise(a, r) && forall x, y :: r(x, y) ==> r(y, x)
    ensures Pairwise(b, r)
    decreases |b|
  {
    assert |multiset(a)| == |a| && |multiset(b)| == |b|;
    if |b| > 0 {
      var j := TakeOut(b, a);
      var n, fewer := |b| - 1, a[..j] + a[j + 1..];
      assert forall k :: 0 <= k < |fewer| ==> fewer[k] == a[if k < j then k else k + 1];
      PairwisePermuted(fewer, b[..n], r);
      forall i | 0 <= i < n ensures r(b[i], b[n]) {
        assert b[..n][i] in multiset(fewer);
        var k :| 0 <= k < |fewer| && fewer[k] == b[i];
      }
      forall i, k | 0 <= i < k < |b| ensures r(b[i], b[k]) {
        assert k < n ==> r(b[..n][i], b[..n][k]);
      }
    }
  }

  /** What every step keeps, a run of steps keeps. */
  lemma {:induction false} Persists<T>(states: seq<T>, i: nat, j: nat, p: T -> bool)
    requires i <= j < |states| && p(states[i])
    requires forall k :: i <= k < j && p(states[k]) ==> p(states[k + 1])
    ensures p(states[j])
    decreases j
  {
    if i < j {
      Persists(states, i, j - 1, p);
      assert p(states[j - 1 + 1]);
    }
  }

  /** One after the other. */
  function Concat<T>(parts: seq<seq<T>>): seq<T>
  {
    if |parts| == 0 then [] else parts[0] + Concat(parts[1..])
  }

  lemma {:induction false} ConcatSum<T>(a: seq<seq<T>>, b: seq<seq<T>>)
    ensures Concat(a + b) == Concat(a) + Concat(b)
  {
    if |a| == 0 {
      assert a + b == b;
    } else {
      assert (a + b)[1..] == a[1..] + b;
      ConcatSum(a[1..], b);
      Reassociate(a[0], Concat(a[1..]), Concat(b));
    }
  }

  lemma ConcatAround<T>(parts: seq<seq<T>>, k: nat)
    requires k < |parts|
    ensures Concat(parts) == Concat(parts[..k]) + (parts[k] + Concat(parts[k + 1..]))
  {
    assert parts == parts[..k] + parts[k..] && parts[k..][1..] == parts[k + 1..];
    ConcatSum(parts[..k], parts[k..]);
  }

  lemma ConcatMore<T>(parts: seq<seq<T>>, part: seq<T>)
    ensures Concat(parts + [part]) == Concat(parts) + part
  {
    ConcatSum(parts, [part]);
    assert part + [] == part;
  }

  /** What the elements bring, one after the other, behind `start`. */
  ghost predicate Gathered<T, E(!new)>(start: seq<E>, s: seq<T>, brings: T -> seq<E>, whole: seq<E>)
  {
    exists pieces: seq<seq<E>> ::
      && |pieces| == |s| && (forall i :: 0 <= i < |s| ==> pieces[i] == brings(s[i]))
      && whole == start + Concat(pieces)
  }

  lemma GatheredNone<T, E(!new)>(start: seq<E>, brings: T -> seq<E>)
    ensures Gathered(start, [], brings, start)
  {
    var none: seq<seq<E>> := [];
    NothingAdded(start);
    assert Concat(none) == [];
  }

  lemma GatheredFirst<T, E(!new)>(start: seq<E>, s: seq<T>, brings: T -> seq<E>, whole: seq<E>)
    requires |s| > 0 && Gathered(start + brings(s[0]), s[1..], brings, whole)
    ensures Gathered(start, s, brings, whole)
  {
    var first, rest := brings(s[0]), s[1..];
    var pieces: seq<seq<E>> :|
      && |pieces| == |rest| && (forall i :: 0 <= i < |rest| ==> pieces[i] == brings(rest[i]))
      && whole == start + first + Concat(pieces);
    var all := [first] + pieces;
    assert all[1..] == pieces;
    Reassociate(start, first, Concat(pieces));
  }

  lemma GatheredMore<T, E(!new)>(start: seq<E>, s: seq<T>, brings: T -> seq<E>, whole: seq<E>, x: T)
    requires Gathered(start, s, brings, whole)
    ensures Gathered(start, s + [x], brings, whole + brings(x))
  {
    var pieces: seq<seq<E>> :|
      && |pieces| == |s| && (forall i :: 0 <= i < |s| ==> pieces[i] == brings(s[i]))
      && whole == start + Concat(pieces);
    var all := pieces + [brings(x)];
    ConcatMore(pieces, brings(x));
    Reassociate(start, Concat(pieces), brings(x));
    assert forall i :: 0 <= i < |s + [x]| ==> all[i] == brings((s + [x])[i]);
  }

  /** Where the elements stand that `p` picks: all of them, in order. */
  ghost predicate Positions<T>(s: seq<T>, p: T -> bool, at: seq<nat>)
  {
    && (forall i, j :: 0 <= i < j < |at| ==> at[i] < at[j])
    && (forall k :: 0 <= k < |at| ==> at[k] < |s| && p(s[at[k]]))
    && (forall i: nat :: i < |s| && p(s[i]) ==> i in at)
  }

  lemma PositionsMore<T>(s: seq<T>, p: T -> bool, at: seq<nat>, x: T)
    requires Positions(s, p, at)
    ensures Positions(s + [x], p, if p(x) then at + [|s|] else at)
  {
    var more := if p(x) then at + [|s|] else at;
    forall i: nat | i < |s + [x]| && p((s + [x])[i]) ensures i in more {
      if i < |s| {
        assert p(s[i]) && i in at;
      } else {
        assert more[|at|] == i;
      }
    }
  }

  ghost predicate Fit<T, U>(s: seq<T>, at: seq<nat>, items: seq<U>, fits: (nat, T, U) -> bool)
  {
    |items| == |at| && forall k :: 0 <= k < |at| ==> at[k] < |s| && fits(k, s[at[k]], items[k])
  }

  lemma FitMore<T, U>(s: seq<T>, at: seq<nat>, items: seq<U>, fits: (nat, T, U) -> bool, x: T, item: U)
    requires Fit(s, at, items, fits)
    ensures Fit(s + [x], at, items, fits)
    ensures fits(|at|, x, item) ==> Fit(s + [x], at + [|s|], items + [item], fits)
  {
    var all, at1, items1 := s + [x], at + [|s|], items + [item];
    forall k | 0 <= k < |at| ensures at[k] < |all| && fits(k, all[at[k]], items[k]) {
      assert all[at[k]] == s[at[k]];
    }
    if fits(|at|, x, item) {
      forall k | 0 <= k < |at1| ensures at1[k] < |all| && fits(k, all[at1[k]], items1[k]) {
        if k < |at| {
          assert at1[k] == at[k] && items1[k] == items[k];
        }
      }
    }
  }

  /** One item for each element that `p` picks, in order, which fits it. */
  ghost predicate Picked<T, U>(s: seq<T>, p: T -> bool, at: seq<nat>, items: seq<U>, fits: (nat, T, U) -> bool)
  {
    Positions(s, p, at) && Fit(s, at, items, fits)
  }

  lemma PickedMore<T, U>(s: seq<T>, p: T -> bool, at: seq<nat>, items: seq<U>, fits: (nat, T, U) -> bool, x: T, item: U)
    requires Picked(s, p, at, items, fits) && (p(x) ==> fits(|at|, x, item))
    ensures if p(x) then Picked(s + [x], p, at + [|s|], items + [item], fits) else Picked(s + [x], p, at, items, fits)
  {
    PositionsMore(s, p, at, x);
    FitMore(s, at, items, fits, x, item);
  }

  function Zip<A, B>(a: seq<A>, b: seq<B>): (z: seq<(A, B)>)
    requires |a| == |b|
    ensures |z| == |a| && forall i :: 0 <= i < |a| ==> z[i] == (a[i], b[i])
  {
    seq(|a|, i requires 0 <= i < |a| => (a[i], b[i]))
  }

  lemma ZipWithoutOne<A, B>(a: seq<A>, b: seq<B>, j: nat)
    requires |a| == |b| && j < |a|
    ensures multiset(Zip(a, b)) == multiset(Zip(a[..j] + a[j + 1..], b[..j] + b[j + 1..])) + multiset{(a[j], b[j])}
  {
    var z := Zip(a, b);
    WithoutOne(z, j);
    assert z[..j] + z[j + 1..] == Zip(a[..j] + a[j + 1..], b[..j] + b[j + 1..]);
    assert z[j] in z;
  }

  lemma TagsPutBack<A, B>(a: seq<A>, tags: seq<B>, b: seq<A>, j: nat, rest: seq<B>, moved: seq<B>)
    requires |a| == |tags| > 0 && j < |b| && b[j] == a[|a| - 1] && |rest| == |b| - 1
    requires multiset(Zip(b[..j] + b[j + 1..], rest)) == multiset(Zip(a[..|a| - 1], tags[..|a| - 1]))
    requires moved == rest[..j] + [tags[|a| - 1]] + rest[j..]
    ensures multiset(Zip(b, moved)) == multiset(Zip(a, tags))
  {
    var n := |a| - 1;
    ZipWithoutOne(b, moved, j);
    ZipWithoutOne(a, tags, n);
    assert moved[..j] + moved[j + 1..] == rest;
    assert a[..n] + a[n + 1..] == a[..n] && tags[..n] + tags[n + 1..] == tags[..n];
  }

  /** Tags put on the elements of a list go with them into any other order. */
  lemma {:induction false} Retagged<A, B>(a: seq<A>, tags: seq<B>, b: seq<A>) returns (moved: seq<B>)
    requires |a| == |tags| && multiset(a) == multiset(b)
    ensures |moved| == |b| && multiset(Zip(b, moved)) == multiset(Zip(a, tags))
    decreases |a|
  {
    assert |multiset(a)| == |a| && |multiset(b)| == |b|;
    if |a| == 0 {
      moved := [];
    } else {
      var j := TakeOut(a, b);
      var n := |a| - 1;
      var rest := Retagged(a[..n], tags[..n], b[..j] + b[j + 1..]);
      moved := rest[..j] + [tags[n]] + rest[j..];
      TagsPutBack(a, tags, b, j, rest, moved);
    }
  }
}
