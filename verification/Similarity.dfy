/** tokenize and jaccard (internal/memory). */
module Similarity {
  // Shared words over all words, as an exact rational; the source rounds it to float64.

  import opened Text

  predicate NotAlnum(c: char) { !('a' <= c <= 'z' || '0' <= c <= '9') }

  /** The distinct words of three letters or more. */
  function Tokens(s: string): set<string>
  {
    set w | w in FieldsFunc(LowerAll(s), NotAlnum) && |w| >= 3
  }

  lemma SameRun(t: string, p: char -> bool, q: char -> bool, i: int, j: int)
    requires forall c :: p(c) == q(c)
    ensures IsRun(t, p, i, j) <==> IsRun(t, q, i, j)
  {
  }

  /** The tokens of a text are the runs of three or more letters and digits in it, none
      of which can be made longer, in lower case. */
  lemma TokenIff(s: string, w: string)
    ensures w in Tokens(s) <==>
            var t := LowerAll(s);
            |w| >= 3 && exists i, j :: IsRun(t, (c: char) => !('a' <= c <= 'z' || '0' <= c <= '9'), i, j) && w == t[i..j]
  {
    var t, sep := LowerAll(s), (c: char) => !('a' <= c <= 'z' || '0' <= c <= '9');
    FieldsAreRuns(t, NotAlnum, w);
    forall i, j ensures IsRun(t, NotAlnum, i, j) <==> IsRun(t, sep, i, j) {
      SameRun(t, NotAlnum, sep, i, j);
    }
  }

  /** Shared words over all words. */
  function Jaccard(a: string, b: string): real
  {
    var shared, all := Tokens(a) * Tokens(b), Tokens(a) + Tokens(b);
    if all == {} then 0.0 else |shared| as real / |all| as real
  }

  lemma JaccardSymmetric(a: string, b: string)
    ensures Jaccard(a, b) == Jaccard(b, a)
  {
    assert Tokens(a) * Tokens(b) == Tokens(b) * Tokens(a);
    assert Tokens(a) + Tokens(b) == Tokens(b) + Tokens(a);
  }

  lemma SubsetSize<T>(a: set<T>, b: set<T>)
    requires a <= b
    ensures |a| <= |b| && (|a| == |b| ==> a == b)
  {
    assert b == a + (b - a) && |b| == |a| + |b - a|;
  }

  /** A similarity lies between 0 and 1; it is 1 exactly for bodies with the same
      words, and 0 exactly for bodies with none in common. */
  lemma JaccardRange(a: string, b: string)
    ensures 0.0 <= Jaccard(a, b) <= 1.0
    ensures Jaccard(a, b) == 1.0 <==> Tokens(a) == Tokens(b) != {}
    ensures Jaccard(a, b) == 0.0 <==> Tokens(a) * Tokens(b) == {}
  {
    var shared, all := Tokens(a) * Tokens(b), Tokens(a) + Tokens(b);
    SubsetSize(shared, all);
    assert all == {} ==> Tokens(a) == {} && shared == {};
    assert shared == all <==> Tokens(a) == Tokens(b);
    if all != {} {
      Quotient(|shared|, |all|);
    }
  }

  lemma Quotient(p: nat, q: nat)
    requires p <= q && q > 0
    ensures 0.0 <= p as real / q as real <= 1.0
    ensures p as real / q as real == 1.0 <==> p == q
    ensures p as real / q as real == 0.0 <==> p == 0
  {
    var r := p as real / q as real;
    assert r * q as real == p as real;
  }

  method Tokenize(s: string) returns (out: set<string>)
    ensures out == Tokens(s)
  {
    out := {};
    var words := FieldsFunc(LowerAll(s), NotAlnum);
    for i := 0 to |words|
      invariant out == set w | w in words[..i] && |w| >= 3
    {
      if |words[i]| >= 3 {
        out := out + {words[i]};
      }
      assert words[..i + 1] == words[..i] + [words[i]];
    }
    assert words[..|words|] == words;
  }

  /** jaccard: counts the shared tokens and divides by inclusion-exclusion. */
  method ComputeJaccard(a: string, b: string) returns (sim: real)
    ensures sim == Jaccard(a, b)
  {
    var ta := Tokenize(a);
    var tb := Tokenize(b);
    if |ta| == 0 && |tb| == 0 {
      return 0.0;
    }
    var inter := CountShared(ta, tb);
    var union := |ta| + |tb| - inter;
    assert |ta + tb| == union;
    if union == 0 {
      return 0.0;
    }
    sim := inter as real / union as real;
  }

  method CountShared(ta: set<string>, tb: set<string>) returns (inter: nat)
    ensures inter == |ta * tb|
  {
    inter := 0;
    var rest := ta;
    ghost var seen := {};
    while rest != {}
      invariant seen !! rest && seen + rest == ta && inter == |seen * tb|
      decreases rest
    {
      var w :| w in rest;
      if w in tb {
        inter := inter + 1;
        assert (seen + {w}) * tb == seen * tb + {w};
      } else {
        assert (seen + {w}) * tb == seen * tb;
      }
      rest, seen := rest - {w}, seen + {w};
    }
    assert seen == ta;
  }
}
