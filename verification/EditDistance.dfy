/** levenshtein (internal/voice/voice.go). */
module EditDistance {
  // The two-row table computes the least number of single-character edits, and that
  // number is a metric.

  function Min3(a: int, b: int, c: int): int
  {
    var m := if b < a then b else a;
    if c < m then c else m
  }

  function Cost(x: char, y: char): nat { if x == y then 0 else 1 }

  function Init(s: string): string
    requires |s| > 0
  {
    s[..|s| - 1]
  }

  function Last(s: string): char
    requires |s| > 0
  {
    s[|s| - 1]
  }

  /** The recurrence behind the table, over the last characters. */
  function Dist(a: string, b: string): nat
    decreases |a| + |b|
  {
    if |a| == 0 then |b|
    else if |b| == 0 then |a|
    else Min3(Dist(Init(a), b) + 1, Dist(a, Init(b)) + 1, Dist(Init(a), Init(b)) + Cost(Last(a), Last(b)))
  }

  // ---------------------------------------------------------------- edits

  ghost predicate Inserts(a: string, b: string)
  {
    exists k, c :: 0 <= k <= |a| && b == a[..k] + [c] + a[k..]
  }

  ghost predicate Substitutes(a: string, b: string)
  {
    exists k, c :: 0 <= k < |a| && b == a[..k] + [c] + a[k + 1..]
  }

  /** One insert, delete or substitution turns `a` into `b`. */
  ghost predicate OneEdit(a: string, b: string)
  {
    Inserts(a, b) || Inserts(b, a) || Substitutes(a, b)
  }

  /** An edit script: the texts passed through, each one edit from the last. */
  ghost predicate Script(texts: seq<string>, a: string, b: string)
  {
    && |texts| > 0
    && texts[0] == a
    && texts[|texts| - 1] == b
    && forall i :: 0 <= i < |texts| - 1 ==> OneEdit(texts[i], texts[i + 1])
  }

  /** Every text passed through is spelled with characters of the two ends. */
  ghost predicate Spelled(texts: seq<string>, a: string, b: string)
  {
    forall t, c :: t in texts && c in t ==> c in a || c in b
  }

  // ---------------------------------------------------------- metric laws

  lemma {:induction false} DistZeroIffEqual(a: string, b: string)
    ensures Dist(a, b) == 0 <==> a == b
    decreases |a| + |b|
  {
    if |a| > 0 && |b| > 0 {
      DistZeroIffEqual(Init(a), Init(b));
      assert a == Init(a) + [Last(a)] && b == Init(b) + [Last(b)];
    }
  }

  lemma {:induction false} DistSymmetric(a: string, b: string)
    ensures Dist(a, b) == Dist(b, a)
    decreases |a| + |b|
  {
    if |a| > 0 && |b| > 0 {
      DistSymmetric(Init(a), b);
      DistSymmetric(a, Init(b));
      DistSymmetric(Init(a), Init(b));
    }
  }

  lemma {:induction false} DistAtLeastLengthDifference(a: string, b: string)
    ensures Dist(a, b) >= |a| - |b| && Dist(a, b) >= |b| - |a|
    decreases |a| + |b|
  {
    if |a| > 0 && |b| > 0 {
      DistAtLeastLengthDifference(Init(a), b);
      DistAtLeastLengthDifference(a, Init(b));
      DistAtLeastLengthDifference(Init(a), Init(b));
    }
  }

  lemma {:induction false} DistAtMostLengths(a: string, b: string)
    ensures Dist(a, b) <= |a| + |b|
    decreases |a| + |b|
  {
    if |a| > 0 && |b| > 0 {
      DistAtMostLengths(Init(a), b);
    }
  }

  /** Going through `b` is never shorter. */
  lemma {:induction false} DistTriangle(a: string, b: string, c: string)
    ensures Dist(a, c) <= Dist(a, b) + Dist(b, c)
    decreases |a| + |b| + |c|
  {
    DistAtLeastLengthDifference(a, b);
    DistAtLeastLengthDifference(b, c);
    DistAtMostLengths(a, c);
    if |a| > 0 && |b| > 0 && |c| > 0 {
      DistTriangle(Init(a), b, c);
      DistTriangle(a, b, Init(c));
      DistTriangle(a, Init(b), c);
      DistTriangle(a, Init(b), Init(c));
      DistTriangle(Init(a), Init(b), c);
      DistTriangle(Init(a), Init(b), Init(c));
    }
  }

  // ------------------------------------------- least number of edits

  lemma CommonLast(a: string, b: string, x: char)
    ensures Dist(a + [x], b + [x]) <= Dist(a, b)
  {
    assert Init(a + [x]) == a && Init(b + [x]) == b;
  }

  lemma ConcatLast(a: string, s: string)
    requires |s| > 0
    ensures a + s == (a + Init(s)) + [Last(s)]
  {
  }

  lemma {:induction false} CommonSuffix(a: string, b: string, s: string)
    ensures Dist(a + s, b + s) <= Dist(a, b)
    decreases |s|
  {
    if |s| == 0 {
      assert a + s == a && b + s == b;
    } else {
      CommonSuffix(a, b, Init(s));
      CommonLast(a + Init(s), b + Init(s), Last(s));
      ConcatLast(a, s);
      ConcatLast(b, s);
    }
  }

  lemma OneEditDist(a: string, b: string)
    requires OneEdit(a, b)
    ensures Dist(a, b) <= 1
  {
    if Inserts(a, b) {
      InsertDist(a, b);
    } else if Inserts(b, a) {
      InsertDist(b, a);
      DistSymmetric(a, b);
    } else {
      var k, c :| 0 <= k < |a| && b == a[..k] + [c] + a[k + 1..];
      SubstituteDist(a, k, c);
    }
  }

  lemma SplitAt(a: string, k: nat)
    requires k < |a|
    ensures a == (a[..k] + [a[k]]) + a[k + 1..]
  {
  }

  lemma SubstituteDist(a: string, k: nat, c: char)
    requires k < |a|
    ensures Dist(a, a[..k] + [c] + a[k + 1..]) <= 1
  {
    var p, s := a[..k], a[k + 1..];
    SplitAt(a, k);
    CommonSuffix(p + [a[k]], p + [c], s);
    SubstituteLastDist(p, a[k], c);
  }

  lemma SubstituteLastDist(p: string, x: char, y: char)
    ensures Dist(p + [x], p + [y]) <= 1
  {
    DistZeroIffEqual(p, p);
    assert Init(p + [x]) == p && Init(p + [y]) == p;
  }

  lemma InsertDist(a: string, b: string)
    requires Inserts(a, b)
    ensures Dist(a, b) <= 1
  {
    var k, c :| 0 <= k <= |a| && b == a[..k] + [c] + a[k..];
    var p, s := a[..k], a[k..];
    assert a == p + s && b == (p + [c]) + s;
    CommonSuffix(p, p + [c], s);
    DistZeroIffEqual(p, p);
    assert Init(p + [c]) == p;
  }

  lemma {:induction false} ScriptAtLeastDist(texts: seq<string>, a: string, b: string)
    requires Script(texts, a, b)
    ensures |texts| - 1 >= Dist(a, b)
    decreases |texts|
  {
    if |texts| == 1 {
      DistZeroIffEqual(a, b);
    } else {
      ScriptAtLeastDist(texts[1..], texts[1], b);
      OneEditDist(texts[0], texts[1]);
      DistTriangle(a, texts[1], b);
    }
  }

  lemma EditBeforeSuffix(a: string, b: string, x: char)
    requires OneEdit(a, b)
    ensures OneEdit(a + [x], b + [x])
  {
    if Inserts(a, b) {
      InsertBeforeSuffix(a, b, x);
    } else if Inserts(b, a) {
      InsertBeforeSuffix(b, a, x);
    } else {
      var k, c :| 0 <= k < |a| && b == a[..k] + [c] + a[k + 1..];
      assert (a + [x])[..k] == a[..k] && (a + [x])[k + 1..] == a[k + 1..] + [x];
      assert b + [x] == (a + [x])[..k] + [c] + (a + [x])[k + 1..];
    }
  }

  lemma InsertBeforeSuffix(a: string, b: string, x: char)
    requires Inserts(a, b)
    ensures Inserts(a + [x], b + [x])
  {
    var k, c :| 0 <= k <= |a| && b == a[..k] + [c] + a[k..];
    assert (a + [x])[..k] == a[..k] && (a + [x])[k..] == a[k..] + [x];
    assert b + [x] == (a + [x])[..k] + [c] + (a + [x])[k..];
  }

  lemma DeleteLast(a: string)
    requires |a| > 0
    ensures Inserts(Init(a), a)
  {
    assert a == Init(a)[..|a| - 1] + [Last(a)] + Init(a)[|a| - 1..];
  }

  lemma SubstituteLast(a: string, y: char)
    requires |a| > 0
    ensures OneEdit(a, Init(a) + [y])
  {
    assert Init(a) + [y] == a[..|a| - 1] + [y] + a[|a|..];
  }

  lemma ScriptAfterEdit(texts: seq<string>, a: string, mid: string, b: string)
    requires OneEdit(a, mid) && Script(texts, mid, b)
    ensures Script([a] + texts, a, b)
  {
  }

  lemma ScriptBeforeEdit(texts: seq<string>, a: string, mid: string, b: string)
    requires Script(texts, a, mid) && OneEdit(mid, b)
    ensures Script(texts + [b], a, b)
  {
  }

  lemma ScriptBeforeSuffix(inner: seq<string>, a: string, b: string, x: char) returns (texts: seq<string>)
    requires Script(inner, a, b)
    ensures Script(texts, a + [x], b + [x]) && |texts| == |inner|
    ensures forall i :: 0 <= i < |texts| ==> texts[i] == inner[i] + [x]
  {
    texts := seq(|inner|, i requires 0 <= i < |inner| => inner[i] + [x]);
    forall i | 0 <= i < |texts| - 1 ensures OneEdit(texts[i], texts[i + 1]) {
      EditBeforeSuffix(inner[i], inner[i + 1], x);
    }
  }

  /** Reads a shortest script off the recurrence. */
  lemma {:induction false} ShortestScript(a: string, b: string) returns (texts: seq<string>)
    ensures Script(texts, a, b) && |texts| == Dist(a, b) + 1 && Spelled(texts, a, b)
    decreases |a| + |b|
  {
    if a == b {
      DistZeroIffEqual(a, b);
      texts := [a];
    } else if |b| == 0 || (|a| > 0 && Dist(a, b) == Dist(Init(a), b) + 1) {
      texts := ShortestScript(Init(a), b);
      DeleteLast(a);
      ScriptAfterEdit(texts, a, Init(a), b);
      texts := [a] + texts;
    } else if |a| == 0 || Dist(a, b) == Dist(a, Init(b)) + 1 {
      texts := ShortestScript(a, Init(b));
      DeleteLast(b);
      ScriptBeforeEdit(texts, a, Init(b), b);
      texts := texts + [b];
    } else {
      texts := ShortestDiagonal(a, b);
    }
  }

  lemma LastSubstituted(b: string, x: char)
    requires |b| > 0
    ensures OneEdit(Init(b) + [x], b)
  {
    var other := Init(b) + [x];
    SubstituteLast(other, Last(b));
    assert Init(other) == Init(b) && Init(b) + [Last(b)] == b;
  }

  lemma {:induction false} ShortestDiagonal(a: string, b: string) returns (texts: seq<string>)
    requires |a| > 0 && |b| > 0 && Dist(a, b) == Dist(Init(a), Init(b)) + Cost(Last(a), Last(b))
    ensures Script(texts, a, b) && |texts| == Dist(a, b) + 1 && Spelled(texts, a, b)
    decreases |a| + |b|, 0
  {
    var x, y := Last(a), Last(b);
    var inner := ShortestScript(Init(a), Init(b));
    texts := ScriptBeforeSuffix(inner, Init(a), Init(b), x);
    assert Init(a) + [x] == a && Init(b) + [y] == b;
    if x != y {
      LastSubstituted(b, x);
      ScriptBeforeEdit(texts, a, Init(b) + [x], b);
      texts := texts + [b];
    }
  }

  /** Dist is exactly the length of the shortest edit script. */
  lemma DistIsLeastEdits(a: string, b: string)
    ensures exists texts :: Script(texts, a, b) && |texts| - 1 == Dist(a, b)
    ensures forall texts :: Script(texts, a, b) ==> |texts| - 1 >= Dist(a, b)
  {
    var texts := ShortestScript(a, b);
    forall other | Script(other, a, b) ensures |other| - 1 >= Dist(a, b) {
      ScriptAtLeastDist(other, a, b);
    }
  }

  // ------------------------------------------------------------ the table

  /** The first cells of a row hold the distances from a[..i] to the prefixes of b. */
  ghost predicate Row(row: seq<nat>, a: string, i: nat, b: string)
  {
    i <= |a| && |row| <= |b| + 1 && forall j :: 0 <= j < |row| ==> row[j] == Dist(a[..i], b[..j])
  }

  lemma FirstRow(row: seq<nat>, a: string, b: string)
    requires |row| <= |b| + 1 && forall j :: 0 <= j < |row| ==> row[j] == j
    ensures Row(row, a, 0, b)
  {
  }

  lemma NextCell(prev: seq<nat>, cur: seq<nat>, a: string, i: nat, b: string, cell: nat)
    requires 0 < i <= |a| && 0 < |cur| < |prev|
    requires Row(prev, a, i - 1, b) && Row(cur, a, i, b)
    requires var j := |cur|;
             cell == Min3(prev[j] + 1, cur[j - 1] + 1, prev[j - 1] + Cost(a[i - 1], b[j - 1]))
    ensures Row(cur + [cell], a, i, b)
  {
    var j := |cur|;
    assert Init(a[..i]) == a[..i - 1] && Init(b[..j]) == b[..j - 1];
  }

  /** The inner loop of levenshtein: one row from the one above it. */
  method FillRow(a: string, b: string, i: nat, prev: array<nat>) returns (cur: array<nat>)
    requires 0 < i <= |a| && prev.Length == |b| + 1 && Row(prev[..], a, i - 1, b)
    ensures fresh(cur) && cur.Length == |b| + 1 && Row(cur[..], a, i, b)
  {
    var n := |b| + 1;
    cur := new nat[n](j => 0);
    cur[0] := i;
    for j := 1 to n
      modifies cur
      invariant Row(cur[..j], a, i, b)
    {
      var cost := 1;
      if a[i - 1] == b[j - 1] {
        cost := 0;
      }
      var cell := Min3(prev[j] + 1, cur[j - 1] + 1, prev[j - 1] + cost);
      NextCell(prev[..], cur[..j], a, i, b, cell);
      cur[j] := cell;
      assert cur[..j + 1] == cur[..j] + [cell];
    }
    assert cur[..n] == cur[..];
  }

  /** levenshtein: two rows, filled left to right, top to bottom. */
  method Levenshtein(a: string, b: string) returns (d: nat)
    ensures d == Dist(a, b)
  {
    var n := |b| + 1;
    var prev := new nat[n](j => j);
    FirstRow(prev[..], a, b);
    for i := 1 to |a| + 1
      invariant prev.Length == n && Row(prev[..], a, i - 1, b)
    {
      prev := FillRow(a, b, i, prev);
    }
    assert a[..|a|] == a && b[..|b|] == b;
    d := prev[n - 1];
  }
}
