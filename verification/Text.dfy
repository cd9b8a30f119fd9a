/** The pieces of Go's strings package the modelled code relies on, over sequences
    of characters: splitting and joining, fields, trimming, lower case, comparison
    and path.Base, with the laws by which the rest knows them. */
module Text {

  /** `sub` occurs in `s` at index `i`. */
  predicate OccursAt(s: string, sub: string, i: nat)
  {
    i + |sub| <= |s| && s[i..i + |sub|] == sub
  }

  /** strings.Contains */
  predicate Contains(s: string, sub: string)
  {
    exists i :: 0 <= i <= |s| && OccursAt(s, sub, i)
  }

  /** strings.Index for a single character; |s| stands for "not there". */
  function IndexOf(s: string, c: char): (i: nat)
    ensures i <= |s| && c !in s[..i] && (i < |s| ==> s[i] == c)
  {
    if |s| == 0 || s[0] == c then 0 else 1 + IndexOf(s[1..], c)
  }

  /** strings.Split with a one-character separator: always at least one part. */
  function Split(s: string, sep: char): (parts: seq<string>)
    ensures |parts| > 0
    ensures forall k :: 0 <= k < |parts| ==> sep !in parts[k]
    ensures sep !in s ==> parts == [s]
  {
    if s == "" then [""]
    else
      var rest := Split(s[1..], sep);
      if s[0] == sep then [""] + rest
      else
        assert [s[0]] + s[1..] == s;
        [[s[0]] + rest[0]] + rest[1..]
  }

  /** strings.SplitAfter with a one-character separator: the parts keep it. */
  function SplitAfter(s: string, sep: char): (parts: seq<string>)
    ensures |parts| > 0
  {
    if s == "" then [""]
    else
      var rest := SplitAfter(s[1..], sep);
      if s[0] == sep then [[sep]] + rest else [[s[0]] + rest[0]] + rest[1..]
  }

  /** unicode.IsSpace: the White_Space characters. */
  predicate IsSpace(c: char)
  {
    || '\t' <= c <= '\r'
    || c == ' ' || c == '\U{85}' || c == '\U{A0}' || c == '\U{1680}'
    || '\U{2000}' <= c <= '\U{200A}'
    || c == '\U{2028}' || c == '\U{2029}' || c == '\U{202F}' || c == '\U{205F}' || c == '\U{3000}'
  }

  /** strings.TrimLeftFunc */
  function TrimLeft(s: string, cut: char -> bool): (t: string)
    ensures |t| <= |s|
  {
    if |s| > 0 && cut(s[0]) then TrimLeft(s[1..], cut) else s
  }

  /** strings.TrimRightFunc */
  function TrimRight(s: string, cut: char -> bool): (t: string)
    ensures |t| <= |s|
  {
    if |s| > 0 && cut(s[|s| - 1]) then TrimRight(s[..|s| - 1], cut) else s
  }

  /** strings.TrimFunc: the longest middle with no cut character at either edge. */
  function Trim(s: string, cut: char -> bool): (t: string)
    ensures |t| <= |s|
  {
    TrimRight(TrimLeft(s, cut), cut)
  }

  lemma {:induction false} TrimLeftCuts(s: string, cut: char -> bool)
    ensures var t := TrimLeft(s, cut);
            && t == s[|s| - |t|..] && (t != "" ==> !cut(t[0]))
            && forall i :: 0 <= i < |s| - |t| ==> cut(s[i])
  {
    if |s| > 0 && cut(s[0]) {
      TrimLeftCuts(s[1..], cut);
      var t := TrimLeft(s, cut);
      assert t == s[1..][|s| - 1 - |t|..];
      forall i | 0 <= i < |s| - |t| ensures cut(s[i]) {
        assert i > 0 ==> s[i] == s[1..][i - 1];
      }
    }
  }

  lemma {:induction false} TrimRightCuts(s: string, cut: char -> bool)
    ensures var t := TrimRight(s, cut);
            && t == s[..|t|] && (t != "" ==> !cut(t[|t| - 1]))
            && forall i :: |t| <= i < |s| ==> cut(s[i])
  {
    if |s| > 0 && cut(s[|s| - 1]) {
      TrimRightCuts(s[..|s| - 1], cut);
    }
  }

  lemma TrimCuts(s: string, cut: char -> bool)
    ensures var t := Trim(s, cut);
            && (t != "" ==> !cut(t[0]) && !cut(t[|t| - 1]))
            && (s == "" || (!cut(s[0]) && !cut(s[|s| - 1])) ==> t == s)
  {
    TrimLeftCuts(s, cut);
    TrimRightCuts(TrimLeft(s, cut), cut);
  }

  lemma TrimTwice(s: string, cut: char -> bool)
    ensures Trim(Trim(s, cut), cut) == Trim(s, cut)
  {
    TrimCuts(s, cut);
    TrimCuts(Trim(s, cut), cut);
  }

  lemma TrimIsPart(s: string, cut: char -> bool)
    ensures forall c :: c in Trim(s, cut) ==> c in s
  {
    TrimLeftCuts(s, cut);
    TrimRightCuts(TrimLeft(s, cut), cut);
    assert forall c :: c in Trim(s, cut) ==> c in TrimLeft(s, cut);
  }

  /** strings.TrimSpace */
  function TrimSpace(s: string): string { Trim(s, IsSpace) }

  /** strings.Join */
  function Join(parts: seq<string>, sep: string): string
  {
    if |parts| == 0 then ""
    else if |parts| == 1 then parts[0]
    else parts[0] + sep + Join(parts[1..], sep)
  }

  lemma JoinCons(part: string, rest: seq<string>, sep: string)
    ensures Join([part] + rest, sep) == if |rest| == 0 then part else part + (sep + Join(rest, sep))
  {
    assert ([part] + rest)[1..] == rest;
    if |rest| > 0 {
      assert part + sep + Join(rest, sep) == part + (sep + Join(rest, sep));
    }
  }

  lemma JoinLongerFirst(head: string, parts: seq<string>, sep: string)
    requires |parts| > 0
    ensures Join([head + parts[0]] + parts[1..], sep) == head + Join(parts, sep)
  {
    JoinCons(head + parts[0], parts[1..], sep);
    JoinCons(parts[0], parts[1..], sep);
    assert [parts[0]] + parts[1..] == parts;
    if |parts| > 1 {
      var tail := sep + Join(parts[1..], sep);
      assert (head + parts[0]) + tail == head + (parts[0] + tail);
    }
  }

  lemma Rejoined(a: string, sep: string, b: string, c: string)
    ensures a + (sep + (b + (sep + c))) == (a + (sep + b)) + (sep + c)
  {
  }

  lemma {:induction false} JoinSnoc(parts: seq<string>, last: string, sep: string)
    ensures Join(parts + [last], sep) == if |parts| == 0 then last else Join(parts, sep) + (sep + last)
  {
    if |parts| == 0 {
      assert parts + [last] == [last];
    } else {
      var first, rest := parts[0], parts[1..];
      assert parts == [first] + rest && parts + [last] == [first] + (rest + [last]);
      JoinCons(first, rest + [last], sep);
      JoinCons(first, rest, sep);
      JoinSnoc(rest, last, sep);
      if |rest| > 0 {
        Rejoined(first, sep, Join(rest, sep), last);
      }
    }
  }

  lemma Regrouped(a: string, sep: string, w: string, c: string)
    ensures a + (sep + (w + c)) == (a + (sep + w)) + c
  {
  }

  /** The joined words are longer by the character that the last word is longer by. */
  lemma JoinLonger(words: seq<string>, c: char, sep: string)
    requires |words| > 0
    ensures var n := |words| - 1; Join(words[..n] + [words[n] + [c]], sep) == Join(words, sep) + [c]
  {
    var n := |words| - 1;
    JoinSnoc(words[..n], words[n], sep);
    JoinSnoc(words[..n], words[n] + [c], sep);
    assert words == words[..n] + [words[n]];
    if n > 0 {
      Regrouped(Join(words[..n], sep), sep, words[n], [c]);
    }
  }

  /** Joined words begin as the first and end as the last of them. */
  lemma JoinEdges(words: seq<string>, sep: string)
    requires |words| > 0 && words[0] != "" && words[|words| - 1] != ""
    ensures var j, w := Join(words, sep), words[|words| - 1];
            j != "" && j[0] == words[0][0] && j[|j| - 1] == w[|w| - 1]
  {
    var n := |words| - 1;
    JoinSnoc(words[..n], words[n], sep);
    assert words == words[..n] + [words[n]];
    JoinCons(words[0], words[1..], sep);
    assert words == [words[0]] + words[1..];
  }

  /** Splitting loses nothing: the parts, with the separator between them again, are
      the text. */
  lemma {:induction false} SplitJoins(s: string, sep: char)
    ensures Join(Split(s, sep), [sep]) == s
  {
    if s != "" {
      var rest := Split(s[1..], sep);
      SplitJoins(s[1..], sep);
      if s[0] == sep {
        JoinCons("", rest, [sep]);
        assert s == "" + ([sep] + s[1..]);
      } else {
        JoinLongerFirst([s[0]], rest, [sep]);
        assert s == [s[0]] + s[1..];
      }
    }
  }

  /** What SplitAfter promises of each part: the separator ends every part but the
      last, and is nowhere else. */
  predicate EndsOnly(part: string, sep: char, last: bool)
  {
    if last then sep !in part
    else |part| > 0 && part[|part| - 1] == sep && sep !in part[..|part| - 1]
  }

  lemma EndsOnlyCons(c: char, part: string, sep: char, last: bool)
    requires c != sep && EndsOnly(part, sep, last)
    ensures EndsOnly([c] + part, sep, last)
  {
    assert !last ==> ([c] + part)[..|part|] == [c] + part[..|part| - 1];
  }

  lemma {:induction false} SplitAfterParts(s: string, sep: char, k: nat)
    requires k < |SplitAfter(s, sep)|
    ensures EndsOnly(SplitAfter(s, sep)[k], sep, k == |SplitAfter(s, sep)| - 1)
  {
    if s != "" {
      var rest := SplitAfter(s[1..], sep);
      if s[0] == sep {
        if k > 0 {
          SplitAfterParts(s[1..], sep, k - 1);
        }
      } else {
        SplitAfterParts(s[1..], sep, k);
        if k == 0 {
          EndsOnlyCons(s[0], rest[0], sep, |rest| == 1);
        }
      }
    }
  }

  lemma {:induction false} SplitAfterJoins(s: string, sep: char)
    ensures Join(SplitAfter(s, sep), "") == s
  {
    if s != "" {
      var rest := SplitAfter(s[1..], sep);
      SplitAfterJoins(s[1..], sep);
      assert s == [s[0]] + s[1..];
      if s[0] == sep {
        JoinCons([sep], rest, "");
        assert "" + Join(rest, "") == Join(rest, "");
      } else {
        JoinLongerFirst([s[0]], rest, "");
      }
    }
  }

  /** The parts are the text, cut after every separator and nowhere else. */
  lemma SplitAfterCuts(s: string, sep: char)
    ensures var parts := SplitAfter(s, sep);
            && Join(parts, "") == s
            && (forall k :: 0 <= k < |parts| - 1 ==>
                  |parts[k]| > 0 && parts[k][|parts[k]| - 1] == sep && sep !in parts[k][..|parts[k]| - 1])
            && sep !in parts[|parts| - 1]
  {
    var parts := SplitAfter(s, sep);
    SplitAfterJoins(s, sep);
    forall k | 0 <= k < |parts| ensures EndsOnly(parts[k], sep, k == |parts| - 1) {
      SplitAfterParts(s, sep, k);
    }
  }

  /** The number of leading characters that are not separators. */
  function WordLength(s: string, sep: char -> bool): (n: nat)
    ensures n <= |s|
    ensures forall i :: 0 <= i < n ==> !sep(s[i])
    ensures n < |s| ==> sep(s[n])
  {
    if |s| > 0 && !sep(s[0]) then 1 + WordLength(s[1..], sep) else 0
  }

  /** A nonempty run without separators. */
  predicate IsField(w: string, sep: char -> bool)
  {
    w != "" && forall c :: c in w ==> !sep(c)
  }

  /** strings.FieldsFunc: the maximal runs without separators, in order. */
  function FieldsFunc(s: string, sep: char -> bool): (words: seq<string>)
    ensures forall w :: w in words ==> IsField(w, sep)
    decreases |s|
  {
    if s == "" then []
    else
      var n := WordLength(s, sep);
      if n == 0 then FieldsFunc(s[1..], sep) else [s[..n]] + FieldsFunc(s[n..], sep)
  }

  /** strings.Fields */
  function Fields(s: string): seq<string> { FieldsFunc(s, IsSpace) }

  predicate IsWord(w: string) { IsField(w, IsSpace) }

  lemma {:induction false} WordLengthOfFieldFirst(w: string, rest: string, sep: char -> bool)
    requires forall c :: c in w ==> !sep(c)
    requires rest == "" || sep(rest[0])
    ensures WordLength(w + rest, sep) == |w|
  {
    if w != "" {
      assert (w + rest)[1..] == w[1..] + rest && w[0] in w;
      WordLengthOfFieldFirst(w[1..], rest, sep);
    } else {
      assert w + rest == rest;
    }
  }

  lemma OneWord(s: string, sep: char -> bool)
    requires s != "" && WordLength(s, sep) == |s|
    ensures FieldsFunc(s, sep) == [s]
  {
    assert s[..|s|] == s && s[|s|..] == "";
  }

  lemma WordFirst(s: string, rest: string, sep: char -> bool)
    requires s != "" && WordLength(s + rest, sep) == |s|
    ensures FieldsFunc(s + rest, sep) == [s] + FieldsFunc(rest, sep)
  {
    assert (s + rest)[..|s|] == s && (s + rest)[|s|..] == rest;
  }

  /** Words joined by single spaces are read back as the same words. */
  lemma {:induction false} FieldsOfJoin(words: seq<string>)
    requires forall w :: w in words ==> IsWord(w)
    ensures Fields(Join(words, " ")) == words
  {
    if |words| > 0 {
      assert words[0] in words && IsWord(words[0]);
    }
    if |words| == 1 {
      WordLengthOfFieldFirst(words[0], "", IsSpace);
      assert words[0] + "" == words[0];
      OneWord(words[0], IsSpace);
    } else if |words| > 1 {
      var w, rest := words[0], Join(words[1..], " ");
      assert Join(words, " ") == w + (" " + rest);
      WordLengthOfFieldFirst(w, " " + rest, IsSpace);
      WordFirst(w, " " + rest, IsSpace);
      assert (" " + rest)[1..] == rest;
      FieldsOfJoin(words[1..]);
    }
  }

  lemma {:induction false} WordLengthOfField(s: string, sep: char -> bool, c: char)
    ensures WordLength(s + [c], sep) == if WordLength(s, sep) < |s| || sep(c) then WordLength(s, sep) else |s| + 1
  {
    if |s| > 0 {
      assert (s + [c])[1..] == s[1..] + [c];
      WordLengthOfField(s[1..], sep, c);
    }
  }

  /** What one more character makes of the words: nothing if it separates, and
      otherwise a new word or a longer last one. */
  predicate Grown(words: seq<string>, more: seq<string>, c: char, separates: bool, begins: bool)
  {
    if separates then more == words
    else if begins then more == words + [[c]]
    else |words| > 0 && more == words[..|words| - 1] + [words[|words| - 1] + [c]]
  }

  lemma GrownBehind(w: string, words: seq<string>, more: seq<string>, c: char, separates: bool, begins: bool)
    requires Grown(words, more, c, separates, begins)
    ensures Grown([w] + words, [w] + more, c, separates, begins)
  {
    assert |words| > 0 ==> ([w] + words)[..|words|] == [w] + words[..|words| - 1];
  }

  lemma TakeOfMore<T>(s: seq<T>, x: T, n: nat)
    requires n <= |s|
    ensures (s + [x])[..n] == s[..n] && (s + [x])[n..] == s[n..] + [x]
  {
  }

  /** The fields character by character. */
  lemma {:induction false} FieldsGrow(s: string, c: char, sep: char -> bool)
    ensures Grown(FieldsFunc(s, sep), FieldsFunc(s + [c], sep), c, sep(c), s == "" || sep(s[|s| - 1]))
    decreases |s|
  {
    var n := WordLength(s, sep);
    WordLengthOfField(s, sep, c);
    assert [c][1..] == "" && [c][..1] == [c];
    if s == "" {
      assert s + [c] == [c];
    } else if n < |s| {
      var m := if n == 0 then 1 else n;
      FieldsGrow(s[m..], c, sep);
      FieldsGrowBehind(s, c, sep, m);
    } else {
      FieldsGrowWord(s, c, sep);
    }
  }

  lemma FieldsGrowBehind(s: string, c: char, sep: char -> bool, m: nat)
    requires WordLength(s, sep) < |s| && WordLength(s + [c], sep) == WordLength(s, sep)
    requires m == if WordLength(s, sep) == 0 then 1 else WordLength(s, sep)
    requires Grown(FieldsFunc(s[m..], sep), FieldsFunc(s[m..] + [c], sep), c, sep(c), s[m..] == "" || sep(s[m..][|s[m..]| - 1]))
    ensures Grown(FieldsFunc(s, sep), FieldsFunc(s + [c], sep), c, sep(c), sep(s[|s| - 1]))
  {
    var words, more := FieldsFunc(s[m..], sep), FieldsFunc(s[m..] + [c], sep);
    TakeOfMore(s, c, m);
    assert m < |s| ==> s[m..][|s[m..]| - 1] == s[|s| - 1];
    if WordLength(s, sep) > 0 {
      GrownBehind(s[..m], words, more, c, sep(c), s[m..] == "" || sep(s[m..][|s[m..]| - 1]));
    }
  }

  lemma FieldsGrowWord(s: string, c: char, sep: char -> bool)
    requires s != "" && WordLength(s, sep) == |s|
    ensures FieldsFunc(s, sep) == [s] && !sep(s[|s| - 1])
    ensures FieldsFunc(s + [c], sep) == if sep(c) then [s] else [s + [c]]
  {
    WordLengthOfField(s, sep, c);
    OneWord(s, sep);
    if sep(c) {
      WordFirst(s, [c], sep);
      assert [c][1..] == "";
    } else {
      OneWord(s + [c], sep);
    }
  }

  /** There are no fields in separators alone. */
  lemma {:induction false} NoFields(s: string, sep: char -> bool)
    ensures FieldsFunc(s, sep) == [] <==> forall i :: 0 <= i < |s| ==> sep(s[i])
    decreases |s|
  {
    if s != "" {
      NoFields(s[1..], sep);
      var n := WordLength(s, sep);
      assert sep(s[0]) ==> forall i :: 0 < i < |s| ==> s[i] == s[1..][i - 1];
    }
  }

  /** A run without separators that cannot be made longer. */
  ghost predicate IsRun(s: string, sep: char -> bool, i: int, j: int)
  {
    && 0 <= i < j <= |s| && (forall k :: i <= k < j ==> !sep(s[k]))
    && (i == 0 || sep(s[i - 1])) && (j == |s| || sep(s[j]))
  }

  lemma RunLater(s: string, sep: char -> bool, n: nat, i: int, j: int)
    requires 0 < n <= |s| && (n == |s| || sep(s[n]) || sep(s[n - 1]))
    ensures IsRun(s[n..], sep, i, j) ==> IsRun(s, sep, i + n, j + n) && s[n..][i..j] == s[i + n..j + n]
    ensures i >= n && IsRun(s, sep, i, j) ==> IsRun(s[n..], sep, i - n, j - n) && s[n..][i - n..j - n] == s[i..j]
  {
    if i >= n && IsRun(s, sep, i, j) {
      assert forall k :: i - n <= k < j - n ==> s[n..][k] == s[k + n];
    }
    if IsRun(s[n..], sep, i, j) {
      assert forall k :: i + n <= k < j + n ==> s[k] == s[n..][k - n];
    }
  }

  /** The fields of a text are its runs without separators. */
  lemma {:induction false} FieldsAreRuns(s: string, sep: char -> bool, w: string)
    ensures w in FieldsFunc(s, sep) <==> exists i, j :: IsRun(s, sep, i, j) && w == s[i..j]
    decreases |s|
  {
    if s != "" {
      var n := WordLength(s, sep);
      var m := if n == 0 then 1 else n;
      FieldsAreRuns(s[m..], sep, w);
      assert n > 0 ==> IsRun(s, sep, 0, n);
      if w in FieldsFunc(s[m..], sep) {
        var i, j :| IsRun(s[m..], sep, i, j) && w == s[m..][i..j];
        RunLater(s, sep, m, i, j);
      }
      if i, j :| IsRun(s, sep, i, j) && w == s[i..j] {
        RunIsFirstOrLater(s, sep, i, j);
        if i >= m {
          RunLater(s, sep, m, i, j);
        }
      }
    }
  }

  lemma RunIsFirstOrLater(s: string, sep: char -> bool, i: int, j: int)
    requires IsRun(s, sep, i, j)
    ensures var n := WordLength(s, sep); (i == 0 && j == n > 0) || (i >= 1 && i >= n)
  {
  }

  /** Separators at the edges make no difference. */
  lemma {:induction false} FieldsTrimmed(a: string, s: string, b: string, sep: char -> bool)
    requires (forall i :: 0 <= i < |a| ==> sep(a[i])) && (forall i :: 0 <= i < |b| ==> sep(b[i]))
    ensures FieldsFunc(a + s + b, sep) == FieldsFunc(s, sep)
    decreases |a| + |b|
  {
    if |a| > 0 {
      assert (a + s + b)[1..] == a[1..] + s + b;
      FieldsTrimmed(a[1..], s, b, sep);
    } else if |b| > 0 {
      var b' := b[..|b| - 1];
      assert a + s + b == (a + s + b') + [b[|b| - 1]];
      FieldsGrow(a + s + b', b[|b| - 1], sep);
      FieldsTrimmed(a, s, b', sep);
    } else {
      assert a + s + b == s;
    }
  }

  /** Go's string comparison, a <= b. */
  predicate StrLeq(a: string, b: string)
  {
    if a == "" then true
    else if b == "" then false
    else if a[0] != b[0] then a[0] < b[0]
    else StrLeq(a[1..], b[1..])
  }

  lemma {:induction false} StrLeqTotal(a: string, b: string)
    ensures StrLeq(a, b) || StrLeq(b, a)
    ensures StrLeq(a, b) && StrLeq(b, a) ==> a == b
  {
    if a != "" && b != "" && a[0] == b[0] {
      StrLeqTotal(a[1..], b[1..]);
      assert a == [a[0]] + a[1..] && b == [b[0]] + b[1..];
    }
  }

  lemma {:induction false} StrLeqTransitive(a: string, b: string, c: string)
    requires StrLeq(a, b) && StrLeq(b, c)
    ensures StrLeq(a, c)
  {
    if a != "" && b != "" && c != "" && a[0] == b[0] == c[0] {
      StrLeqTransitive(a[1..], b[1..], c[1..]);
    }
  }

  /** path.Base */
  function Base(p: string): string
  {
    if p == "" then "."
    else
      var q := TrimRight(p, c => c == '/');
      if q == "" then "/"
      else var parts := Split(q, '/'); parts[|parts| - 1]
  }

  /** strings.ToLower, as far as it yields ASCII letters: besides A-Z, the Kelvin
      sign and the dotted capital I have ASCII lower-case forms. */
  function LowerAscii(c: char): char
  {
    if 'A' <= c <= 'Z' then c - 'A' + 'a'
    else if c == '\U{212A}' then 'k'
    else if c == '\U{130}' then 'i'
    else c
  }

  function LowerAll(s: string): string
  {
    seq(|s|, i requires 0 <= i < |s| => LowerAscii(s[i]))
  }

  /** path.Base is what follows the last slash. */
  lemma BaseOfPath(dir: string, name: string)
    requires name != "" && '/' !in name
    ensures Base(name) == name && Base(dir + "/" + name) == name
  {
    var cut := (c: char) => c == '/';
    var p := dir + "/" + name;
    assert p[|p| - 1] == name[|name| - 1] && name[|name| - 1] in name;
    assert TrimRight(p, cut) == p && TrimRight(name, cut) == name;
    SplitAtSlash(dir, name);
  }

  lemma {:induction false} SplitAtSlash(dir: string, name: string)
    requires '/' !in name
    ensures var parts := Split(dir + "/" + name, '/'); parts[|parts| - 1] == name && |parts| > 1
  {
    if dir == "" {
      assert ("" + "/" + name)[1..] == name;
    } else {
      assert (dir + "/" + name)[1..] == dir[1..] + "/" + name;
      SplitAtSlash(dir[1..], name);
    }
  }

  /** The same letter, in whatever case, or the same character. */
  predicate SameLetter(a: char, b: char)
  {
    a == b || ('A' <= a <= 'Z' && b as int == a as int + 32) || ('A' <= b <= 'Z' && a as int == b as int + 32)
  }

  /** Lower case forgets the case of letters and nothing else of ASCII text. */
  lemma LowerForgetsCase(s: string, t: string)
    requires |s| == |t| && forall i :: 0 <= i < |s| ==> s[i] < '\U{80}' && t[i] < '\U{80}'
    ensures LowerAll(s) == LowerAll(t) <==> forall i :: 0 <= i < |s| ==> SameLetter(s[i], t[i])
  {
    if LowerAll(s) == LowerAll(t) {
      forall i | 0 <= i < |s| ensures SameLetter(s[i], t[i]) {
        assert LowerAll(s)[i] == LowerAll(t)[i];
      }
    }
  }
}
