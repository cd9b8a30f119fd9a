/** Applying a rename's text edits (applyEdits in internal/lsp/manager.go). */
module RenameEdits {
  import opened Text
  import opened Sequences
  import opened Sorting

  // Splicing backwards in place equals substituting all edits at once.  Text is
  // single-byte, so that a position's character counts bytes as in the source;
  // the LSP itself counts UTF-16 code units.

  datatype Position = Position(line: int, character: int)
  datatype Range = Range(start: Position, end: Position)
  datatype TextEdit = TextEdit(range: Range, newText: string)

  predicate PosLeq(p: Position, q: Position)
  {
    if p.line != q.line then p.line < q.line else p.character <= q.character
  }

  /** The sort order: later starts first. */
  predicate StartsLater(e: TextEdit, f: TextEdit) { PosLeq(f.range.start, e.range.start) }

  lemma StartsLaterIsTotalPreorder()
    ensures TotalPreorder(StartsLater)
  {
  }

  // -------------------------------------------------------------- offsets

  /** The length of the first `k` lines, of all of them when there are fewer. */
  function LineStart(lines: seq<string>, k: int): nat
    decreases k
  {
    if k <= 0 then 0
    else if k > |lines| then LineStart(lines, |lines|)
    else LineStart(lines, k - 1) + |lines[k - 1]|
  }

  function Offset(lines: seq<string>, p: Position): int { LineStart(lines, p.line) + p.character }

  /** The `offset` closure of applyEdits. */
  method ComputeOffset(lines: seq<string>, p: Position) returns (o: int)
    ensures o == Offset(lines, p)
  {
    o := 0;
    var i := 0;
    while i < p.line && i < |lines|
      invariant 0 <= i <= |lines| && (i == 0 || i <= p.line)
      invariant o == LineStart(lines, i)
    {
      o := o + |lines[i]|;
      i := i + 1;
    }
    o := o + p.character;
  }

  // ------------------------------------------------------ backward splicing

  /** One turn of the loop, its guard included. */
  function SpliceOne(s: string, start: int, end: int, text: string): string
  {
    if start < 0 || end > |s| || start > end then s else s[..start] + text + s[end..]
  }

  /** An edit resolved to offsets of the original text. */
  datatype Patch = Patch(start: int, end: int, text: string)

  function Resolve(lines: seq<string>, e: TextEdit): Patch
  {
    Patch(Offset(lines, e.range.start), Offset(lines, e.range.end), e.newText)
  }

  function Resolved(lines: seq<string>, edits: seq<TextEdit>): (patches: seq<Patch>)
    ensures |patches| == |edits| && forall i :: 0 <= i < |edits| ==> patches[i] == Resolve(lines, edits[i])
  {
    seq(|edits|, i requires 0 <= i < |edits| => Resolve(lines, edits[i]))
  }

  /** The patches applied one after the other, in the order given. */
  function SpliceAll(raw: string, patches: seq<Patch>): string
  {
    if |patches| == 0 then raw
    else
      var p := patches[|patches| - 1];
      SpliceOne(SpliceAll(raw, patches[..|patches| - 1]), p.start, p.end, p.text)
  }

  lemma SpliceOneMore(raw: string, patches: seq<Patch>, i: nat)
    requires i < |patches|
    ensures SpliceAll(raw, patches[..i + 1]) ==
            SpliceOne(SpliceAll(raw, patches[..i]), patches[i].start, patches[i].end, patches[i].text)
  {
    assert patches[..i + 1][..i] == patches[..i];
  }

  /** applyEdits on the contents of the file. */
  method ApplyEdits(raw: string, edits: array<TextEdit>) returns (s: string)
    modifies edits
    ensures multiset(edits[..]) == multiset(old(edits[..])) && Sorted(edits[..], StartsLater)
    ensures s == SpliceAll(raw, Resolved(SplitAfter(raw, '\n'), edits[..]))
  {
    var lines := SplitAfter(raw, '\n');
    StartsLaterIsTotalPreorder();
    SortIsSorted(edits[..], StartsLater);
    var sorted := Sort(edits[..], StartsLater);
    assert |multiset(sorted)| == |sorted| && |multiset(edits[..])| == edits.Length;
    forall i | 0 <= i < edits.Length {
      edits[i] := sorted[i];
    }
    assert edits[..] == sorted;
    s := raw;
    ghost var patches := Resolved(lines, sorted);
    for i := 0 to edits.Length
      invariant edits[..] == sorted
      invariant s == SpliceAll(raw, patches[..i])
    {
      var start := ComputeOffset(lines, edits[i].range.start);
      var end := ComputeOffset(lines, edits[i].range.end);
      SpliceOneMore(raw, patches, i);
      if start < 0 || end > |s| || start > end {
        continue;
      }
      s := s[..start] + edits[i].newText + s[end..];
    }
    assert patches[..edits.Length] == patches;
  }

  // ------------------------------------------------ simultaneous substitution

  /** All at once, from offset `k` on: at each offset the text put in there, then
      the original character if it is kept. */
  function Weave(raw: string, texts: seq<string>, kept: seq<bool>, k: nat): string
    requires |texts| == |raw| + 1 && |kept| == |raw| && k <= |raw|
    decreases |raw| - k
  {
    texts[k] + if k == |raw| then "" else (if kept[k] then [raw[k]] else "") + Weave(raw, texts, kept, k + 1)
  }

  predicate InText(raw: string, p: Patch) { 0 <= p.start <= p.end <= |raw| }

  ghost predicate Covered(patches: seq<Patch>, k: int)
  {
    exists i :: 0 <= i < |patches| && patches[i].start <= k < patches[i].end
  }

  /** Which characters no patch replaces. */
  ghost function Kept(raw: string, patches: seq<Patch>): seq<bool>
  {
    seq(|raw|, k => !Covered(patches, k))
  }

  /** The texts of the patches that start at `k`, in the order of the list. */
  function TextAt(patches: seq<Patch>, k: int): string
  {
    if |patches| == 0 then ""
    else
      var p := patches[|patches| - 1];
      if p.start == k then TextAt(patches[..|patches| - 1], k) + p.text else TextAt(patches[..|patches| - 1], k)
  }

  /** What the patches ask for: the texts at one place in the order of the list, in
      which the protocol has inserts precede a replacement that starts there. */
  ghost function Asked(raw: string, patches: seq<Patch>): string
  {
    Weave(raw, seq(|raw| + 1, k => TextAt(patches, k)), Kept(raw, patches), 0)
  }

  // --------------------------------------------------------- valid edits

  function ContentLength(line: string): nat
  {
    if |line| > 0 && line[|line| - 1] == '\n' then |line| - 1 else |line|
  }

  /** A position within a line of the document, its terminator excluded. */
  predicate InLine(lines: seq<string>, p: Position)
  {
    0 <= p.line < |lines| && 0 <= p.character <= ContentLength(lines[p.line])
  }

  predicate ValidEdit(lines: seq<string>, e: TextEdit)
  {
    InLine(lines, e.range.start) && InLine(lines, e.range.end) && PosLeq(e.range.start, e.range.end)
  }

  /** Neither edit reaches into the other.  They may touch, and inserts may share
      their place with each other and with the start of a replacement. */
  predicate NoOverlap(e: TextEdit, f: TextEdit)
  {
    PosLeq(e.range.end, f.range.start) || PosLeq(f.range.end, e.range.start)
  }

  ghost predicate ValidEdits(lines: seq<string>, edits: seq<TextEdit>)
  {
    && (forall e :: e in edits ==> ValidEdit(lines, e))
    && (forall i, j :: 0 <= i < j < |edits| ==> NoOverlap(edits[i], edits[j]))
  }

  ghost predicate DistinctStarts(edits: seq<TextEdit>)
  {
    forall i, j :: 0 <= i < j < |edits| ==> edits[i].range.start != edits[j].range.start
  }

  /** Every line but the last ends in its own terminator. */
  ghost predicate Terminated(lines: seq<string>)
  {
    forall k :: 0 <= k < |lines| - 1 ==> ContentLength(lines[k]) < |lines[k]|
  }

  lemma {:induction false} LineStartCons(line: string, lines: seq<string>, k: nat)
    requires k <= |lines|
    ensures LineStart([line] + lines, k + 1) == |line| + LineStart(lines, k)
  {
    if k > 0 {
      LineStartCons(line, lines, k - 1);
      assert ([line] + lines)[k] == lines[k - 1];
    }
  }

  /** The lines add up to the text. */
  ghost predicate Document(raw: string, lines: seq<string>)
  {
    Terminated(lines) && LineStart(lines, |lines|) == |raw|
  }

  lemma {:induction false} LinesAreDocument(s: string)
    ensures Document(s, SplitAfter(s, '\n'))
  {
    if s != "" {
      LinesAreDocument(s[1..]);
      OneMoreCharacter(s[0], s[1..], SplitAfter(s[1..], '\n'));
    }
  }

  lemma OneMoreCharacter(c: char, s: string, rest: seq<string>)
    requires Document(s, rest) && |rest| > 0
    ensures c == '\n' ==> Document([c] + s, [[c]] + rest)
    ensures Document([c] + s, [[c] + rest[0]] + rest[1..])
  {
    LineStartCons([c], rest, |rest|);
    LineStartCons([c] + rest[0], rest[1..], |rest| - 1);
    LineStartCons(rest[0], rest[1..], |rest| - 1);
    assert rest == [rest[0]] + rest[1..];
    LongerFirstLine(c, rest);
  }

  lemma LongerFirstLine(c: char, rest: seq<string>)
    requires Terminated(rest) && |rest| > 0
    ensures Terminated([[c] + rest[0]] + rest[1..])
  {
    var lines := [[c] + rest[0]] + rest[1..];
    forall k | 0 <= k < |lines| - 1 ensures ContentLength(lines[k]) < |lines[k]| {
      assert ContentLength(rest[k]) < |rest[k]|;
      assert k > 0 ==> lines[k] == rest[k];
    }
  }

  lemma {:induction false} ConcatIsJoin(parts: seq<string>)
    ensures Concat(parts) == Join(parts, "")
  {
    if |parts| > 0 {
      ConcatIsJoin(parts[1..]);
      assert parts[0] + "" == parts[0];
    }
  }

  lemma {:induction false} LineStartIsLength(lines: seq<string>, k: nat)
    requires k <= |lines|
    ensures LineStart(lines, k) == |Concat(lines[..k])|
  {
    if k > 0 {
      LineStartIsLength(lines, k - 1);
      ConcatAround(lines[..k], k - 1);
      assert lines[..k][..k - 1] == lines[..k - 1];
    }
  }

  lemma MiddleSlice(head: string, mid: string, tail: string)
    ensures (head + (mid + tail))[|head|..|head| + |mid|] == mid
  {
  }

  /** The text around one of its lines. */
  lemma LineInText(lines: seq<string>, k: nat)
    requires k < |lines|
    ensures var raw, i := Concat(lines), LineStart(lines, k);
            i + |lines[k]| <= |raw| && raw[i..i + |lines[k]|] == lines[k]
  {
    LineStartIsLength(lines, k);
    ConcatAround(lines, k);
    MiddleSlice(Concat(lines[..k]), lines[k], Concat(lines[k + 1..]));
  }

  lemma SliceOfSlice(raw: string, i: nat, line: string, c: nat)
    requires i + |line| <= |raw| && raw[i..i + |line|] == line && c <= |line|
    ensures raw[i + c..i + |line|] == line[c..]
  {
    assert raw[i..i + |line|][c..] == raw[i + c..i + |line|];
  }

  lemma OffsetIn(raw: string, lines: seq<string>, p: Position)
    requires raw == Concat(lines) && InLine(lines, p)
    ensures var end := LineStart(lines, p.line) + |lines[p.line]|;
            Offset(lines, p) <= end <= |raw| && raw[Offset(lines, p)..end] == lines[p.line][p.character..]
  {
    LineInText(lines, p.line);
    SliceOfSlice(raw, LineStart(lines, p.line), lines[p.line], p.character);
  }

  /** An offset points at the character of its position: the one so far into the
      line of that number, where lines end after each line break of the text. */
  lemma OffsetPoints(raw: string, p: Position)
    requires InLine(SplitAfter(raw, '\n'), p)
    ensures var lines := SplitAfter(raw, '\n'); var end := LineStart(lines, p.line) + |lines[p.line]|;
            Offset(lines, p) <= end <= |raw| && raw[Offset(lines, p)..end] == lines[p.line][p.character..]
  {
    var lines := SplitAfter(raw, '\n');
    SplitAfterJoins(raw, '\n');
    ConcatIsJoin(lines);
    OffsetIn(raw, lines, p);
  }

  lemma {:induction false} LineEnd(lines: seq<string>, k: nat, m: nat)
    requires k < m <= |lines|
    ensures LineStart(lines, k) + |lines[k]| <= LineStart(lines, m)
    decreases m
  {
    if k < m - 1 {
      LineEnd(lines, k, m - 1);
    }
  }

  /** Positions and offsets are in the same order. */
  lemma OffsetKeepsOrder(raw: string, lines: seq<string>, p: Position, q: Position)
    requires Document(raw, lines) && InLine(lines, p) && InLine(lines, q)
    ensures 0 <= Offset(lines, p) <= |raw|
    ensures PosLeq(p, q) <==> Offset(lines, p) <= Offset(lines, q)
  {
    OffsetStrict(lines, p, q);
    OffsetStrict(lines, q, p);
  }

  lemma OffsetStrict(lines: seq<string>, p: Position, q: Position)
    requires Terminated(lines) && InLine(lines, p) && InLine(lines, q)
    ensures 0 <= Offset(lines, p) <= LineStart(lines, |lines|)
    ensures p.line < q.line ==> Offset(lines, p) < Offset(lines, q)
  {
    LineEnd(lines, p.line, |lines|);
    if p.line < q.line {
      LineEnd(lines, p.line, q.line);
    }
  }

  // ------------------------------------------------------- about weaving

  lemma SliceCons<T>(s: seq<T>, k: nat, m: nat)
    requires k < m <= |s|
    ensures s[k..m] == [s[k]] + s[k + 1..m]
  {
  }

  /** Where nothing is put in and all is kept, the weave is the original text. */
  lemma {:induction false} WeaveGap(raw: string, texts: seq<string>, kept: seq<bool>, k: nat, m: nat)
    requires |texts| == |raw| + 1 && |kept| == |raw| && k <= m <= |raw|
    requires forall i :: k <= i < m ==> texts[i] == "" && kept[i]
    ensures Weave(raw, texts, kept, k) == raw[k..m] + Weave(raw, texts, kept, m)
    decreases m - k
  {
    if k < m {
      WeaveGap(raw, texts, kept, k + 1, m);
      SliceCons(raw, k, m);
    }
  }

  /** Where nothing is put in and nothing is kept, it is nothing. */
  lemma {:induction false} WeaveHole(raw: string, texts: seq<string>, kept: seq<bool>, k: nat, m: nat)
    requires |texts| == |raw| + 1 && |kept| == |raw| && k <= m <= |raw|
    requires forall i :: k <= i < m ==> texts[i] == "" && !kept[i]
    ensures Weave(raw, texts, kept, k) == Weave(raw, texts, kept, m)
    decreases m - k
  {
    if k < m {
      WeaveHole(raw, texts, kept, k + 1, m);
    }
  }

  lemma {:induction false} WeaveSame(raw: string, texts: seq<string>, kept: seq<bool>,
                                     texts': seq<string>, kept': seq<bool>, k: nat)
    requires |texts| == |texts'| == |raw| + 1 && |kept| == |kept'| == |raw| && k <= |raw|
    requires forall i :: k <= i <= |raw| ==> texts[i] == texts'[i]
    requires forall i :: k <= i < |raw| ==> kept[i] == kept'[i]
    ensures Weave(raw, texts, kept, k) == Weave(raw, texts', kept', k)
    decreases |raw| - k
  {
    if k < |raw| {
      WeaveSame(raw, texts, kept, texts', kept', k + 1);
    }
  }

  lemma SplitAtSameLength<T>(a: seq<T>, b: seq<T>, c: seq<T>, d: seq<T>)
    requires |a| == |c|
    ensures a + b == c + d <==> a == c && b == d
  {
    assert (a + b)[..|a|] == a && (a + b)[|a|..] == b;
    assert (c + d)[..|c|] == c && (c + d)[|c|..] == d;
  }

  /** Two weaves of pieces of the same lengths agree iff all pieces do. */
  lemma {:induction false} WeavesAgreeIff(raw: string, texts: seq<string>, texts': seq<string>, kept: seq<bool>, k: nat)
    requires |texts| == |texts'| == |raw| + 1 && |kept| == |raw| && k <= |raw|
    requires forall i :: 0 <= i <= |raw| ==> |texts[i]| == |texts'[i]|
    ensures Weave(raw, texts, kept, k) == Weave(raw, texts', kept, k) <==>
            forall i :: k <= i <= |raw| ==> texts[i] == texts'[i]
    decreases |raw| - k
  {
    if k < |raw| {
      var c := if kept[k] then [raw[k]] else "";
      WeavesAgreeIff(raw, texts, texts', kept, k + 1);
      SplitAtSameLength(texts[k], c + Weave(raw, texts, kept, k + 1), texts'[k], c + Weave(raw, texts', kept, k + 1));
      SplitAtSameLength(c, Weave(raw, texts, kept, k + 1), c, Weave(raw, texts', kept, k + 1));
    } else {
      assert texts[k] + "" == texts[k] && texts'[k] + "" == texts'[k];
    }
  }

  /** Nothing before offset `a` has been touched, nor has anything from there to
      `e`, but for the text put in at `a`. */
  ghost predicate Untouched(texts: seq<string>, kept: seq<bool>, a: nat, e: nat)
    requires a <= e <= |kept| < |texts|
  {
    forall i :: 0 <= i < e ==> kept[i] && (i != a ==> texts[i] == "")
  }

  lemma WeaveKeeps(raw: string, texts: seq<string>, kept: seq<bool>, k: nat)
    requires |texts| == |raw| + 1 && |kept| == |raw| && k < |raw| && kept[k]
    ensures Weave(raw, texts, kept, k) == texts[k] + ([raw[k]] + Weave(raw, texts, kept, k + 1))
  {
  }

  lemma Regroup<T>(b: seq<T>, c: seq<T>, d: seq<T>, e: seq<T>, cd: seq<T>)
    requires cd == c + d
    ensures b + (c + (d + e)) == b + cd + e
  {
  }

  lemma WeaveToPatch(raw: string, texts: seq<string>, kept: seq<bool>, a: nat, e: nat)
    requires |texts| == |raw| + 1 && |kept| == |raw| && a < e <= |raw| && Untouched(texts, kept, a, e)
    ensures Weave(raw, texts, kept, 0) == raw[..a] + (texts[a] + raw[a..e] + Weave(raw, texts, kept, e))
  {
    WeaveGap(raw, texts, kept, 0, a);
    WeaveKeeps(raw, texts, kept, a);
    WeaveGap(raw, texts, kept, a + 1, e);
    SliceCons(raw, a, e);
    Regroup(texts[a], [raw[a]], raw[a + 1..e], Weave(raw, texts, kept, e), raw[a..e]);
  }

  /** Replacing the front of the middle of a text. */
  lemma SpliceBetween(s: string, head: string, mid: string, rest: string, start: nat, end: nat,
                      piece: string, text: string)
    requires s == head + (mid + rest) && start == |head| && start <= end <= start + |mid|
    requires piece == text + mid[end - start..]
    ensures end <= |s| && SpliceOne(s, start, end, text) == head + (piece + rest)
  {
    assert s[..start] == head && s[end..] == mid[end - start..] + rest;
    assert head + text + (mid[end - start..] + rest) == head + (piece + rest);
  }

  /** The weave around a replaced stretch. */
  lemma WovenOver(raw: string, texts: seq<string>, kept: seq<bool>, a: nat, e: nat)
    requires |texts| == |raw| + 1 && |kept| == |raw| && a < e <= |raw|
    requires forall i :: 0 <= i < a ==> texts[i] == "" && kept[i]
    requires forall i :: a <= i < e ==> !kept[i] && (i != a ==> texts[i] == "")
    ensures Weave(raw, texts, kept, 0) == raw[..a] + (texts[a] + Weave(raw, texts, kept, e))
  {
    WeaveGap(raw, texts, kept, 0, a);
    WeaveHole(raw, texts, kept, a + 1, e);
  }

  lemma WovenAfter(raw: string, texts: seq<string>, kept: seq<bool>, texts': seq<string>, kept': seq<bool>,
                   a: nat, e: nat, piece: string)
    requires |texts| == |texts'| == |raw| + 1 && |kept| == |kept'| == |raw| && a < e <= |raw|
    requires Untouched(texts, kept, a, e)
    requires texts'[a] == piece && forall i :: 0 <= i <= |raw| && i != a ==> texts'[i] == texts[i]
    requires forall i :: 0 <= i < |raw| ==> kept'[i] == (kept[i] && !(a <= i < e))
    ensures Weave(raw, texts', kept', 0) == raw[..a] + (piece + Weave(raw, texts, kept, e))
  {
    WovenOver(raw, texts', kept', a, e);
    WeaveSame(raw, texts, kept, texts', kept', e);
  }

  /** A replacement over what is there: it takes the place of so many characters,
      be they of the original or put in before. */
  lemma ReplacementWoven(raw: string, texts: seq<string>, kept: seq<bool>,
                         texts': seq<string>, kept': seq<bool>, p: Patch)
    requires |texts| == |texts'| == |raw| + 1 && |kept| == |kept'| == |raw|
    requires InText(raw, p) && p.start < p.end && Untouched(texts, kept, p.start, p.end)
    requires texts'[p.start] == p.text + (texts[p.start] + raw[p.start..p.end])[p.end - p.start..]
    requires forall i :: 0 <= i <= |raw| && i != p.start ==> texts'[i] == texts[i]
    requires forall i :: 0 <= i < |raw| ==> kept'[i] == (kept[i] && !(p.start <= i < p.end))
    ensures p.end <= |Weave(raw, texts, kept, 0)|
    ensures SpliceOne(Weave(raw, texts, kept, 0), p.start, p.end, p.text) == Weave(raw, texts', kept', 0)
  {
    var a, e, rest := p.start, p.end, Weave(raw, texts, kept, p.end);
    var mid := texts[a] + raw[a..e];
    WeaveToPatch(raw, texts, kept, a, e);
    SpliceBetween(Weave(raw, texts, kept, 0), raw[..a], mid, rest, a, e, texts'[a], p.text);
    WovenAfter(raw, texts, kept, texts', kept', a, e, texts'[a]);
  }

  lemma SpliceAt(s: string, head: string, rest: string, start: nat, text: string)
    requires s == head + rest && start == |head|
    ensures SpliceOne(s, start, start, text) == head + (text + rest)
  {
    assert s[..start] == head && s[start..] == rest;
    Reassociate(head, text, rest);
  }

  lemma WovenBehind(raw: string, texts: seq<string>, kept: seq<bool>,
                    texts': seq<string>, kept': seq<bool>, a: nat, text: string)
    requires |texts| == |texts'| == |raw| + 1 && |kept| == |kept'| == |raw| && a <= |raw|
    requires texts'[a] == text + texts[a] && forall i :: 0 <= i <= |raw| && i != a ==> texts'[i] == texts[i]
    requires forall i :: 0 <= i < |raw| ==> kept'[i] == kept[i]
    ensures Weave(raw, texts', kept', a) == text + Weave(raw, texts, kept, a)
  {
    if a < |raw| {
      var c := if kept[a] then [raw[a]] else "";
      WeaveSame(raw, texts, kept, texts', kept', a + 1);
      Reassociate(text, texts[a], c + Weave(raw, texts, kept, a + 1));
    }
  }

  lemma InsertWoven(raw: string, texts: seq<string>, kept: seq<bool>,
                    texts': seq<string>, kept': seq<bool>, p: Patch)
    requires |texts| == |texts'| == |raw| + 1 && |kept| == |kept'| == |raw|
    requires InText(raw, p) && p.start == p.end && Untouched(texts, kept, p.start, p.end)
    requires texts'[p.start] == p.text + texts[p.start]
    requires forall i :: 0 <= i <= |raw| && i != p.start ==> texts'[i] == texts[i]
    requires forall i :: 0 <= i < |raw| ==> kept'[i] == kept[i]
    ensures p.end <= |Weave(raw, texts, kept, 0)|
    ensures SpliceOne(Weave(raw, texts, kept, 0), p.start, p.end, p.text) == Weave(raw, texts', kept', 0)
  {
    var a := p.start;
    WeaveGap(raw, texts, kept, 0, a);
    WeaveGap(raw, texts', kept', 0, a);
    SpliceAt(Weave(raw, texts, kept, 0), raw[..a], Weave(raw, texts, kept, a), a, p.text);
    WovenBehind(raw, texts, kept, texts', kept', a, p.text);
  }

  // ------------------------------------------------ what is left at an offset

  /** The patches that start at `k`, in the order of the list. */
  function At(patches: seq<Patch>, k: int): seq<Patch>
  {
    if |patches| == 0 then []
    else
      var p := patches[|patches| - 1];
      if p.start == k then At(patches[..|patches| - 1], k) + [p] else At(patches[..|patches| - 1], k)
  }

  /** How far those of them reach. */
  function Reach(patches: seq<Patch>, k: int): int
  {
    if |patches| == 0 then k
    else
      var p, before := patches[|patches| - 1], Reach(patches[..|patches| - 1], k);
      if p.start == k && p.end > before then p.end else before
  }

  /** What patches that start together, applied in this order, make of the text
      after their start. */
  function Piled(patches: seq<Patch>, text: string): string
  {
    if |patches| == 0 then text
    else
      var p, s := patches[|patches| - 1], Piled(patches[..|patches| - 1], text);
      p.text + if 0 <= p.end - p.start <= |s| then s[p.end - p.start..] else ""
  }

  /** What the patches leave at offset `k` when they are applied in this order. */
  function LeftAt(raw: string, patches: seq<Patch>, k: nat): string
  {
    Piled(At(patches, k), if k <= Reach(patches, k) <= |raw| then raw[k..Reach(patches, k)] else "")
  }

  ghost function Left(raw: string, patches: seq<Patch>): seq<string>
  {
    seq(|raw| + 1, k requires 0 <= k => LeftAt(raw, patches, k))
  }

  predicate Disjoint(p: Patch, q: Patch) { p.end <= q.start || q.end <= p.start }

  /** Resolved edits in the order they are applied: later starts first. */
  ghost predicate Ready(raw: string, patches: seq<Patch>)
  {
    && (forall i :: 0 <= i < |patches| ==> InText(raw, patches[i]))
    && (forall i, j :: 0 <= i < j < |patches| ==>
          Disjoint(patches[i], patches[j]) && patches[j].start <= patches[i].start)
  }

  lemma OneMorePatch(patches: seq<Patch>, p: Patch, k: int)
    ensures At(patches + [p], k) == if p.start == k then At(patches, k) + [p] else At(patches, k)
    ensures TextAt(patches + [p], k) == if p.start == k then TextAt(patches, k) + p.text else TextAt(patches, k)
    ensures Reach(patches + [p], k) == if p.start == k && p.end > Reach(patches, k) then p.end else Reach(patches, k)
  {
    assert (patches + [p])[..|patches|] == patches;
  }

  lemma PiledOneMore(patches: seq<Patch>, p: Patch, text: string)
    ensures var s := Piled(patches, text);
            Piled(patches + [p], text) == p.text + if 0 <= p.end - p.start <= |s| then s[p.end - p.start..] else ""
  {
    assert (patches + [p])[..|patches|] == patches;
  }

  lemma {:induction false} NothingAt(patches: seq<Patch>, k: int)
    requires forall i :: 0 <= i < |patches| ==> patches[i].start != k
    ensures At(patches, k) == [] && Reach(patches, k) == k
  {
    if |patches| > 0 {
      NothingAt(patches[..|patches| - 1], k);
    }
  }

  lemma NothingLeftAt(raw: string, patches: seq<Patch>, k: nat)
    requires k <= |raw| && forall i :: 0 <= i < |patches| ==> patches[i].start != k
    ensures LeftAt(raw, patches, k) == ""
  {
    NothingAt(patches, k);
  }

  /** All patches at `k` are inserts. */
  ghost predicate InsertsAt(patches: seq<Patch>, k: int)
  {
    forall i :: 0 <= i < |patches| && patches[i].start == k ==> patches[i].end == k
  }

  lemma InsertOneMore(patches: seq<Patch>, p: Patch, text: string)
    requires p.start == p.end
    ensures Piled(patches + [p], text) == p.text + Piled(patches, text)
  {
    PiledOneMore(patches, p, text);
    var s := Piled(patches, text);
    assert s[0..] == s;
  }

  lemma InsertPiles(patches: seq<Patch>, p: Patch, text: string)
    requires p.start == p.end && Piled(patches, text) == Piled(patches, "") + text
    ensures Piled(patches + [p], text) == Piled(patches + [p], "") + text
  {
    InsertOneMore(patches, p, text);
    InsertOneMore(patches, p, "");
    Reassociate(p.text, Piled(patches, ""), text);
  }

  /** Inserts pile up in front of what is there. */
  lemma {:induction false} InsertsPile(patches: seq<Patch>, k: int, text: string)
    requires InsertsAt(patches, k)
    ensures Reach(patches, k) == k
    ensures Piled(At(patches, k), text) == Piled(At(patches, k), "") + text
  {
    if |patches| == 0 {
      assert "" + text == text;
    } else {
      var before, p := patches[..|patches| - 1], patches[|patches| - 1];
      assert patches == before + [p];
      InsertsPile(before, k, text);
      OneMorePatch(before, p, k);
      if p.start == k {
        InsertPiles(At(before, k), p, text);
      }
    }
  }

  /** What lies before a patch that is next to be applied. */
  lemma AppliedLieBehind(raw: string, patches: seq<Patch>, p: Patch)
    requires Ready(raw, patches + [p])
    ensures Ready(raw, patches) && InText(raw, p)
    ensures Untouched(Left(raw, patches), Kept(raw, patches), p.start, p.end)
    ensures p.start < p.end ==> InsertsAt(patches, p.start)
  {
    var all := patches + [p];
    assert all[|patches|] == p;
    forall i | 0 <= i < |patches|
      ensures InText(raw, patches[i]) && Disjoint(patches[i], p) && p.start <= patches[i].start
    {
      assert all[i] == patches[i];
    }
    forall i, j | 0 <= i < j < |patches|
      ensures Disjoint(patches[i], patches[j]) && patches[j].start <= patches[i].start
    {
      assert all[i] == patches[i] && all[j] == patches[j];
    }
    forall k: nat | k < p.end ensures Kept(raw, patches)[k] && (k != p.start ==> Left(raw, patches)[k] == "") {
      if k != p.start {
        NothingLeftAt(raw, patches, k);
      }
    }
  }

  lemma LeftElsewhere(raw: string, patches: seq<Patch>, p: Patch, k: nat)
    requires k != p.start
    ensures LeftAt(raw, patches + [p], k) == LeftAt(raw, patches, k)
  {
    OneMorePatch(patches, p, k);
  }

  lemma LeftByInsert(raw: string, patches: seq<Patch>, p: Patch)
    requires InText(raw, p) && p.start == p.end
    ensures LeftAt(raw, patches + [p], p.start) == p.text + LeftAt(raw, patches, p.start)
  {
    ReachIsAhead(patches, p.start);
    OneMorePatch(patches, p, p.start);
    var text := if p.start <= Reach(patches, p.start) <= |raw| then raw[p.start..Reach(patches, p.start)] else "";
    InsertOneMore(At(patches, p.start), p, text);
  }

  lemma {:induction false} ReachIsAhead(patches: seq<Patch>, k: int)
    ensures k <= Reach(patches, k)
  {
    if |patches| > 0 {
      ReachIsAhead(patches[..|patches| - 1], k);
    }
  }

  lemma LeftByReplacement(raw: string, patches: seq<Patch>, p: Patch)
    requires InText(raw, p) && p.start < p.end && InsertsAt(patches, p.start)
    ensures LeftAt(raw, patches + [p], p.start) ==
            p.text + (LeftAt(raw, patches, p.start) + raw[p.start..p.end])[p.end - p.start..]
  {
    var k, under := p.start, raw[p.start..p.end];
    InsertsPile(patches, k, under);
    OneMorePatch(patches, p, k);
    PiledOneMore(At(patches, k), p, under);
    assert raw[k..k] == "";
  }

  lemma KeptOneMore(raw: string, patches: seq<Patch>, p: Patch, k: nat)
    requires k < |raw|
    ensures Kept(raw, patches + [p])[k] == (Kept(raw, patches)[k] && !(p.start <= k < p.end))
  {
    var all := patches + [p];
    assert forall i :: 0 <= i < |patches| ==> all[i] == patches[i];
    assert all[|patches|] == p;
    if Covered(patches, k) {
      var i :| 0 <= i < |patches| && patches[i].start <= k < patches[i].end;
      assert all[i].start <= k < all[i].end;
    }
  }

  /** One more patch changes what is left, and kept, from its start to its end only. */
  lemma OneMoreElsewhere(raw: string, patches: seq<Patch>, p: Patch)
    ensures forall k :: 0 <= k <= |raw| && k != p.start ==> Left(raw, patches + [p])[k] == Left(raw, patches)[k]
    ensures forall k :: 0 <= k < |raw| ==>
              Kept(raw, patches + [p])[k] == (Kept(raw, patches)[k] && !(p.start <= k < p.end))
  {
    forall k | 0 <= k <= |raw| && k != p.start ensures Left(raw, patches + [p])[k] == Left(raw, patches)[k] {
      LeftElsewhere(raw, patches, p, k);
    }
    forall k | 0 <= k < |raw|
      ensures Kept(raw, patches + [p])[k] == (Kept(raw, patches)[k] && !(p.start <= k < p.end))
    {
      KeptOneMore(raw, patches, p, k);
    }
  }

  lemma InsertInFront(raw: string, patches: seq<Patch>, p: Patch)
    requires InText(raw, p) && p.start == p.end && Untouched(Left(raw, patches), Kept(raw, patches), p.start, p.end)
    ensures var s := Weave(raw, Left(raw, patches), Kept(raw, patches), 0);
            p.end <= |s| && SpliceOne(s, p.start, p.end, p.text)
                            == Weave(raw, Left(raw, patches + [p]), Kept(raw, patches + [p]), 0)
  {
    OneMoreElsewhere(raw, patches, p);
    LeftByInsert(raw, patches, p);
    InsertWoven(raw, Left(raw, patches), Kept(raw, patches), Left(raw, patches + [p]), Kept(raw, patches + [p]), p);
  }

  lemma ReplacementInFront(raw: string, patches: seq<Patch>, p: Patch)
    requires InText(raw, p) && p.start < p.end && Untouched(Left(raw, patches), Kept(raw, patches), p.start, p.end)
    requires InsertsAt(patches, p.start)
    ensures var s := Weave(raw, Left(raw, patches), Kept(raw, patches), 0);
            p.end <= |s| && SpliceOne(s, p.start, p.end, p.text)
                            == Weave(raw, Left(raw, patches + [p]), Kept(raw, patches + [p]), 0)
  {
    OneMoreElsewhere(raw, patches, p);
    LeftByReplacement(raw, patches, p);
    ReplacementWoven(raw, Left(raw, patches), Kept(raw, patches), Left(raw, patches + [p]), Kept(raw, patches + [p]), p);
  }

  /** Splicing one more patch in front of those already applied adds it to the weave. */
  lemma SpliceInFront(raw: string, patches: seq<Patch>, p: Patch)
    requires Ready(raw, patches + [p])
    ensures var s := Weave(raw, Left(raw, patches), Kept(raw, patches), 0);
            p.end <= |s| && SpliceOne(s, p.start, p.end, p.text)
                            == Weave(raw, Left(raw, patches + [p]), Kept(raw, patches + [p]), 0)
  {
    AppliedLieBehind(raw, patches, p);
    if p.start == p.end {
      InsertInFront(raw, patches, p);
    } else {
      ReplacementInFront(raw, patches, p);
    }
  }

  lemma SpliceLast(raw: string, patches: seq<Patch>, p: Patch)
    ensures SpliceAll(raw, patches + [p]) == SpliceOne(SpliceAll(raw, patches), p.start, p.end, p.text)
  {
    assert (patches + [p])[..|patches|] == patches;
  }

  lemma NothingSpliced(raw: string)
    ensures SpliceAll(raw, []) == Weave(raw, Left(raw, []), Kept(raw, []), 0)
  {
    WeaveGap(raw, Left(raw, []), Kept(raw, []), 0, |raw|);
    assert raw[0..|raw|] + "" == raw;
  }

  /** Backwards in place equals all at once, with what the order of application
      leaves at each offset; and no edit is skipped. */
  lemma {:induction false} BackwardEqualsSimultaneous(raw: string, patches: seq<Patch>)
    requires Ready(raw, patches)
    ensures SpliceAll(raw, patches) == Weave(raw, Left(raw, patches), Kept(raw, patches), 0)
    ensures |patches| > 0 ==>
              var p := patches[|patches| - 1]; 0 <= p.start <= p.end <= |SpliceAll(raw, patches[..|patches| - 1])|
    decreases |patches|
  {
    if |patches| == 0 {
      NothingSpliced(raw);
    } else {
      var before, p := patches[..|patches| - 1], patches[|patches| - 1];
      assert patches == before + [p];
      AppliedLieBehind(raw, before, p);
      BackwardEqualsSimultaneous(raw, before);
      SpliceInFront(raw, before, p);
      SpliceLast(raw, before, p);
    }
  }

  // ---------------------------------------------------- any order of the array

  lemma SortedIsReady(raw: string, lines: seq<string>, sorted: seq<TextEdit>)
    requires Document(raw, lines) && ValidEdits(lines, sorted) && Sorted(sorted, StartsLater)
    ensures Ready(raw, Resolved(lines, sorted))
  {
    var patches := Resolved(lines, sorted);
    forall i | 0 <= i < |patches| ensures InText(raw, patches[i]) {
      assert sorted[i] in sorted;
      OffsetKeepsOrder(raw, lines, sorted[i].range.start, sorted[i].range.end);
      OffsetKeepsOrder(raw, lines, sorted[i].range.end, sorted[i].range.end);
    }
    forall i, j | 0 <= i < j < |patches|
      ensures Disjoint(patches[i], patches[j]) && patches[j].start <= patches[i].start
    {
      var e, f := sorted[i], sorted[j];
      assert e in sorted && f in sorted && NoOverlap(e, f) && StartsLater(e, f);
      OffsetKeepsOrder(raw, lines, e.range.end, f.range.start);
      OffsetKeepsOrder(raw, lines, f.range.end, e.range.start);
      OffsetKeepsOrder(raw, lines, f.range.start, e.range.start);
    }
  }

  lemma ResolvedWithoutOne(lines: seq<string>, edits: seq<TextEdit>, j: nat)
    requires j < |edits|
    ensures multiset(Resolved(lines, edits)) ==
            multiset(Resolved(lines, edits[..j] + edits[j + 1..])) + multiset{Resolve(lines, edits[j])}
  {
    var patches := Resolved(lines, edits);
    WithoutOne(patches, j);
    assert Resolved(lines, edits[..j] + edits[j + 1..]) == patches[..j] + patches[j + 1..];
    assert patches[j] in patches;
  }

  lemma {:induction false} ResolvedPermuted(lines: seq<string>, a: seq<TextEdit>, b: seq<TextEdit>)
    requires multiset(a) == multiset(b)
    ensures multiset(Resolved(lines, a)) == multiset(Resolved(lines, b))
    decreases |a|
  {
    assert |multiset(a)| == |a| && |multiset(b)| == |b|;
    if |a| > 0 {
      var j := TakeOut(a, b);
      var n := |a| - 1;
      ResolvedPermuted(lines, a[..n], b[..j] + b[j + 1..]);
      ResolvedWithoutOne(lines, a, n);
      ResolvedWithoutOne(lines, b, j);
      assert a[..n] + a[n + 1..] == a[..n];
    }
  }

  lemma PermutedValid(lines: seq<string>, edits: seq<TextEdit>, others: seq<TextEdit>)
    requires ValidEdits(lines, edits) && multiset(edits) == multiset(others)
    ensures ValidEdits(lines, others)
  {
    forall e | e in others ensures ValidEdit(lines, e) {
      assert e in multiset(edits);
    }
    assert Pairwise(edits, NoOverlap);
    PairwisePermuted(edits, others, NoOverlap);
  }

  lemma KeptPermuted(raw: string, a: seq<Patch>, b: seq<Patch>)
    requires multiset(a) == multiset(b)
    ensures Kept(raw, a) == Kept(raw, b)
  {
    forall k: nat | k < |raw| ensures Covered(a, k) <==> Covered(b, k) {
      if i :| 0 <= i < |a| && a[i].start <= k < a[i].end {
        SameMembers(a, b, a[i]);
      }
      if i :| 0 <= i < |b| && b[i].start <= k < b[i].end {
        SameMembers(a, b, b[i]);
      }
    }
  }

  lemma {:induction false} TextAtSum(a: seq<Patch>, b: seq<Patch>, k: int)
    ensures TextAt(a + b, k) == TextAt(a, k) + TextAt(b, k)
  {
    if |b| == 0 {
      assert a + b == a;
    } else {
      var c, p := b[..|b| - 1], b[|b| - 1];
      assert a + b == (a + c) + [p] && b == c + [p];
      TextAtSum(a, c, k);
      OneMorePatch(a + c, p, k);
      OneMorePatch(c, p, k);
    }
  }

  lemma {:induction false} TextLengthPermuted(a: seq<Patch>, b: seq<Patch>, k: int)
    requires multiset(a) == multiset(b)
    ensures |TextAt(a, k)| == |TextAt(b, k)|
    decreases |a|
  {
    assert |multiset(a)| == |a| && |multiset(b)| == |b|;
    if |a| > 0 {
      var j := TakeOut(a, b);
      var n := |a| - 1;
      var head, p, tail := b[..j], b[j], b[j + 1..];
      TextLengthPermuted(a[..n], head + tail, k);
      assert a == a[..n] + [p] && b == (head + [p]) + tail;
      OneMorePatch(a[..n], p, k);
      OneMorePatch(head, p, k);
      TextAtSum(head, tail, k);
      TextAtSum(head + [p], tail, k);
    }
  }

  lemma DropSame<T>(a: seq<T>, b: seq<T>, c: seq<T>)
    ensures |a + (b + c)[|c|..]| == |a| + |b|
  {
  }

  lemma LengthByReplacement(raw: string, patches: seq<Patch>, p: Patch)
    requires InText(raw, p) && p.start < p.end && InsertsAt(patches, p.start)
    ensures |LeftAt(raw, patches + [p], p.start)| == |p.text| + |LeftAt(raw, patches, p.start)|
  {
    LeftByReplacement(raw, patches, p);
    assert |raw[p.start..p.end]| == p.end - p.start;
    DropSame(p.text, LeftAt(raw, patches, p.start), raw[p.start..p.end]);
  }

  lemma LengthByInsert(raw: string, patches: seq<Patch>, p: Patch)
    requires InText(raw, p) && p.start == p.end
    ensures |LeftAt(raw, patches + [p], p.start)| == |p.text| + |LeftAt(raw, patches, p.start)|
  {
    LeftByInsert(raw, patches, p);
  }

  lemma TextLengthOneMore(patches: seq<Patch>, p: Patch, k: int)
    ensures |TextAt(patches + [p], k)| == |TextAt(patches, k)| + if p.start == k then |p.text| else 0
  {
    OneMorePatch(patches, p, k);
  }

  lemma LeftLengthStep(raw: string, before: seq<Patch>, p: Patch, k: nat)
    requires InText(raw, p) && (p.start < p.end ==> InsertsAt(before, p.start))
    requires |LeftAt(raw, before, k)| == |TextAt(before, k)|
    ensures |LeftAt(raw, before + [p], k)| == |TextAt(before + [p], k)|
  {
    TextLengthOneMore(before, p, k);
    if p.start != k {
      LeftElsewhere(raw, before, p, k);
    } else if p.start == p.end {
      LengthByInsert(raw, before, p);
    } else {
      LengthByReplacement(raw, before, p);
    }
  }

  /** Whatever the order, as much text is left at an offset as was asked for. */
  lemma {:induction false} LeftLength(raw: string, patches: seq<Patch>, k: nat)
    requires Ready(raw, patches) && k <= |raw|
    ensures |LeftAt(raw, patches, k)| == |TextAt(patches, k)|
    decreases |patches|
  {
    if |patches| == 0 {
      NothingLeftAt(raw, patches, k);
    } else {
      var before, p := patches[..|patches| - 1], patches[|patches| - 1];
      assert patches == before + [p];
      AppliedLieBehind(raw, before, p);
      LeftLength(raw, before, k);
      LeftLengthStep(raw, before, p, k);
    }
  }

  lemma ComparePieces(raw: string, asked: seq<Patch>, applied: seq<Patch>)
    requires multiset(asked) == multiset(applied) && Ready(raw, applied) && Kept(raw, asked) == Kept(raw, applied)
    ensures Weave(raw, Left(raw, applied), Kept(raw, applied), 0) == Asked(raw, asked) <==>
            forall k :: 0 <= k <= |raw| ==> LeftAt(raw, applied, k) == TextAt(asked, k)
  {
    var left, texts := Left(raw, applied), seq(|raw| + 1, k => TextAt(asked, k));
    forall k: nat | k <= |raw| ensures |left[k]| == |texts[k]| {
      LeftLength(raw, applied, k);
      TextLengthPermuted(asked, applied, k);
    }
    WeavesAgreeIff(raw, left, texts, Kept(raw, asked), 0);
    assert forall k :: 0 <= k <= |raw| ==> left[k] == LeftAt(raw, applied, k) && texts[k] == TextAt(asked, k);
  }

  /** The result meets the protocol. */
  ghost predicate MeetsProtocol(raw: string, asked: seq<Patch>, applied: seq<Patch>)
  {
    SpliceAll(raw, applied) == Asked(raw, asked)
  }

  /** At every offset the order of application leaves the texts asked for there. */
  ghost predicate LeavesAsked(raw: string, asked: seq<Patch>, applied: seq<Patch>)
  {
    forall k :: 0 <= k <= |raw| ==> LeftAt(raw, applied, k) == TextAt(asked, k)
  }

  lemma ResolvedIsReady(raw: string, lines: seq<string>, edits: seq<TextEdit>, sorted: seq<TextEdit>)
    requires Document(raw, lines) && ValidEdits(lines, edits)
    requires multiset(edits) == multiset(sorted) && Sorted(sorted, StartsLater)
    ensures Ready(raw, Resolved(lines, sorted))
    ensures multiset(Resolved(lines, edits)) == multiset(Resolved(lines, sorted))
  {
    PermutedValid(lines, edits, sorted);
    SortedIsReady(raw, lines, sorted);
    ResolvedPermuted(lines, edits, sorted);
  }

  lemma ReadyMeetsIff(raw: string, asked: seq<Patch>, applied: seq<Patch>)
    requires Ready(raw, applied) && multiset(asked) == multiset(applied)
    ensures MeetsProtocol(raw, asked, applied) <==> LeavesAsked(raw, asked, applied)
  {
    BackwardEqualsSimultaneous(raw, applied);
    KeptPermuted(raw, asked, applied);
    ComparePieces(raw, asked, applied);
  }

  /** The main result, about what applyEdits returns, whatever the order of the array
      handed in and however it was sorted: the result is what the protocol asks for
      iff at every offset the order of application leaves the texts asked for there. */
  lemma MeetsProtocolIff(raw: string, edits: seq<TextEdit>, sorted: seq<TextEdit>)
    requires ValidEdits(SplitAfter(raw, '\n'), edits)
    requires multiset(edits) == multiset(sorted) && Sorted(sorted, StartsLater)
    ensures var asked, applied := Resolved(SplitAfter(raw, '\n'), edits), Resolved(SplitAfter(raw, '\n'), sorted);
            MeetsProtocol(raw, asked, applied) <==> LeavesAsked(raw, asked, applied)
  {
    var lines := SplitAfter(raw, '\n');
    LinesAreDocument(raw);
    ResolvedIsReady(raw, lines, edits, sorted);
    ReadyMeetsIff(raw, Resolved(lines, edits), Resolved(lines, sorted));
  }

  /** Where only inserts share a place their texts come out in reverse. */
  function ReversedAt(patches: seq<Patch>, k: int): string
  {
    if |patches| == 0 then ""
    else
      var p, before := patches[|patches| - 1], ReversedAt(patches[..|patches| - 1], k);
      if p.start == k then p.text + before else before
  }

  lemma {:induction false} InsertsComeOutReversed(raw: string, patches: seq<Patch>, k: nat)
    requires k <= |raw| && InsertsAt(patches, k)
    ensures LeftAt(raw, patches, k) == ReversedAt(patches, k)
    decreases |patches|
  {
    if |patches| == 0 {
      NothingLeftAt(raw, patches, k);
    } else {
      var before, p := patches[..|patches| - 1], patches[|patches| - 1];
      assert patches == before + [p];
      InsertsComeOutReversed(raw, before, k);
      if p.start == k {
        LeftByInsert(raw, before, p);
      } else {
        LeftElsewhere(raw, before, p, k);
      }
    }
  }

  // ----------------------------------------------------- no two at one place

  predicate StartsDiffer(p: Patch, q: Patch) { p.start != q.start }

  ghost predicate Separate(patches: seq<Patch>) { Pairwise(patches, StartsDiffer) }

  lemma {:induction false} TextOfNone(patches: seq<Patch>, k: int)
    requires forall i :: 0 <= i < |patches| ==> patches[i].start != k
    ensures TextAt(patches, k) == ""
  {
    if |patches| > 0 {
      TextOfNone(patches[..|patches| - 1], k);
    }
  }

  lemma {:induction false} TextOfOnly(patches: seq<Patch>, i: nat)
    requires i < |patches| && Separate(patches)
    ensures TextAt(patches, patches[i].start) == patches[i].text
  {
    var n := |patches| - 1;
    if i < n {
      TextOfOnly(patches[..n], i);
    } else {
      TextOfNone(patches[..n], patches[i].start);
    }
  }

  lemma TextAtPermuted(a: seq<Patch>, b: seq<Patch>, k: int)
    requires multiset(a) == multiset(b) && Separate(a) && Separate(b)
    ensures TextAt(a, k) == TextAt(b, k)
  {
    if i :| 0 <= i < |a| && a[i].start == k {
      SameMembers(a, b, a[i]);
      var j :| 0 <= j < |b| && b[j] == a[i];
      TextOfOnly(a, i);
      TextOfOnly(b, j);
    } else {
      forall j | 0 <= j < |b| ensures b[j].start != k {
        SameMembers(a, b, b[j]);
      }
      TextOfNone(a, k);
      TextOfNone(b, k);
    }
  }

  lemma OneLeftStep(raw: string, before: seq<Patch>, p: Patch)
    requires InText(raw, p) && forall i :: 0 <= i < |before| ==> before[i].start != p.start
    ensures LeftAt(raw, before + [p], p.start) == TextAt(before + [p], p.start)
  {
    OneMorePatch(before, p, p.start);
    NothingLeftAt(raw, before, p.start);
    TextOfNone(before, p.start);
    if p.start == p.end {
      LeftByInsert(raw, before, p);
    } else {
      LeftByReplacement(raw, before, p);
    }
  }

  lemma {:induction false} OneLeft(raw: string, patches: seq<Patch>, k: nat)
    requires (forall i :: 0 <= i < |patches| ==> InText(raw, patches[i])) && Separate(patches) && k <= |raw|
    ensures LeftAt(raw, patches, k) == TextAt(patches, k)
    decreases |patches|
  {
    if |patches| == 0 {
      NothingLeftAt(raw, patches, k);
    } else {
      var before, p := patches[..|patches| - 1], patches[|patches| - 1];
      assert patches == before + [p];
      if p.start != k {
        OneLeft(raw, before, k);
        OneMorePatch(before, p, k);
        LeftElsewhere(raw, before, p, k);
      } else {
        assert forall i :: 0 <= i < |before| ==> StartsDiffer(before[i], p);
        OneLeftStep(raw, before, p);
      }
    }
  }

  lemma SeparateStarts(raw: string, lines: seq<string>, edits: seq<TextEdit>)
    requires Document(raw, lines) && ValidEdits(lines, edits) && DistinctStarts(edits)
    ensures Separate(Resolved(lines, edits))
  {
    var patches := Resolved(lines, edits);
    forall i, j | 0 <= i < j < |patches| ensures StartsDiffer(patches[i], patches[j]) {
      assert edits[i] in edits && edits[j] in edits;
      OffsetKeepsOrder(raw, lines, edits[i].range.start, edits[j].range.start);
      OffsetKeepsOrder(raw, lines, edits[j].range.start, edits[i].range.start);
    }
  }

  lemma SeparateLeavesAsked(raw: string, asked: seq<Patch>, applied: seq<Patch>)
    requires Ready(raw, applied) && multiset(asked) == multiset(applied) && Separate(asked)
    ensures LeavesAsked(raw, asked, applied)
  {
    PairwisePermuted(asked, applied, StartsDiffer);
    forall k: nat | k <= |raw| ensures LeftAt(raw, applied, k) == TextAt(asked, k) {
      OneLeft(raw, applied, k);
      TextAtPermuted(asked, applied, k);
    }
  }

  /** With no two edits at one place the order never matters: the result is the
      simultaneous substitution asked for. */
  lemma OrderDoesNotMatter(raw: string, edits: seq<TextEdit>, sorted: seq<TextEdit>)
    requires ValidEdits(SplitAfter(raw, '\n'), edits) && DistinctStarts(edits)
    requires multiset(edits) == multiset(sorted) && Sorted(sorted, StartsLater)
    ensures var lines := SplitAfter(raw, '\n');
            MeetsProtocol(raw, Resolved(lines, edits), Resolved(lines, sorted))
  {
    var lines := SplitAfter(raw, '\n');
    LinesAreDocument(raw);
    ResolvedIsReady(raw, lines, edits, sorted);
    SeparateStarts(raw, lines, edits);
    ReadyMeetsIff(raw, Resolved(lines, edits), Resolved(lines, sorted));
    SeparateLeavesAsked(raw, Resolved(lines, edits), Resolved(lines, sorted));
  }

  // ------------------------------------------------- two inserts at one place

  lemma SpliceTwo(raw: string, p: Patch, q: Patch)
    ensures SpliceAll(raw, [p, q]) == SpliceOne(SpliceOne(raw, p.start, p.end, p.text), q.start, q.end, q.text)
  {
    assert [p, q][..1] == [p] && [p][..0] == [];
    assert SpliceAll(raw, [p][..0]) == raw;
  }

  lemma SpliceTwice(raw: string, head: string, tail: string, o: nat, first: string, second: string)
    requires raw == head + tail && o == |head|
    ensures SpliceOne(SpliceOne(raw, o, o, first), o, o, second) == head + (second + (first + tail))
  {
    SpliceAt(raw, head, tail, o, first);
    SpliceAt(head + (first + tail), head, first + tail, o, second);
  }

  lemma TwoInserts(raw: string, head: string, tail: string, p: Patch, q: Patch)
    requires raw == head + tail && p.start == p.end == q.start == q.end == |head|
    ensures SpliceAll(raw, [p, q]) == head + (q.text + (p.text + tail))
  {
    SpliceTwo(raw, p, q);
    SpliceTwice(raw, head, tail, |head|, p.text, q.text);
  }

  function Insertion(p: Position, text: string): TextEdit { TextEdit(Range(p, p), text) }

  lemma BothSorted(p: Position, first: string, second: string)
    ensures Sorted([Insertion(p, first), Insertion(p, second)], StartsLater)
  {
  }

  lemma ResolvedInsertions(lines: seq<string>, p: Position, first: string, second: string)
    ensures var o := Offset(lines, p);
            Resolved(lines, [Insertion(p, first), Insertion(p, second)]) == [Patch(o, o, first), Patch(o, o, second)]
  {
  }

  lemma TwoAtOffset(raw: string, o: nat, first: string, second: string)
    requires o <= |raw|
    ensures SpliceAll(raw, [Patch(o, o, first), Patch(o, o, second)]) == raw[..o] + (second + (first + raw[o..]))
  {
    assert raw == raw[..o] + raw[o..];
    TwoInserts(raw, raw[..o], raw[o..], Patch(o, o, first), Patch(o, o, second));
  }

  lemma TwoInsertions(raw: string, lines: seq<string>, p: Position, first: string, second: string)
    requires 0 <= Offset(lines, p) <= |raw|
    ensures var o := Offset(lines, p);
            SpliceAll(raw, Resolved(lines, [Insertion(p, first), Insertion(p, second)]))
            == raw[..o] + (second + (first + raw[o..]))
  {
    ResolvedInsertions(lines, p, first, second);
    TwoAtOffset(raw, Offset(lines, p), first, second);
  }

  /** Two inserts at one place: both orders of them are sorted, and the last applied
      comes first.  So the protocol's result hangs on how the sort breaks the tie. */
  lemma TieDecides(raw: string, lines: seq<string>, p: Position, first: string, second: string)
    requires Document(raw, lines) && InLine(lines, p)
    ensures var o, e, f := Offset(lines, p), Insertion(p, first), Insertion(p, second);
            && Sorted([e, f], StartsLater) && Sorted([f, e], StartsLater) && 0 <= o <= |raw|
            && SpliceAll(raw, Resolved(lines, [e, f])) == raw[..o] + (second + (first + raw[o..]))
            && SpliceAll(raw, Resolved(lines, [f, e])) == raw[..o] + (first + (second + raw[o..]))
  {
    OffsetKeepsOrder(raw, lines, p, p);
    BothSorted(p, first, second);
    BothSorted(p, second, first);
    TwoInsertions(raw, lines, p, first, second);
    TwoInsertions(raw, lines, p, second, first);
  }
}
