/** One memory as a markdown file with frontmatter (internal/memory/memory.go):
    the slug that names it, how Save renders it and how parse reads it back. */
module MemoryFile {
  import opened Wrappers
  import opened Text
  import opened Sequences

  datatype Memory = Memory(name: string, description: string, kind: string, body: string)

  const KINDS := {"user", "feedback", "project", "reference"}

  // ------------------------------------------------------------------- slugs

  predicate IsAlnum(c: char) { 'a' <= c <= 'z' || '0' <= c <= '9' }

  predicate IsDash(c: char) { c == '-' }

  /** Each run of other characters becomes one dash. */
  function Dashed(s: string): string
  {
    if |s| == 0 then ""
    else
      var before, c := Dashed(s[..|s| - 1]), s[|s| - 1];
      if IsAlnum(c) then before + [c]
      else if |before| > 0 && before[|before| - 1] == '-' then before
      else before + "-"
  }

  function Slug(name: string): string { Trim(Dashed(LowerAll(TrimSpace(name))), IsDash) }

  /** Letters, digits and single dashes, none of them at an edge. */
  predicate IsSlug(s: string)
  {
    && (forall i :: 0 <= i < |s| ==> IsAlnum(s[i]) || s[i] == '-')
    && (forall i :: 0 < i < |s| ==> s[i - 1] != '-' || s[i] != '-')
    && (|s| > 0 ==> s[0] != '-' && s[|s| - 1] != '-')
  }

  predicate IsDashed(s: string)
  {
    && (forall i :: 0 <= i < |s| ==> IsAlnum(s[i]) || s[i] == '-')
    && (forall i :: 0 < i < |s| ==> s[i - 1] != '-' || s[i] != '-')
  }

  lemma {:induction false} DashedIsDashed(s: string)
    ensures IsDashed(Dashed(s))
  {
    if |s| > 0 {
      DashedIsDashed(s[..|s| - 1]);
    }
  }

  lemma {:induction false} DashedStays(s: string)
    requires IsDashed(s)
    ensures Dashed(s) == s
  {
    if |s| > 0 {
      DashedStays(s[..|s| - 1]);
      assert s == s[..|s| - 1] + [s[|s| - 1]];
    }
  }

  lemma TrimmedIsSlug(d: string)
    requires IsDashed(d)
    ensures IsSlug(Trim(d, IsDash))
  {
    var left := TrimLeft(d, IsDash);
    TrimLeftCuts(d, IsDash);
    TrimRightCuts(left, IsDash);
    SliceIsDashed(d, |d| - |left|, |d|);
    SliceIsDashed(left, 0, |TrimRight(left, IsDash)|);
  }

  lemma SliceIsDashed(d: string, i: nat, j: nat)
    requires IsDashed(d) && i <= j <= |d|
    ensures IsDashed(d[i..j])
  {
    assert forall k :: 0 <= k < j - i ==> d[i..j][k] == d[i + k];
  }

  /** A slug is a slug, */
  lemma SlugIsSlug(name: string)
    ensures IsSlug(Slug(name))
  {
    var d := Dashed(LowerAll(TrimSpace(name)));
    DashedIsDashed(LowerAll(TrimSpace(name)));
    TrimmedIsSlug(d);
  }

  lemma SlugIsLower(s: string)
    requires IsSlug(s)
    ensures LowerAll(s) == s
  {
    forall i | 0 <= i < |s| ensures LowerAscii(s[i]) == s[i] {}
  }

  /** Nothing is trimmed where the edges are not for cutting. */
  lemma TrimStays(s: string, cut: char -> bool)
    requires |s| > 0 ==> !cut(s[0]) && !cut(s[|s| - 1])
    ensures Trim(s, cut) == s
  {
  }

  lemma AlnumIsNoEdge(c: char)
    requires IsAlnum(c)
    ensures !IsSpace(c) && !IsDash(c) && !IsQuote(c)
  {
  }

  lemma AlnumEdges(s: string)
    requires |s| > 0 ==> IsAlnum(s[0]) && IsAlnum(s[|s| - 1])
    ensures |s| > 0 ==> !IsSpace(s[0]) && !IsSpace(s[|s| - 1])
    ensures |s| > 0 ==> !IsDash(s[0]) && !IsDash(s[|s| - 1])
    ensures |s| > 0 ==> !IsQuote(s[0]) && !IsQuote(s[|s| - 1])
  {
    if |s| > 0 {
      AlnumIsNoEdge(s[0]);
      AlnumIsNoEdge(s[|s| - 1]);
    }
  }

  lemma AlnumTrimSpace(s: string)
    requires |s| > 0 ==> IsAlnum(s[0]) && IsAlnum(s[|s| - 1])
    ensures TrimSpace(s) == s
  {
    AlnumEdges(s);
    TrimStays(s, IsSpace);
  }

  lemma AlnumTrimDash(s: string)
    requires |s| > 0 ==> IsAlnum(s[0]) && IsAlnum(s[|s| - 1])
    ensures Trim(s, IsDash) == s
  {
    AlnumEdges(s);
    TrimStays(s, IsDash);
  }

  lemma AlnumTrimQuote(s: string)
    requires |s| > 0 ==> IsAlnum(s[0]) && IsAlnum(s[|s| - 1])
    ensures Trim(s, IsQuote) == s
  {
    AlnumEdges(s);
    TrimStays(s, IsQuote);
  }

  /** and slugifying leaves exactly the slugs as they are; so twice is as good as
      once. */
  lemma SlugStaysIff(s: string)
    ensures Slug(s) == s <==> IsSlug(s)
  {
    SlugIsSlug(s);
    if IsSlug(s) {
      SlugIsLower(s);
      AlnumTrimSpace(s);
      AlnumTrimDash(s);
      DashedStays(s);
    }
  }

  lemma SlugTwice(name: string)
    ensures Slug(Slug(name)) == Slug(name)
  {
    SlugIsSlug(name);
    SlugStaysIff(Slug(name));
  }

  /** What separates the words of a slug. */
  predicate NotInSlug(c: char) { !('a' <= c <= 'z' || '0' <= c <= '9') }

  function DashFor(c: char): string { if NotInSlug(c) then "-" else "" }

  lemma Around(a: string, j: string, b: string)
    requires j != "" && !IsDash(j[0]) && !IsDash(j[|j| - 1])
    requires (a == "" || a == "-") && (b == "" || b == "-")
    ensures Trim(a + j + b, IsDash) == j
  {
    assert (a + j + b)[|a|..] == j + b;
    assert a == "" ==> a + j + b == j + b;
    assert (j + b)[0] == j[0];
    assert TrimLeft(a + j + b, IsDash) == j + b;
    assert (j + b)[..|j|] == j;
    assert b == "" ==> j + b == j;
    assert TrimRight(j + b, IsDash) == j;
  }

  lemma WordsJoined(s: string)
    ensures var words := FieldsFunc(s, NotInSlug);
            |words| > 0 ==>
              var j := Join(words, "-");
              j != "" && !IsDash(j[0]) && !IsDash(j[|j| - 1])
  {
    var words := FieldsFunc(s, NotInSlug);
    if |words| > 0 {
      var first, last := words[0], words[|words| - 1];
      assert first in words && last in words && first[0] in first && last[|last| - 1] in last;
      JoinEdges(words, "-");
    }
  }

  /** Dashed texts are their words with dashes between, and one at an edge that is not
      a word's. */
  ghost predicate DashesWords(s: string, d: string)
  {
    var words := FieldsFunc(s, NotInSlug);
    if s == "" then d == ""
    else if |words| == 0 then d == "-"
    else d == DashFor(s[0]) + Join(words, "-") + DashFor(s[|s| - 1])
  }

  lemma DashesAfter(s: string, d: string, c: char)
    requires NotInSlug(c) && s != "" && DashesWords(s, d)
    ensures DashesWords(s + [c], if |d| > 0 && d[|d| - 1] == '-' then d else d + "-")
  {
    FieldsGrow(s, c, NotInSlug);
    NoFields(s, NotInSlug);
    WordsJoined(s);
    var words := FieldsFunc(s, NotInSlug);
    if |words| > 0 {
      var j, e := Join(words, "-"), DashFor(s[|s| - 1]);
      assert e == "" ==> d == DashFor(s[0]) + j && d[|d| - 1] == j[|j| - 1];
    }
  }

  lemma DashesGoOn(s: string, d: string, c: char)
    requires !NotInSlug(c) && s != "" && DashesWords(s, d)
    ensures DashesWords(s + [c], d + [c])
  {
    FieldsGrow(s, c, NotInSlug);
    NoFields(s, NotInSlug);
    var words, more := FieldsFunc(s, NotInSlug), FieldsFunc(s + [c], NotInSlug);
    var a, j := DashFor(s[0]), Join(words, "-");
    if |words| == 0 {
      assert more == [[c]];
    } else if NotInSlug(s[|s| - 1]) {
      JoinSnoc(words, [c], "-");
      PartsGrow(a, j, "-", [c]);
    } else {
      JoinLonger(words, c, "-");
      PartsGrow(a, j, "", [c]);
    }
  }

  lemma PartsGrow(a: string, j: string, b: string, c: string)
    ensures (a + j + b) + c == a + (j + (b + c)) + "" && "" + c == c
  {
  }

  lemma OneDashed(c: char)
    ensures DashesWords([c], Dashed([c]))
  {
    FieldsGrow("", c, NotInSlug);
    assert "" + [c] == [c] && [c][..0] == "";
  }

  lemma {:induction false} DashedWords(s: string)
    ensures DashesWords(s, Dashed(s))
  {
    if s != "" {
      var before, c := s[..|s| - 1], s[|s| - 1];
      assert s == before + [c];
      DashedWords(before);
      if before == "" {
        OneDashed(c);
        assert s == [c];
      } else if NotInSlug(c) {
        DashesAfter(before, Dashed(before), c);
      } else {
        DashesGoOn(before, Dashed(before), c);
      }
    }
  }

  lemma TrimmedSpaces(name: string) returns (a: string, b: string)
    ensures name == a + TrimSpace(name) + b
    ensures (forall i :: 0 <= i < |a| ==> IsSpace(a[i])) && (forall i :: 0 <= i < |b| ==> IsSpace(b[i]))
  {
    var left, t := TrimLeft(name, IsSpace), TrimSpace(name);
    TrimLeftCuts(name, IsSpace);
    TrimRightCuts(left, IsSpace);
    a, b := name[..|name| - |left|], left[|t|..];
    assert left == t + b && name == a + left;
  }

  lemma SpacesSeparate(a: string)
    requires forall i :: 0 <= i < |a| ==> IsSpace(a[i])
    ensures forall i :: 0 <= i < |a| ==> NotInSlug(LowerAll(a)[i])
  {
  }

  lemma LowerConcat(a: string, b: string)
    ensures LowerAll(a + b) == LowerAll(a) + LowerAll(b)
  {
  }

  /** A slug is the lower-case words of letters and digits of the name, joined by
      dashes. */
  lemma SlugIsWords(name: string)
    ensures Slug(name) == Join(FieldsFunc(LowerAll(name), NotInSlug), "-")
  {
    var t := TrimSpace(name);
    var a, b := TrimmedSpaces(name);
    var s := LowerAll(t);
    SpacesSeparate(a);
    SpacesSeparate(b);
    LowerConcat(a + t, b);
    LowerConcat(a, t);
    FieldsTrimmed(LowerAll(a), s, LowerAll(b), NotInSlug);
    DashedWords(s);
    WordsJoined(s);
    if s != "" && |FieldsFunc(s, NotInSlug)| > 0 {
      Around(DashFor(s[0]), Join(FieldsFunc(s, NotInSlug), "-"), DashFor(s[|s| - 1]));
    }
  }

  /** It is empty where the name has no letter and no digit. */
  lemma SlugIsEmptyIff(name: string)
    ensures Slug(name) == "" <==> forall c :: c in LowerAll(name) ==> NotInSlug(c)
  {
    var s := LowerAll(name);
    SlugIsWords(name);
    NoFields(s, NotInSlug);
    WordsJoined(s);
  }

  /** The loop of slugify. */
  method DashRuns(lower: string) returns (b: string)
    ensures b == Dashed(lower)
  {
    var prevDash := false;
    b := "";
    for i := 0 to |lower|
      invariant b == Dashed(lower[..i])
      invariant prevDash <==> |b| > 0 && b[|b| - 1] == '-'
    {
      assert lower[..i + 1][..i] == lower[..i];
      var r := lower[i];
      if 'a' <= r <= 'z' || '0' <= r <= '9' {
        b := b + [r];
        prevDash := false;
      } else if !prevDash {
        b := b + "-";
        prevDash := true;
      }
    }
    assert lower[..|lower|] == lower;
  }

  /** slugify */
  method Slugify(name: string) returns (slug: string)
    ensures slug == Slug(name)
  {
    var b := DashRuns(LowerAll(TrimSpace(name)));
    slug := Trim(b, IsDash);
  }

  // ------------------------------------------------------------------- files

  predicate IsQuote(c: char) { c == '"' || c == '\'' }

  /** A frontmatter value without edge spaces, then without edge quotes. */
  function Unquoted(s: string): string { Trim(TrimSpace(s), IsQuote) }

  /** ParseType: one of the four kinds, or none. */
  function ParseKind(raw: string): string
  {
    if TrimSpace(raw) in KINDS then TrimSpace(raw) else ""
  }

  /** strings.ReplaceAll of "\r\n" by "\n" */
  function Unix(s: string): string
  {
    if |s| == 0 then ""
    else if |s| > 1 && s[0] == '\r' && s[1] == '\n' then "\n" + Unix(s[2..])
    else [s[0]] + Unix(s[1..])
  }

  lemma OccursShift(s: string, sub: string, i: nat)
    requires |s| > 0 && i > 0
    ensures OccursAt(s, sub, i) <==> OccursAt(s[1..], sub, i - 1)
  {
    assert i + |sub| <= |s| ==> s[i..i + |sub|] == s[1..][i - 1..i - 1 + |sub|];
  }

  /** strings.Index */
  function Index(s: string, sub: string): (at: Option<nat>)
    ensures at.Some? ==> at.value + |sub| <= |s|
  {
    if OccursAt(s, sub, 0) then Some(0)
    else if |s| == 0 then None
    else
      var later := Index(s[1..], sub);
      if later.Some? then Some(later.value + 1) else None
  }

  /** It is where `sub` first occurs, if it does. */
  lemma {:induction false} IndexIsFirst(s: string, sub: string, i: nat)
    ensures Index(s, sub).Some? ==> OccursAt(s, sub, Index(s, sub).value)
    ensures OccursAt(s, sub, i) ==> Index(s, sub).Some? && Index(s, sub).value <= i
  {
    if |s| > 0 && !OccursAt(s, sub, 0) {
      var later := Index(s[1..], sub);
      if i > 0 {
        OccursShift(s, sub, i);
        IndexIsFirst(s[1..], sub, i - 1);
      } else {
        IndexIsFirst(s[1..], sub, 0);
      }
      if later.Some? {
        OccursShift(s, sub, later.value + 1);
      }
    }
  }

  const FENCE := "---\n"
  const CLOSE := "\n---"

  datatype Key = NameKey | DescriptionKey | TypeKey | NoKey

  function KeyNamed(key: string): Key
  {
    if key == "name" then NameKey
    else if key == "description" then DescriptionKey
    else if key == "type" then TypeKey
    else NoKey
  }

  /** The key before the colon of a frontmatter line. */
  function KeyIn(s: string): Key { KeyNamed(LowerAll(TrimSpace(s))) }

  function WithValue(m: Memory, key: Key, val: string): Memory
  {
    match key
    case NameKey => m.(name := val)
    case DescriptionKey => m.(description := val)
    case TypeKey => if ParseKind(val) != "" then m.(kind := ParseKind(val)) else m
    case NoKey => m
  }

  /** A frontmatter line around its first colon; one without a colon says nothing. */
  datatype Pair = Pair(key: string, val: string)

  function PairOf(line: string): Pair
  {
    var colon := IndexOf(line, ':');
    if colon == |line| then Pair("", "") else Pair(line[..colon], line[colon + 1..])
  }

  function Pairs(lines: seq<string>): seq<Pair> { MapAll(lines, PairOf) }

  function WithPair(m: Memory, p: Pair): Memory { WithValue(m, KeyIn(p.key), Unquoted(p.val)) }

  function WithPairs(m: Memory, pairs: seq<Pair>): Memory { FoldAll(m, pairs, WithPair) }

  function BodyOf(after: string): string
  {
    TrimSpace(if |after| > 0 && after[0] == '\n' then after[1..] else after)
  }

  /** The frontmatter and what follows its closing fence, if there is one. */
  function Sections(raw: string): Option<(string, string)>
  {
    if !(FENCE <= raw) then None
    else
      var rest := raw[4..];
      var end := Index(rest, CLOSE);
      if end.None? then None else Some((rest[..end.value], rest[end.value + 4..]))
  }

  /** parse, after line ends have been made uniform */
  function ParseUnix(raw: string): Memory
  {
    var parts := Sections(raw);
    if parts.None? then Memory("", "", "", TrimSpace(raw))
    else WithPairs(Memory("", "", "", BodyOf(parts.value.1)), Pairs(Split(parts.value.0, '\n')))
  }

  function Parse(raw: string): Memory { ParseUnix(Unix(raw)) }

  /** Lines with line breaks between them, then `tail`. */
  function Fronted(lines: seq<string>, tail: string): string
    requires |lines| > 0
  {
    if |lines| == 1 then lines[0] + tail else lines[0] + ("\n" + Fronted(lines[1..], tail))
  }

  const TYPE_KEY := [' '] + ([' '] + "type")

  function Field(key: string, val: string): string { key + (": " + val) }

  function FrontLines(m: Memory): seq<string>
  {
    [Field("name", m.name), Field("description", m.description), "metadata" + (":" + ""), Field(TYPE_KEY, m.kind)]
  }

  function AfterClose(body: string): string { "\n\n" + (body + "\n") }

  /** What Save writes. */
  function Render(m: Memory): string
  {
    FENCE + Fronted(FrontLines(m), CLOSE + AfterClose(TrimSpace(m.body)))
  }

  method ReadLine(m0: Memory, line: string) returns (m: Memory)
    ensures m == WithPair(m0, PairOf(line))
  {
    var pair := PairOf(line);
    var val := Unquoted(pair.val);
    m := WithValue(m0, KeyIn(pair.key), val);
  }

  method ReadLines(start: Memory, lines: seq<string>) returns (m: Memory)
    ensures m == WithPairs(start, Pairs(lines))
  {
    m := start;
    for i := 0 to |lines|
      invariant m == FoldAll(start, MapAll(lines[..i], PairOf), WithPair)
    {
      MapFoldMore(start, lines, i, PairOf, WithPair);
      m := ReadLine(m, lines[i]);
    }
    assert lines[..|lines|] == lines;
  }

  /** parse */
  method ParseFile(raw: string) returns (m: Memory)
    ensures m == Parse(raw)
  {
    var text := Unix(raw);
    var parts := Sections(text);
    if parts.None? {
      return Memory("", "", "", TrimSpace(text));
    }
    m := ReadLines(Memory("", "", "", BodyOf(parts.value.1)), Split(parts.value.0, '\n'));
  }

  // ------------------------------------------------- what a file says

  predicate HasKey(p: Pair, key: string) { LowerAll(TrimSpace(p.key)) == key }

  /** The value a pair gives, spaces and then quotes around it apart. */
  function Value(p: Pair): string { Trim(TrimSpace(p.val), IsQuote) }

  predicate GivesKind(p: Pair)
  {
    HasKey(p, "type") && TrimSpace(Value(p)) in {"user", "feedback", "project", "reference"}
  }

  /** What one pair changes. */
  lemma PairChanges(m: Memory, p: Pair)
    ensures var r := WithPair(m, p);
            && r.name == (if HasKey(p, "name") then Value(p) else m.name)
            && r.description == (if HasKey(p, "description") then Value(p) else m.description)
            && r.kind == (if GivesKind(p) then TrimSpace(Value(p)) else m.kind)
            && r.body == m.body
  {
  }

  /** Of the pairs that give a key a value the last one has it, */
  lemma LastPairWins(m: Memory, pairs: seq<Pair>, k: nat)
    requires k < |pairs|
    ensures var r, p := WithPairs(m, pairs), pairs[k];
            && (HasKey(p, "name") && (forall j :: k < j < |pairs| ==> !HasKey(pairs[j], "name")) ==> r.name == Value(p))
            && (HasKey(p, "description") && (forall j :: k < j < |pairs| ==> !HasKey(pairs[j], "description")) ==>
                  r.description == Value(p))
            && (GivesKind(p) && (forall j :: k < j < |pairs| ==> !GivesKind(pairs[j])) ==> r.kind == TrimSpace(Value(p)))
  {
    forall a, p ensures WithPair(a, p).name == (if HasKey(p, "name") then Value(p) else a.name)
                && WithPair(a, p).description == (if HasKey(p, "description") then Value(p) else a.description)
                && WithPair(a, p).kind == (if GivesKind(p) then TrimSpace(Value(p)) else a.kind) {
      PairChanges(a, p);
    }
    LastSays(m, pairs, WithPair, (r: Memory) => r.name, p => HasKey(p, "name"), Value, k);
    LastSays(m, pairs, WithPair, (r: Memory) => r.description, p => HasKey(p, "description"), Value, k);
    LastSays(m, pairs, WithPair, (r: Memory) => r.kind, GivesKind, p => TrimSpace(Value(p)), k);
  }

  /** and a key that none gives keeps its value; so does the body. */
  lemma NoPairSays(m: Memory, pairs: seq<Pair>)
    ensures var r := WithPairs(m, pairs);
            && ((forall p :: p in pairs ==> !HasKey(p, "name")) ==> r.name == m.name)
            && ((forall p :: p in pairs ==> !HasKey(p, "description")) ==> r.description == m.description)
            && ((forall p :: p in pairs ==> !GivesKind(p)) ==> r.kind == m.kind)
            && r.body == m.body
  {
    forall a, p ensures WithPair(a, p).name == (if HasKey(p, "name") then Value(p) else a.name)
                && WithPair(a, p).description == (if HasKey(p, "description") then Value(p) else a.description)
                && WithPair(a, p).kind == (if GivesKind(p) then TrimSpace(Value(p)) else a.kind)
                && WithPair(a, p).body == a.body {
      PairChanges(a, p);
    }
    NoneSays(m, pairs, WithPair, (r: Memory) => r.name, p => HasKey(p, "name"));
    NoneSays(m, pairs, WithPair, (r: Memory) => r.description, p => HasKey(p, "description"));
    NoneSays(m, pairs, WithPair, (r: Memory) => r.kind, GivesKind);
    NoneSays(m, pairs, WithPair, (r: Memory) => r.body, _ => false);
  }

  /** A text fenced at its start, up to the first closing fence, says what its lines
      say; the rest is the body. */
  lemma FrontIsRead(raw: string, front: string, after: string)
    requires Unix(raw) == "---\n" + (front + ("\n---" + after))
    requires forall i :: 0 <= i < |front| ==> !OccursAt(front + ("\n---" + after), "\n---", i)
    ensures Parse(raw) == WithPairs(Memory("", "", "", TrimSpace(after)), Pairs(Split(front, '\n')))
  {
    var rest := front + (CLOSE + after);
    assert (FENCE + rest)[4..] == rest && (FENCE + rest)[..4] == FENCE;
    ClosesAt(front, after);
    assert Sections(FENCE + rest) == Some((front, after));
    assert BodyOf(after) == TrimSpace(after);
  }

  lemma ClosesAt(front: string, after: string)
    requires forall i :: 0 <= i < |front| ==> !OccursAt(front + (CLOSE + after), CLOSE, i)
    ensures var rest := front + (CLOSE + after);
            && Index(rest, CLOSE) == Some(|front|)
            && rest[..|front|] == front && rest[|front| + 4..] == after
  {
    var rest := front + (CLOSE + after);
    assert rest[|front|..] == CLOSE + after;
    assert rest[|front|..|front| + 4] == CLOSE && OccursAt(rest, CLOSE, |front|);
    IndexIsFirst(rest, CLOSE, |front|);
    assert rest[|front| + 4..] == (CLOSE + after)[4..];
  }

  // ------------------------------------------------- what a file can keep

  predicate OneLine(s: string) { '\n' !in s }

  predicate HasCrlf(s: string)
  {
    exists i :: 0 <= i < |s| - 1 && s[i] == '\r' && s[i + 1] == '\n'
  }

  predicate Named(m: Memory) { IsSlug(m.name) && m.name != "" }

  /** What trimming takes off a value. */
  predicate IsMargin(c: char) { IsSpace(c) || IsQuote(c) }

  predicate NoMargins(s: string) { s == "" || (!IsMargin(s[0]) && !IsMargin(s[|s| - 1])) }

  /** One line with no space and no quote at either edge. */
  predicate Bare(description: string) { OneLine(description) && NoMargins(description) }

  lemma StaysIffNoMargins(s: string)
    ensures Unquoted(s) == s <==> NoMargins(s)
  {
    TrimCuts(s, IsSpace);
    TrimCuts(s, IsQuote);
    if Unquoted(s) == s {
      TrimLeftCuts(s, IsSpace);
      assert |TrimSpace(s)| == |s| && |TrimLeft(s, IsSpace)| == |s|;
      assert TrimSpace(s) == s;
    }
  }

  /** A memory that its file gives back as it is. */
  predicate Storable(m: Memory)
  {
    && Named(m) && Bare(m.description) && m.kind in KINDS
    && TrimSpace(m.body) == m.body && !HasCrlf(m.body)
  }

  lemma {:induction false} FrontedJoin(lines: seq<string>, more: seq<string>)
    requires |lines| > 0 && |more| > 0
    ensures Fronted(lines, "\n" + Join(more, "\n")) == Join(lines + more, "\n")
  {
    assert lines == [lines[0]] + lines[1..];
    assert lines + more == [lines[0]] + (lines[1..] + more);
    JoinCons(lines[0], lines[1..] + more, "\n");
    if |lines| == 1 {
      assert lines[1..] + more == more;
    } else {
      FrontedJoin(lines[1..], more);
    }
  }

  lemma ClosingLines(body: string)
    ensures CLOSE + AfterClose(body) == "\n" + Join(["---", "", body, ""], "\n")
  {
    JoinCons(body, [""], "\n");
    JoinCons("", [body, ""], "\n");
    JoinCons("---", ["", body, ""], "\n");
    assert [body] + [""] == [body, ""] && [""] + [body, ""] == ["", body, ""];
    assert ["---"] + ["", body, ""] == ["---", "", body, ""];
    Lines(body);
  }

  lemma Lines(body: string)
    ensures "---" + ("\n" + ("" + ("\n" + (body + ("\n" + ""))))) == "---\n\n" + (body + "\n")
    ensures "\n" + ("---\n\n" + (body + "\n")) == "\n---" + ("\n\n" + (body + "\n"))
  {
  }

  lemma FieldText(m: Memory)
    ensures FrontLines(m) == ["name: " + m.name, "description: " + m.description, "metadata:", "  type: " + m.kind]
  {
    assert "name" + (": " + m.name) == "name: " + m.name;
    assert "description" + (": " + m.description) == "description: " + m.description;
    assert "metadata" + (":" + "") == "metadata:";
    assert TYPE_KEY == "  type";
    assert "  type" + (": " + m.kind) == "  type: " + m.kind;
  }

  /** The lines of a memory's file. */
  function FileLines(name: string, description: string, kind: string, body: string): seq<string>
  {
    ["---", "name: " + name, "description: " + description, "metadata:", "  type: " + kind, "---",
     "", TrimSpace(body), ""]
  }

  lemma RenderedLines(m: Memory)
    ensures Render(m) == Join(FileLines(m.name, m.description, m.kind, m.body), "\n")
  {
    var front, tail := FrontLines(m), ["---", "", TrimSpace(m.body), ""];
    ClosingLines(TrimSpace(m.body));
    FrontedJoin(front, tail);
    FieldText(m);
    JoinCons("---", front + tail, "\n");
    assert FENCE + Join(front + tail, "\n") == "---" + ("\n" + Join(front + tail, "\n"));
    assert ["---"] + (front + tail) == FileLines(m.name, m.description, m.kind, m.body);
  }
}
