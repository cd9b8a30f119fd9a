/** What parse brings back of a memory that Save has rendered
    (internal/memory/memory.go), exactly.

    The way through a rendered file is followed step by step: line ends are made
    uniform, the closing fence is found where Save put it, the frontmatter falls
    apart into its four lines, each of them at its first colon, and what is left
    around a value, a key or the body is trimmed.  The main result, which puts
    these together, comes last. */
module MemoryRoundTrip {
  import opened Wrappers
  import opened Text
  import opened MemoryFile
  import opened Sequences

  /** A line end takes a carriage return before it along. */
  function StripCr(line: string): string
  {
    if |line| > 0 && line[|line| - 1] == '\r' then line[..|line| - 1] else line
  }

  lemma {:induction false} UnixLine(line: string, more: string)
    requires '\n' !in line && |more| > 0 && more[0] == '\n'
    ensures Unix(line + more) == StripCr(line) + Unix(more)
  {
    var s := line + more;
    if |line| == 0 {
      assert s == more;
    } else if line == "\r" {
      assert s[2..] == more[1..] && Unix(more) == "\n" + Unix(more[1..]);
      assert "" + Unix(more) == Unix(more);
    } else {
      assert s[1..] == line[1..] + more && s[0] == line[0] && s[1] == (line[1..] + more)[0];
      UnixLine(line[1..], more);
      StripCrCons(line);
      Reassociate([line[0]], StripCr(line[1..]), Unix(more));
    }
  }

  lemma {:induction false} UnixAppend(s: string, t: string)
    requires |s| > 0 ==> s[|s| - 1] != '\r'
    ensures Unix(s + t) == Unix(s) + Unix(t)
  {
    if |s| == 0 {
      assert s + t == t && Unix(s) + Unix(t) == Unix(t);
    } else if |s| > 1 && s[0] == '\r' && s[1] == '\n' {
      UnixAppend(s[2..], t);
      assert (s + t)[2..] == s[2..] + t;
      Reassociate("\n", Unix(s[2..]), Unix(t));
    } else {
      UnixAppend(s[1..], t);
      assert (s + t)[1..] == s[1..] + t && (s + t)[0] == s[0];
      assert |s| > 1 ==> (s + t)[1] == s[1];
      Reassociate([s[0]], Unix(s[1..]), Unix(t));
    }
  }

  lemma StripCrCons(line: string)
    requires |line| > 0 && line != "\r"
    ensures StripCr(line) == [line[0]] + StripCr(line[1..])
  {
    if |line| > 1 {
      assert line == [line[0]] + line[1..];
      assert line[1..][|line| - 2] == line[|line| - 1];
      assert line[..|line| - 1] == [line[0]] + line[1..][..|line| - 2];
    }
  }

  lemma {:induction false} UnixStaysIff(s: string)
    ensures |Unix(s)| <= |s| && (Unix(s) == s <==> !HasCrlf(s))
  {
    if |s| > 1 && s[0] == '\r' && s[1] == '\n' {
      UnixStaysIff(s[2..]);
      assert HasCrlf(s);
    } else if |s| > 0 {
      UnixStaysIff(s[1..]);
      assert s == [s[0]] + s[1..];
      if HasCrlf(s) {
        var i :| 0 <= i < |s| - 1 && s[i] == '\r' && s[i + 1] == '\n';
        assert s[1..][i - 1] == '\r' && s[1..][i] == '\n';
      } else {
        assert forall i :: 0 <= i < |s[1..]| ==> s[1..][i] == s[i + 1];
      }
    }
  }

  predicate AllOneLine(lines: seq<string>)
  {
    forall i :: 0 <= i < |lines| ==> OneLine(lines[i])
  }

  function StripAll(lines: seq<string>): (stripped: seq<string>)
    ensures |stripped| == |lines|
  {
    if |lines| == 0 then [] else [StripCr(lines[0])] + StripAll(lines[1..])
  }

  lemma {:induction false} UnixFronted(lines: seq<string>, tail: string)
    requires |lines| > 0 && AllOneLine(lines) && |tail| > 0 && tail[0] == '\n'
    ensures Unix(Fronted(lines, tail)) == Fronted(StripAll(lines), Unix(tail))
  {
    if |lines| == 1 {
      UnixLine(lines[0], tail);
    } else {
      var later := Fronted(lines[1..], tail);
      UnixFronted(lines[1..], tail);
      UnixLine(lines[0], "\n" + later);
      UnixAppend("\n", later);
      assert StripAll(lines)[1..] == StripAll(lines[1..]);
    }
  }

  lemma {:induction false} FrontedTail(lines: seq<string>, tail: string)
    requires |lines| > 0
    ensures Fronted(lines, tail) == Fronted(lines, "") + tail
  {
    if |lines| > 1 {
      FrontedTail(lines[1..], tail);
      Reassociate("\n", Fronted(lines[1..], ""), tail);
      Reassociate(lines[0], "\n" + Fronted(lines[1..], ""), tail);
    } else {
      assert lines[0] + "" == lines[0];
    }
  }

  /** No match can start before the first place its first character occurs. */
  lemma {:induction false} IndexSkips(s: string, t: string, sub: string)
    requires |sub| > 0 && sub[0] !in s && Index(t, sub).Some?
    ensures Index(s + t, sub) == Some(|s| + Index(t, sub).value)
  {
    if |s| == 0 {
      assert s + t == t;
    } else {
      assert (s + t)[1..] == s[1..] + t;
      IndexSkips(s[1..], t, sub);
      assert (s + t)[0] == s[0] != sub[0];
      assert !OccursAt(s + t, sub, 0);
    }
  }

  lemma IndexFirst(s: string, sub: string)
    requires sub <= s
    ensures Index(s, sub) == Some(0)
  {
    assert s[0..|sub|] == sub;
  }

  lemma ClosesAtBreak(later: string)
    ensures OccursAt("\n" + later, CLOSE, 0) ==> "---" <= later
  {
    var s := "\n" + later;
    assert s[1..] == later;
    if |s| >= 4 {
      assert s[0..4] == "\n" + later[..3];
      assert CLOSE == "\n" + "---";
      assert CLOSE[1..] == "---" && ("\n" + later[..3])[1..] == later[..3];
    }
  }

  lemma IndexNext(c: char, later: string, sub: string)
    requires !OccursAt([c] + later, sub, 0) && Index(later, sub).Some?
    ensures Index([c] + later, sub) == Some(1 + Index(later, sub).value)
  {
    assert ([c] + later)[1..] == later;
  }

  /** The closing fence is found right after the lines, if none of them opens it. */
  lemma {:induction false} IndexFronted(lines: seq<string>, tail: string)
    requires |lines| > 0 && AllOneLine(lines) && CLOSE <= tail
    requires forall i :: 0 < i < |lines| ==> !("---" <= lines[i])
    ensures Index(Fronted(lines, tail), CLOSE) == Some(|Fronted(lines, "")|)
  {
    if |lines| == 1 {
      IndexFirst(tail, CLOSE);
      IndexSkips(lines[0], tail, CLOSE);
    } else {
      IndexFronted(lines[1..], tail);
      NotOpened(lines[1..], tail);
      var later := Fronted(lines[1..], tail);
      ClosesAtBreak(later);
      IndexNext('\n', later, CLOSE);
      IndexSkips(lines[0], "\n" + later, CLOSE);
    }
  }

  lemma NotOpened(lines: seq<string>, tail: string)
    requires |lines| > 0 && !("---" <= lines[0]) && |tail| > 0 && tail[0] == '\n'
    ensures !("---" <= Fronted(lines, tail))
  {
    var s := Fronted(lines, tail);
    var n := |lines[0]|;
    assert |s| > n && s[..n] == lines[0] && s[n] == '\n';
    assert n < 3 ==> s[n] != "---"[n];
    assert n >= 3 ==> s[..3] == lines[0][..3];
  }

  lemma SplitCons(c: char, s: string)
    requires c != '\n'
    ensures Split([c] + s, '\n') == [[c] + Split(s, '\n')[0]] + Split(s, '\n')[1..]
  {
    assert ([c] + s)[1..] == s;
  }

  lemma SplitBreak(s: string)
    ensures Split("\n" + s, '\n') == [""] + Split(s, '\n')
  {
    assert ("\n" + s)[1..] == s;
  }

  lemma {:induction false} SplitLine(line: string, rest: string)
    requires OneLine(line)
    ensures Split(line + ("\n" + rest), '\n') == [line] + Split(rest, '\n')
  {
    if |line| == 0 {
      SplitBreak(rest);
      assert line + ("\n" + rest) == "\n" + rest;
    } else {
      var more := "\n" + rest;
      SplitLine(line[1..], rest);
      SplitCons(line[0], line[1..] + more);
      assert line == [line[0]] + line[1..];
      Reassociate([line[0]], line[1..], more);
    }
  }

  lemma {:induction false} SplitFronted(lines: seq<string>)
    requires |lines| > 0 && AllOneLine(lines)
    ensures Split(Fronted(lines, ""), '\n') == lines
  {
    if |lines| == 1 {
      assert lines[0] + "" == lines[0];
    } else {
      SplitFronted(lines[1..]);
      SplitLine(lines[0], Fronted(lines[1..], ""));
    }
  }

  /** What the parser takes apart of rendered lines and a body. */
  lemma SectionsOf(lines: seq<string>, after: string)
    requires |lines| > 0 && AllOneLine(lines) && forall i :: 0 < i < |lines| ==> !("---" <= lines[i])
    ensures Sections(FENCE + Fronted(lines, CLOSE + after)) == Some((Fronted(lines, ""), after))
  {
    var rest, front, tail := Fronted(lines, CLOSE + after), Fronted(lines, ""), CLOSE + after;
    IndexFronted(lines, tail);
    FrontedTail(lines, tail);
    DropFence(rest);
    TakeApart(front, CLOSE, after);
  }

  lemma DropFence(rest: string)
    ensures FENCE <= FENCE + rest && (FENCE + rest)[4..] == rest
  {
  }

  lemma TakeApart(front: string, close: string, after: string)
    ensures (front + (close + after))[..|front|] == front
    ensures (front + (close + after))[|front| + |close|..] == after
  {
  }

  // ---- trimming

  lemma TrimRightMore(s: string, c: char, cut: char -> bool)
    requires cut(c)
    ensures TrimRight(s + [c], cut) == TrimRight(s, cut)
  {
    assert (s + [c])[..|s|] == s;
  }

  lemma {:induction false} TrimLeftMore(s: string, c: char, cut: char -> bool)
    requires cut(c)
    ensures TrimLeft(s + [c], cut) == if TrimLeft(s, cut) == "" then "" else TrimLeft(s, cut) + [c]
  {
    if |s| == 0 {
      assert (s + [c])[1..] == "";
    } else if cut(s[0]) {
      assert (s + [c])[1..] == s[1..] + [c];
      TrimLeftMore(s[1..], c, cut);
    }
  }

  /** Spaces at the edges make no difference. */
  lemma TrimmedMore(s: string, c: char, cut: char -> bool)
    requires cut(c)
    ensures Trim(s + [c], cut) == Trim(s, cut) && Trim([c] + s, cut) == Trim(s, cut)
  {
    TrimLeftMore(s, c, cut);
    TrimRightMore(TrimLeft(s, cut), c, cut);
    assert ([c] + s)[1..] == s;
  }

  lemma StripCrTrims(s: string)
    ensures TrimSpace(StripCr(s)) == TrimSpace(s)
  {
    if |s| > 0 && s[|s| - 1] == '\r' {
      assert s == s[..|s| - 1] + ['\r'];
      TrimmedMore(s[..|s| - 1], '\r', IsSpace);
    }
  }

  lemma UnquotedValue(s: string)
    ensures Unquoted(" " + StripCr(s)) == Unquoted(s)
  {
    TrimmedMore(StripCr(s), ' ', IsSpace);
    StripCrTrims(s);
  }

  // ---- the four lines

  lemma {:induction false} IndexOfChar(s: string, c: char, t: string)
    requires c !in s
    ensures IndexOf(s + ([c] + t), c) == |s|
  {
    if |s| == 0 {
      assert s + ([c] + t) == [c] + t;
    } else {
      assert (s + ([c] + t))[1..] == s[1..] + ([c] + t);
      IndexOfChar(s[1..], c, t);
    }
  }

  lemma LineParts(key: string, val: string)
    ensures var line := key + (":" + val); line[..|key|] == key && line[|key| + 1..] == val
  {
  }

  lemma LineSays(key: string, val: string)
    requires ':' !in key
    ensures PairOf(key + (":" + val)) == Pair(key, val)
  {
    IndexOfChar(key, ':', val);
    LineParts(key, val);
  }

  /** A line with the given key and value. */
  lemma FieldSays(key: string, val: string)
    requires ':' !in key
    ensures PairOf(Field(key, val)) == Pair(key, " " + val)
  {
    assert ": " == ":" + " ";
    Reassociate(":", " ", val);
    LineSays(key, " " + val);
  }

  predicate IsLower(s: string) { forall i :: 0 <= i < |s| ==> 'a' <= s[i] <= 'z' }

  lemma LowerStays(s: string)
    requires IsLower(s)
    ensures LowerAll(s) == s
  {
    forall i | 0 <= i < |s| ensures LowerAscii(s[i]) == s[i] {}
  }

  lemma LowerIsOneLine(s: string)
    requires IsLower(s)
    ensures OneLine(s) && StripCr(s) == s && ':' !in s
  {
  }

  lemma LowerKey(s: string)
    requires IsLower(s)
    ensures KeyIn(s) == KeyNamed(s) && ':' !in s
  {
    AlnumTrimSpace(s);
    LowerStays(s);
    LowerIsOneLine(s);
  }

  lemma KeysAreLower()
    ensures IsLower("name") && IsLower("description") && IsLower("metadata") && IsLower("type")
  {
  }

  lemma KeysAreKeys()
    ensures KeyNamed("name") == NameKey && KeyNamed("description") == DescriptionKey
    ensures KeyNamed("metadata") == NoKey && KeyNamed("type") == TypeKey
  {
  }

  lemma TrimTwoSpaces(s: string)
    ensures TrimSpace([' '] + ([' '] + s)) == TrimSpace(s)
  {
    TrimmedMore([' '] + s, ' ', IsSpace);
    TrimmedMore(s, ' ', IsSpace);
  }

  lemma SpacedKey(s: string)
    requires IsLower(s)
    ensures KeyIn([' '] + ([' '] + s)) == KeyNamed(s) && ':' !in [' '] + ([' '] + s)
  {
    LowerKey(s);
    TrimTwoSpaces(s);
  }

  lemma KindIsLower(kind: string)
    requires kind in KINDS
    ensures IsLower(kind) && kind != ""
  {
  }

  lemma SpacedLower(s: string)
    requires IsLower(s)
    ensures Unquoted(" " + s) == s && TrimSpace(s) == s
  {
    TrimmedMore(s, ' ', IsSpace);
    AlnumTrimSpace(s);
    AlnumTrimQuote(s);
  }

  lemma NamePair(m: Memory, val: string)
    ensures WithPair(m, Pair("name", val)) == m.(name := Unquoted(val))
  {
    KeysAreLower();
    KeysAreKeys();
    LowerKey("name");
  }

  lemma DescriptionPair(m: Memory, val: string)
    ensures WithPair(m, Pair("description", val)) == m.(description := Unquoted(val))
  {
    KeysAreLower();
    KeysAreKeys();
    LowerKey("description");
  }

  lemma MetadataPair(m: Memory, val: string)
    ensures WithPair(m, Pair("metadata", val)) == m
  {
    KeysAreLower();
    KeysAreKeys();
    LowerKey("metadata");
  }

  lemma TypePair(m: Memory, kind: string)
    requires kind in KINDS
    ensures WithPair(m, Pair(TYPE_KEY, " " + kind)) == m.(kind := kind)
  {
    KeysAreLower();
    KeysAreKeys();
    SpacedKey("type");
    KindIsKind(kind);
  }

  lemma KeysHaveNoColon()
    ensures ':' !in "name" && ':' !in "description" && ':' !in "metadata" && ':' !in TYPE_KEY
  {
    KeysAreLower();
    LowerIsOneLine("name");
    LowerIsOneLine("description");
    LowerIsOneLine("metadata");
    SpacedKey("type");
  }

  lemma KindIsKind(kind: string)
    requires kind in KINDS
    ensures kind != "" && Unquoted(" " + kind) == kind && ParseKind(kind) == kind
  {
    KindIsLower(kind);
    SpacedLower(kind);
  }

  lemma FieldOneLine(key: string, val: string)
    requires OneLine(key) && OneLine(val)
    ensures OneLine(Field(key, val)) && StripCr(Field(key, val)) == Field(key, StripCr(val))
  {
    if |val| > 0 {
      assert val == val[..|val| - 1] + [val[|val| - 1]];
      assert Field(key, val)[..|Field(key, val)| - 1] == Field(key, val[..|val| - 1]);
    }
  }

  lemma StripStays(s: string)
    requires |s| > 0 ==> s[|s| - 1] != '\r'
    ensures StripCr(s) == s
  {
  }

  lemma KeysOneLine()
    ensures OneLine("name") && OneLine("description") && OneLine(TYPE_KEY)
  {
  }

  lemma MetadataOneLine()
    ensures OneLine("metadata" + (":" + "")) && StripCr("metadata" + (":" + "")) == "metadata" + (":" + "")
  {
    var s := "metadata" + (":" + "");
    assert s[|s| - 1] == ':';
    StripStays(s);
  }

  lemma SlugIsOneLine(s: string)
    requires IsSlug(s)
    ensures OneLine(s) && StripCr(s) == s
  {
    StripStays(s);
  }

  lemma StripFour(a: string, b: string, c: string, d: string)
    ensures StripAll([a, b, c, d]) == [StripCr(a), StripCr(b), StripCr(c), StripCr(d)]
  {
    assert [a, b, c, d][1..] == [b, c, d] && [b, c, d][1..] == [c, d] && [c, d][1..] == [d];
    assert StripAll([d]) == [StripCr(d)] && StripAll([c, d]) == [StripCr(c), StripCr(d)];
  }

  /** The frontmatter is four lines, and only the description can lose a carriage
      return at its end. */
  lemma FrontStripped(m: Memory)
    requires Named(m) && OneLine(m.description) && m.kind in KINDS
    ensures AllOneLine(FrontLines(m))
    ensures StripAll(FrontLines(m)) == FrontLines(m.(description := StripCr(m.description)))
  {
    KeysOneLine();
    MetadataOneLine();
    SlugIsOneLine(m.name);
    KindIsLower(m.kind);
    LowerIsOneLine(m.kind);
    FieldOneLine("name", m.name);
    FieldOneLine("description", m.description);
    FieldOneLine(TYPE_KEY, m.kind);
    StripFour(Field("name", m.name), Field("description", m.description), "metadata" + (":" + ""), Field(TYPE_KEY, m.kind));
  }

  lemma NotFence(line: string)
    requires |line| > 0 && line[0] != '-'
    ensures !("---" <= line)
  {
    assert line[0] != "---"[0];
  }

  lemma FieldNotFence(key: string, val: string)
    requires |key| > 0 && key[0] != '-'
    ensures !("---" <= Field(key, val))
  {
    NotFence(Field(key, val));
  }

  lemma FrontNotFence(m: Memory)
    ensures forall i :: 0 < i < 4 ==> !("---" <= FrontLines(m)[i])
  {
    FieldNotFence("description", m.description);
    NotFence("metadata" + (":" + ""));
    FieldNotFence(TYPE_KEY, m.kind);
  }

  lemma UnixPlain(s: string)
    requires '\r' !in s
    ensures Unix(s) == s
  {
    UnixStaysIff(s);
  }

  lemma UnixTail(body: string)
    requires |body| > 0 ==> !IsSpace(body[|body| - 1])
    ensures Unix(CLOSE + AfterClose(body)) == CLOSE + AfterClose(Unix(body))
  {
    UnixPlain(CLOSE);
    UnixPlain("\n\n");
    UnixPlain("\n");
    UnixAppend(CLOSE, AfterClose(body));
    UnixAppend("\n\n", body + "\n");
    UnixAppend(body, "\n");
  }

  lemma UnixFenced(rest: string)
    ensures Unix(FENCE + rest) == FENCE + Unix(rest)
  {
    UnixPlain(FENCE);
    UnixAppend(FENCE, rest);
  }

  lemma UnixRendered(m: Memory)
    requires Named(m) && OneLine(m.description) && m.kind in KINDS
    ensures Unix(Render(m)) ==
            FENCE + Fronted(FrontLines(m.(description := StripCr(m.description))), CLOSE + AfterClose(Unix(TrimSpace(m.body))))
  {
    var tail := CLOSE + AfterClose(TrimSpace(m.body));
    TrimCuts(m.body, IsSpace);
    FrontStripped(m);
    UnixTail(TrimSpace(m.body));
    UnixFronted(FrontLines(m), tail);
    UnixFenced(Fronted(FrontLines(m), tail));
  }

  /** The ends of a text that no space ends stay what they are. */
  lemma {:induction false} UnixEdges(s: string)
    requires |s| > 0 && !IsSpace(s[|s| - 1])
    ensures |Unix(s)| > 0 && !IsSpace(Unix(s)[|Unix(s)| - 1])
    ensures !IsSpace(s[0]) ==> !IsSpace(Unix(s)[0])
  {
    if |s| > 1 && s[0] == '\r' && s[1] == '\n' {
      assert |s| > 2;
      UnixEdges(s[2..]);
    } else if |s| > 1 {
      UnixEdges(s[1..]);
    }
  }

  lemma SurroundedTrims(u: string, c: char, cut: char -> bool)
    requires cut(c)
    ensures Trim([c] + (u + [c]), cut) == Trim(u, cut)
  {
    TrimmedMore(u + [c], c, cut);
    TrimmedMore(u, c, cut);
  }

  predicate Edged(s: string) { |s| > 0 ==> !IsSpace(s[0]) && !IsSpace(s[|s| - 1]) }

  lemma UnixKeepsEdges(body: string)
    requires Edged(body)
    ensures Edged(Unix(body))
  {
    if |body| > 0 {
      UnixEdges(body);
    }
  }

  lemma BodyRead(body: string)
    requires Edged(body)
    ensures BodyOf(AfterClose(Unix(body))) == Unix(body)
  {
    UnixKeepsEdges(body);
    BodyAfter(Unix(body));
  }

  lemma AfterOneBreak(u: string)
    ensures AfterClose(u)[0] == '\n' && AfterClose(u)[1..] == ['\n'] + (u + ['\n'])
  {
  }

  lemma BodyAfter(u: string)
    requires Edged(u)
    ensures BodyOf(AfterClose(u)) == u
  {
    AfterOneBreak(u);
    SurroundedTrims(u, '\n', IsSpace);
    TrimStays(u, IsSpace);
  }

  lemma FrontPairs(m: Memory)
    ensures Pairs(FrontLines(m)) ==
            [Pair("name", " " + m.name), Pair("description", " " + m.description), Pair("metadata", ""),
             Pair(TYPE_KEY, " " + m.kind)]
  {
    KeysHaveNoColon();
    MapFour(Field("name", m.name), Field("description", m.description), "metadata" + (":" + ""),
            Field(TYPE_KEY, m.kind), PairOf);
    FieldSays("name", m.name);
    FieldSays("description", m.description);
    LineSays("metadata", "");
    FieldSays(TYPE_KEY, m.kind);
  }

  lemma FrontSays(body: string, m: Memory)
    requires Named(m) && m.kind in KINDS
    ensures WithPairs(Memory("", "", "", body), Pairs(FrontLines(m))) ==
            Memory(m.name, Unquoted(" " + m.description), m.kind, body)
  {
    var start := Memory("", "", "", body);
    FrontPairs(m);
    FoldFour(start, Pair("name", " " + m.name), Pair("description", " " + m.description), Pair("metadata", ""),
             Pair(TYPE_KEY, " " + m.kind), WithPair);
    SlugSpaced(m.name);
    NamePair(start, " " + m.name);
    var one := start.(name := m.name);
    DescriptionPair(one, " " + m.description);
    var two := one.(description := Unquoted(" " + m.description));
    MetadataPair(two, "");
    TypePair(two, m.kind);
  }

  lemma SlugSpaced(s: string)
    requires IsSlug(s)
    ensures Unquoted(" " + s) == s
  {
    TrimmedMore(s, ' ', IsSpace);
    AlnumTrimSpace(s);
    AlnumTrimQuote(s);
  }

  /** What comes back of a named memory with a one-line description. */
  lemma RenderedParses(m: Memory)
    requires Named(m) && OneLine(m.description) && m.kind in KINDS
    ensures Parse(Render(m)) == Memory(m.name, Unquoted(m.description), m.kind, Unix(TrimSpace(m.body)))
  {
    var stripped, after := m.(description := StripCr(m.description)), AfterClose(Unix(TrimSpace(m.body)));
    UnixRendered(m);
    FrontStripped(m);
    FrontStripped(stripped);
    FrontNotFence(stripped);
    SectionsOf(FrontLines(stripped), after);
    SplitFronted(FrontLines(stripped));
    TrimCuts(m.body, IsSpace);
    BodyRead(TrimSpace(m.body));
    FrontSays(Unix(TrimSpace(m.body)), stripped);
    UnquotedValue(m.description);
  }

  predicate OneLineAndKnown(m: Memory)
  {
    OneLine(m.description) && (m.kind == "" || m.kind in KINDS)
  }

  lemma UnquotedOneLine(s: string)
    requires OneLine(s)
    ensures OneLine(Unquoted(s))
  {
    TrimIsPart(s, IsSpace);
    TrimIsPart(TrimSpace(s), IsQuote);
  }

  lemma ValueSaysOneLine(m: Memory, key: Key, val: string)
    requires OneLine(val) && OneLineAndKnown(m)
    ensures OneLineAndKnown(WithValue(m, key, val))
  {
  }

  lemma PairAsValue(m: Memory, p: Pair) returns (k: Key, v: string)
    requires OneLine(p.val)
    ensures WithPair(m, p) == WithValue(m, k, v) && OneLine(v)
  {
    UnquotedOneLine(p.val);
    k, v := KeyIn(p.key), Unquoted(p.val);
  }

  lemma PairSaysOneLine(m: Memory, p: Pair)
    requires OneLine(p.val) && OneLineAndKnown(m)
    ensures OneLineAndKnown(WithPair(m, p))
  {
    var k, v := PairAsValue(m, p);
    ValueSaysOneLine(m, k, v);
  }

  lemma {:induction false} PairsSayOneLine(m: Memory, pairs: seq<Pair>)
    requires OneLineAndKnown(m) && forall i :: 0 <= i < |pairs| ==> OneLine(pairs[i].val)
    ensures OneLineAndKnown(WithPairs(m, pairs))
  {
    if |pairs| > 0 {
      var n := |pairs| - 1;
      PairsSayOneLine(m, pairs[..n]);
      PairSaysOneLine(WithPairs(m, pairs[..n]), pairs[n]);
    }
  }

  lemma TailOneLine(s: string, i: nat)
    requires OneLine(s) && i <= |s|
    ensures OneLine(s[i..])
  {
  }

  lemma PairOneLine(line: string)
    requires OneLine(line)
    ensures OneLine(PairOf(line).val)
  {
    var colon := IndexOf(line, ':');
    if colon < |line| {
      TailOneLine(line, colon + 1);
    }
  }

  lemma PairsOneLine(lines: seq<string>)
    requires AllOneLine(lines)
    ensures |Pairs(lines)| == |lines| && forall i :: 0 <= i < |lines| ==> OneLine(Pairs(lines)[i].val)
  {
    forall i | 0 <= i < |lines| ensures OneLine(Pairs(lines)[i].val) {
      PairOneLine(lines[i]);
    }
  }

  /** No parsed description spans lines, and no parsed kind is unknown. */
  lemma ParsedIsOneLine(raw: string)
    ensures OneLineAndKnown(Parse(raw))
  {
    var parts := Sections(Unix(raw));
    if parts.Some? {
      var lines := Split(parts.value.0, '\n');
      PairsOneLine(lines);
      PairsSayOneLine(Memory("", "", "", BodyOf(parts.value.1)), Pairs(lines));
    }
  }

  /** Parsing undoes rendering, name, description, kind and trimmed body, exactly for
      one-line descriptions with no spaces or quotes at their edges, the four kinds,
      and bodies without "\r\n". */
  lemma RoundTripIff(m: Memory)
    requires Named(m) && m.kind != ""
    ensures Parse(Render(m)) == m.(body := TrimSpace(m.body)) <==>
            Bare(m.description) && m.kind in KINDS && !HasCrlf(TrimSpace(m.body))
  {
    ParsedIsOneLine(Render(m));
    StaysIffNoMargins(m.description);
    if OneLine(m.description) && m.kind in KINDS {
      RenderedParses(m);
      UnixStaysIff(TrimSpace(m.body));
    }
  }
}
