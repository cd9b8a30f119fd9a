/** The directory of memories with its MEMORY.md index (Store of
    internal/memory/memory.go, and sync.go).  A missing directory is an empty one,
    writes succeed, and the secret scan is any predicate on text. */
module MemoryStore {
  import opened Wrappers
  import opened Text
  import opened Sorting
  import opened MemoryFile
  import opened Sequences

  /** Contents by file name. */
  type Directory = map<string, string>

  const INDEX := "MEMORY.md"

  function FileOf(slug: string): string { slug + ".md" }

  predicate IsMemoryFile(f: string)
  {
    |f| >= 3 && f[|f| - 3..] == ".md" && f != INDEX
  }

  // ----------------------------------------------------------------- listing

  predicate Less(a: string, b: string) { StrLeq(a, b) && a != b }

  ghost predicate StrictlySorted(names: seq<string>)
  {
    forall i, j :: 0 <= i < j < |names| ==> Less(names[i], names[j])
  }

  ghost predicate Enumerates(names: seq<string>, s: set<string>)
  {
    StrictlySorted(names) && forall f :: f in names <==> f in s
  }

  lemma EmptyEnumerates(a: seq<string>, s: set<string>)
    requires Enumerates(a, s)
    ensures |a| == 0 <==> s == {}
  {
    if |a| > 0 {
      assert a[0] in s;
    }
  }

  /** There is one sorted list of a set of names. */
  lemma {:induction false} EnumeratesOnce(a: seq<string>, b: seq<string>, s: set<string>)
    requires Enumerates(a, s) && Enumerates(b, s)
    ensures a == b
    decreases |a|
  {
    EmptyEnumerates(a, s);
    EmptyEnumerates(b, s);
    if |a| > 0 {
      assert a[0] in b;
      assert b[0] in a;
      StrLeqTotal(a[0], b[0]);
      EnumeratesRest(a, s);
      EnumeratesRest(b, s);
      EnumeratesOnce(a[1..], b[1..], s - {a[0]});
      assert a == [a[0]] + a[1..] && b == [b[0]] + b[1..];
    }
  }

  lemma EnumeratesRest(a: seq<string>, s: set<string>)
    requires Enumerates(a, s) && |a| > 0
    ensures Enumerates(a[1..], s - {a[0]})
  {
    assert a == [a[0]] + a[1..];
    forall f ensures f in a[1..] <==> f in s - {a[0]} {
      if f in a[1..] {
        var i :| 0 <= i < |a[1..]| && a[1..][i] == f;
        assert a[i + 1] == f && f in a;
      }
    }
  }

  /** Where a name goes into a sorted list. */
  function Place(names: seq<string>, f: string): (i: nat)
    ensures i <= |names| && forall k :: 0 <= k < i ==> StrLeq(names[k], f)
    ensures i < |names| ==> !StrLeq(names[i], f)
  {
    if |names| == 0 || !StrLeq(names[0], f) then 0 else 1 + Place(names[1..], f)
  }

  function Placed(names: seq<string>, f: string): seq<string>
  {
    names[..Place(names, f)] + [f] + names[Place(names, f)..]
  }

  lemma PutBetween<T>(less: (T, T) -> bool, a: seq<T>, x: T, b: seq<T>)
    requires forall i, j :: 0 <= i < j < |a + b| ==> less((a + b)[i], (a + b)[j])
    requires forall i :: 0 <= i < |a| ==> less(a[i], x)
    requires forall i :: 0 <= i < |b| ==> less(x, b[i])
    ensures var c := a + [x] + b; forall i, j :: 0 <= i < j < |c| ==> less(c[i], c[j])
  {
    var c, k := a + [x] + b, |a|;
    forall i, j | 0 <= i < j < |c| ensures less(c[i], c[j]) {
      assert c[i] == if i < k then (a + b)[i] else if i == k then x else (a + b)[i - 1];
      assert c[j] == if j < k then (a + b)[j] else if j == k then x else (a + b)[j - 1];
      assert j > k ==> c[j] == b[j - k - 1];
    }
  }

  lemma PlaceIsBetween(names: seq<string>, f: string, k: nat)
    requires StrictlySorted(names) && f !in names && k < |names|
    ensures if k < Place(names, f) then Less(names[k], f) else Less(f, names[k])
  {
    var i := Place(names, f);
    if k >= i {
      StrLeqTotal(names[i], f);
      if k > i {
        assert Less(names[i], names[k]);
        StrLeqTransitive(f, names[i], names[k]);
      }
    }
  }

  lemma PlacedIsSorted(names: seq<string>, f: string)
    requires StrictlySorted(names) && f !in names
    ensures StrictlySorted(Placed(names, f))
  {
    var i := Place(names, f);
    forall k | 0 <= k < |names| ensures if k < i then Less(names[k], f) else Less(f, names[k]) {
      PlaceIsBetween(names, f, k);
    }
    assert names == names[..i] + names[i..];
    PutBetween(Less, names[..i], f, names[i..]);
  }

  lemma MembersOfInsert<T>(a: seq<T>, x: T, b: seq<T>, y: T)
    ensures y in a + [x] + b <==> y in a + b || y == x
  {
  }

  lemma PlacedEnumerates(names: seq<string>, f: string, s: set<string>)
    requires Enumerates(names, s) && f !in s
    ensures Enumerates(Placed(names, f), s + {f})
  {
    var i := Place(names, f);
    PlacedIsSorted(names, f);
    assert names == names[..i] + names[i..];
    forall g ensures g in Placed(names, f) <==> g in s + {f} {
      MembersOfInsert(names[..i], f, names[i..], g);
    }
  }

  /** os.ReadDir: the names in order. */
  method ReadDir(dir: Directory) returns (names: seq<string>)
    ensures Enumerates(names, dir.Keys)
  {
    names := [];
    var rest := dir.Keys;
    ghost var seen: set<string> := {};
    while rest != {}
      invariant seen !! rest && seen + rest == dir.Keys && Enumerates(names, seen)
      decreases rest
    {
      var f :| f in rest;
      PlacedEnumerates(names, f, seen);
      names := Placed(names, f);
      rest, seen := rest - {f}, seen + {f};
    }
    assert seen == dir.Keys;
  }

  function MemoryFiles(dir: Directory): set<string> { set f | f in dir && IsMemoryFile(f) }

  ghost function AnyOf(s: set<string>): (f: string)
    requires s != {}
    ensures f in s
  {
    var f :| f in s;
    f
  }

  /** The names of a set, in order. */
  ghost function Names(s: set<string>): seq<string>
    decreases |s|
  {
    if s == {} then [] else Placed(Names(s - {AnyOf(s)}), AnyOf(s))
  }

  lemma {:induction false} NamesEnumerate(s: set<string>)
    ensures Enumerates(Names(s), s)
    decreases |s|
  {
    if s != {} {
      var rest := s - {AnyOf(s)};
      NamesEnumerate(rest);
      PlacedEnumerates(Names(rest), AnyOf(s), rest);
      assert rest + {AnyOf(s)} == s;
    }
  }

  /** How a store writes a memory, how it loads one from a file of some name, and
      which memories that keeps. */
  datatype Format = Format(render: Memory -> string, load: (string, string) -> Memory, storable: Memory -> bool)

  /** A memory file as List loads it: nameless ones are named after their file. */
  function LoadFile(f: string, content: string): Memory
  {
    var m := Parse(content);
    if m.name == "" && |f| >= 3 then m.(name := f[..|f| - 3]) else m
  }

  const MARKDOWN := Format(Render, LoadFile, Storable)

  function LoadAll(fmt: Format, dir: Directory, names: seq<string>): (mems: seq<Memory>)
    requires forall i :: 0 <= i < |names| ==> names[i] in dir
    ensures |mems| == |names|
  {
    if |names| == 0 then []
    else
      var n := |names| - 1;
      LoadAll(fmt, dir, names[..n]) + [fmt.load(names[n], dir[names[n]])]
  }

  predicate ByName(a: Memory, b: Memory) { StrLeq(a.name, b.name) }

  lemma NamesAreFiles(dir: Directory)
    ensures forall i :: 0 <= i < |Names(MemoryFiles(dir))| ==>
              Names(MemoryFiles(dir))[i] in dir && IsMemoryFile(Names(MemoryFiles(dir))[i])
  {
    var names := Names(MemoryFiles(dir));
    NamesEnumerate(MemoryFiles(dir));
    forall i | 0 <= i < |names| ensures names[i] in dir && IsMemoryFile(names[i]) {
      assert names[i] in names;
    }
  }

  /** All memories, in the order of their files. */
  ghost function InOrder(fmt: Format, dir: Directory): seq<Memory>
  {
    NamesAreFiles(dir);
    LoadAll(fmt, dir, Names(MemoryFiles(dir)))
  }

  /** List: all memories, by name. */
  ghost function Listed(fmt: Format, dir: Directory): seq<Memory> { Sort(InOrder(fmt, dir), ByName) }

  // -------------------------------------------------------------- operations

  function Pointer(m: Memory): string
  {
    var hook := if m.description == "" then m.kind else m.description;
    "- [" + m.name + "](" + m.name + ".md) \U{2014} " + hook
  }

  /** The line list of MEMORY.md; a memory without a description shows its kind. */
  function IndexLines(mems: seq<Memory>): string
  {
    if |mems| == 0 then "# Memory index\n\n"
    else
      IndexLines(mems[..|mems| - 1]) + Pointer(mems[|mems| - 1]) + "\n"
  }

  /** writeIndex: the directory with its index brought up to date; an empty one has none. */
  ghost function Indexed(fmt: Format, dir: Directory): Directory { WithIndex(dir, Listed(fmt, dir)) }

  function WithIndex(dir: Directory, mems: seq<Memory>): Directory
  {
    if |mems| == 0 then dir - {INDEX} else dir[INDEX := IndexLines(mems)]
  }

  datatype SaveError = NameRequired | HasSecret | EmptySlug

  /** Why a memory cannot be saved, if it cannot. */
  function Refusal(m: Memory, secret: string -> bool): Option<SaveError>
  {
    if TrimSpace(m.name) == "" then Some(NameRequired)
    else if secret(m.body + "\n" + m.description) then Some(HasSecret)
    else if Slug(m.name) == "" then Some(EmptySlug)
    else None
  }

  /** A memory as it is written. */
  function Slugged(m: Memory): Memory
  {
    m.(name := Slug(m.name), kind := if m.kind == "" then "project" else m.kind)
  }

  ghost function Written(fmt: Format, dir: Directory, m: Memory): Directory
  {
    Indexed(fmt, dir[FileOf(m.name) := fmt.render(m)])
  }

  ghost function WrittenUnless(fmt: Format, dir: Directory, m: Memory, refusal: Option<SaveError>): Directory
  {
    if refusal.Some? then dir else Written(fmt, dir, m)
  }

  ghost function Saved(fmt: Format, dir: Directory, m: Memory, secret: string -> bool): Directory
  {
    WrittenUnless(fmt, dir, Slugged(m), Refusal(m, secret))
  }

  ghost predicate IndexWritten(fmt: Format, dir: Directory) { |Listed(fmt, dir)| > 0 || INDEX in dir }

  ghost predicate DeleteSucceeds(fmt: Format, dir: Directory, name: string)
  {
    IndexWritten(fmt, dir - {FileOf(Slug(name))})
  }

  ghost function Deleted(fmt: Format, dir: Directory, name: string): Directory
  {
    Indexed(fmt, dir - {FileOf(Slug(name))})
  }

  datatype Wire = Wire(name: string, description: string, kind: string, body: string)

  function ToWire(m: Memory): Wire { Wire(m.name, m.description, m.kind, m.body) }

  function FromWire(w: Wire): Memory { Memory(w.name, w.description, ParseKind(w.kind), w.body) }

  function ToWires(mems: seq<Memory>): seq<Wire> { MapAll(mems, ToWire) }

  ghost function SaveWire(fmt: Format, secret: string -> bool): (Directory, Wire) -> Directory
  {
    (dir, w) => Saved(fmt, dir, FromWire(w), secret)
  }

  ghost function Imported(fmt: Format, dir: Directory, ws: seq<Wire>, secret: string -> bool): Directory
  {
    FoldAll(dir, ws, SaveWire(fmt, secret))
  }

  type Check = Wire -> Option<SaveError>

  /** Why a wire memory would be refused. */
  function Checked(secret: string -> bool): Check { w => Refusal(FromWire(w), secret) }

  /** How many of the memories can be saved. */
  function Savable(ws: seq<Wire>, refuse: Check): nat
  {
    if |ws| == 0 then 0
    else Savable(ws[..|ws| - 1], refuse) + if refuse(ws[|ws| - 1]).None? then 1 else 0
  }

  /** Errors by name; the last refusal of a name stays. */
  function Refusals(ws: seq<Wire>, refuse: Check): map<string, SaveError>
  {
    if |ws| == 0 then map[]
    else
      var earlier, w := Refusals(ws[..|ws| - 1], refuse), ws[|ws| - 1];
      if refuse(w).Some? then earlier[w.name := refuse(w).value] else earlier
  }

  // ------------------------------------------------------- in plain terms

  /** A memory as its file holds it; a nameless one has the name of the file. */
  ghost predicate Holds(f: string, content: string, m: Memory)
  {
    var p := Parse(content);
    |f| >= 3 && m == if p.name == "" then p.(name := f[..|f| - 3]) else p
  }

  /** `out` are the memories of all .md files but the index, each once, by name. */
  ghost predicate Lists(dir: Directory, files: seq<string>, loaded: seq<Memory>, out: seq<Memory>)
  {
    && (forall i, j :: 0 <= i < j < |files| ==> files[i] != files[j])
    && (forall f :: f in files <==> f in dir && |f| >= 3 && f[|f| - 3..] == ".md" && f != "MEMORY.md")
    && |loaded| == |files|
    && (forall i :: 0 <= i < |files| ==> files[i] in dir && Holds(files[i], dir[files[i]], loaded[i]))
    && multiset(out) == multiset(loaded)
    && forall i, j :: 0 <= i < j < |out| ==> StrLeq(out[i].name, out[j].name)
  }

  lemma {:induction false} LoadedAt(fmt: Format, dir: Directory, names: seq<string>, i: nat)
    requires i < |names| && forall i :: 0 <= i < |names| ==> names[i] in dir
    ensures LoadAll(fmt, dir, names)[i] == fmt.load(names[i], dir[names[i]])
  {
    if i < |names| - 1 {
      LoadedAt(fmt, dir, names[..|names| - 1], i);
    }
  }

  lemma ByNameIsTotalPreorder()
    ensures TotalPreorder(ByName)
  {
    forall a, b ensures ByName(a, b) || ByName(b, a) {
      StrLeqTotal(a.name, b.name);
    }
    forall a, b, c | ByName(a, b) && ByName(b, c) ensures ByName(a, c) {
      StrLeqTransitive(a.name, b.name, c.name);
    }
  }

  lemma ListedIs(dir: Directory) returns (files: seq<string>, loaded: seq<Memory>)
    ensures Lists(dir, files, loaded, Listed(MARKDOWN, dir))
  {
    files, loaded := Names(MemoryFiles(dir)), InOrder(MARKDOWN, dir);
    NamesEnumerate(MemoryFiles(dir));
    NamesAreFiles(dir);
    forall i | 0 <= i < |files| ensures Holds(files[i], dir[files[i]], loaded[i]) {
      LoadedAt(MARKDOWN, dir, files, i);
      assert IsMemoryFile(files[i]);
    }
    ByNameIsTotalPreorder();
    SortIsSorted(loaded, ByName);
  }

  ghost predicate IsListOf(dir: Directory, out: seq<Memory>)
  {
    exists files, loaded :: Lists(dir, files, loaded, out)
  }

  lemma ListedIsList(dir: Directory)
    ensures IsListOf(dir, Listed(MARKDOWN, dir))
  {
    var files, loaded := ListedIs(dir);
  }

  /** A text consists of the index heading and one line for each memory, which shows
      its type where it has no description. */
  ghost predicate Points(text: string, lines: seq<string>, mems: seq<Memory>)
  {
    && |lines| == |mems|
    && (forall i :: 0 <= i < |mems| ==>
          lines[i] == "- [" + mems[i].name + "](" + mems[i].name + ".md) \U{2014} " +
                      if mems[i].description == "" then mems[i].kind else mems[i].description)
    && text == Join(["# Memory index", ""] + lines + [""], "\n")
  }

  lemma LineMore(lines: seq<string>, line: string)
    requires |lines| > 0
    ensures Join(lines + [line] + [""], "\n") == Join(lines + [""], "\n") + line + "\n"
  {
    JoinSnoc(lines + [line], "", "\n");
    JoinSnoc(lines, line, "\n");
    JoinSnoc(lines, "", "\n");
    Breaks(Join(lines, "\n"), "\n", line, "");
  }

  lemma Breaks(j: string, br: string, line: string, none: string)
    requires none == ""
    ensures (j + (br + line)) + (br + none) == (j + (br + none)) + line + br
  {
  }

  lemma {:induction false} IndexPoints(mems: seq<Memory>) returns (lines: seq<string>)
    ensures Points(IndexLines(mems), lines, mems)
  {
    var head := ["# Memory index", ""];
    if |mems| == 0 {
      lines := [];
      JoinSnoc(head, "", "\n");
      JoinSnoc(["# Memory index"], "", "\n");
      assert ["# Memory index"] + [""] == head && head + [] == head;
      assert "# Memory index" + ("\n" + "") + ("\n" + "") == "# Memory index\n\n";
    } else {
      var n := |mems| - 1;
      var before := IndexPoints(mems[..n]);
      lines := before + [Pointer(mems[n])];
      LineMore(head + before, Pointer(mems[n]));
      assert head + lines == (head + before) + [Pointer(mems[n])];
    }
  }

  /** The index is brought up to date: it points to what is listed, or is removed
      where nothing is, which fails if it is not there. */
  ghost predicate IndexBrought(before: Directory, after: Directory, ok: bool)
  {
    exists mems ::
      && IsListOf(before, mems)
      && if |mems| == 0 then after == before - {"MEMORY.md"} && (ok <==> "MEMORY.md" in before)
         else ok && exists text, lines :: Points(text, lines, mems) && after == before["MEMORY.md" := text]
  }

  lemma IndexedBrings(dir: Directory)
    ensures IndexBrought(dir, Indexed(MARKDOWN, dir), IndexWritten(MARKDOWN, dir))
  {
    var mems := Listed(MARKDOWN, dir);
    ListedIsList(dir);
    var lines := IndexPoints(mems);
    assert Points(IndexLines(mems), lines, mems);
  }

  ghost predicate Blank(name: string) { forall c :: c in name ==> IsSpace(c) }

  /** No letter and no digit: nothing a slug could keep. */
  ghost predicate Wordless(name: string) { forall c :: c in LowerAll(name) ==> NotInSlug(c) }

  lemma BlankIff(name: string)
    ensures TrimSpace(name) == "" <==> Blank(name)
  {
    var a, b := TrimmedSpaces(name);
    TrimIsPart(name, IsSpace);
    TrimCuts(name, IsSpace);
    var t := TrimSpace(name);
    assert t != "" ==> t[0] in t && !IsSpace(t[0]);
    assert t == "" ==> name == a + b;
  }

  /** What Save refuses, and why. */
  lemma RefusalIs(m: Memory, secret: string -> bool)
    ensures var hidden := secret(m.body + "\n" + m.description);
            Refusal(m, secret) ==
              if Blank(m.name) then Some(NameRequired)
              else if hidden then Some(HasSecret)
              else if Wordless(m.name) then Some(EmptySlug)
              else None
  {
    BlankIff(m.name);
    SlugIsEmptyIff(m.name);
  }

  /** The memory is in the file that its words name, the type defaults to project, no
      other file has changed, and the index is up to date. */
  ghost predicate Stored(m: Memory, before: Directory, after: Directory)
  {
    var slug := Join(FieldsFunc(LowerAll(m.name), NotInSlug), "-");
    var kind := if m.kind == "" then "project" else m.kind;
    var text := Join(FileLines(slug, m.description, kind, m.body), "\n");
    IndexBrought(before[slug + ".md" := text], after, true)
  }

  lemma SlugFile(s: string)
    requires IsSlug(s)
    ensures IsMemoryFile(FileOf(s))
  {
    var f := FileOf(s);
    assert f[|f| - 3..] == ".md";
    assert |s| > 0 ==> f[0] == s[0] && f[0] != INDEX[0];
  }

  lemma SavedText(m: Memory)
    ensures var slug := Join(FieldsFunc(LowerAll(m.name), NotInSlug), "-");
            var kind := if m.kind == "" then "project" else m.kind;
            && FileOf(Slugged(m).name) == slug + ".md"
            && Render(Slugged(m)) == Join(FileLines(slug, m.description, kind, m.body), "\n")
  {
    SlugIsWords(m.name);
    RenderedLines(Slugged(m));
  }

  lemma SavedAs(dir: Directory, m: Memory, secret: string -> bool)
    requires Refusal(m, secret).None?
    ensures Saved(MARKDOWN, dir, m, secret) == Indexed(MARKDOWN, dir[FileOf(Slugged(m).name) := Render(Slugged(m))])
  {
  }

  lemma SavedIs(dir: Directory, m: Memory, secret: string -> bool)
    requires Refusal(m, secret).None?
    ensures Stored(m, dir, Saved(MARKDOWN, dir, m, secret))
  {
    SavedText(m);
    SavedAs(dir, m, secret);
    SlugIsSlug(m.name);
    SlugFile(Slugged(m).name);
    FileBrought(dir, FileOf(Slugged(m).name), Render(Slugged(m)));
  }

  lemma FileBrought(dir: Directory, f: string, text: string)
    requires IsMemoryFile(f)
    ensures IndexBrought(dir[f := text], Indexed(MARKDOWN, dir[f := text]), true)
  {
    IndexedBrings(dir[f := text]);
    ListsFile(dir[f := text], f);
  }

  /** A directory with a memory file has an index. */
  lemma ListsFile(dir: Directory, f: string)
    requires f in dir && IsMemoryFile(f)
    ensures IndexWritten(MARKDOWN, dir)
  {
    var files, loaded := ListedIs(dir);
    assert f in files && |multiset(loaded)| == |loaded|;
    assert |Listed(MARKDOWN, dir)| == |multiset(Listed(MARKDOWN, dir))|;
  }

  lemma LoadOneMore(dir: Directory, names: seq<string>, f: string)
    requires f in dir && forall i :: 0 <= i < |names| ==> names[i] in dir
    ensures LoadAll(MARKDOWN, dir, names + [f]) == LoadAll(MARKDOWN, dir, names) + [LoadFile(f, dir[f])]
  {
    assert (names + [f])[..|names|] == names;
  }

  lemma SaveWireSaves(fmt: Format, dir: Directory, w: Wire, secret: string -> bool)
    ensures SaveWire(fmt, secret)(dir, w) == Saved(fmt, dir, FromWire(w), secret)
  {
  }

  lemma CountedMore(ws: seq<Wire>, i: nat, refuse: Check)
    requires i < |ws|
    ensures Savable(ws[..i + 1], refuse) == Savable(ws[..i], refuse) + (if refuse(ws[i]).None? then 1 else 0)
    ensures Refusals(ws[..i + 1], refuse) ==
            if refuse(ws[i]).Some? then Refusals(ws[..i], refuse)[ws[i].name := refuse(ws[i]).value]
            else Refusals(ws[..i], refuse)
  {
    assert ws[..i + 1][..i] == ws[..i];
  }

  /** Where the memories stand that are not refused. */
  ghost function Passed(ws: seq<Wire>, refuse: Check): set<int>
  {
    set i | 0 <= i < |ws| && refuse(ws[i]).None?
  }

  lemma PassedMore(ws: seq<Wire>, w: Wire, refuse: Check)
    ensures Passed(ws + [w], refuse) == Passed(ws, refuse) + if refuse(w).None? then {|ws|} else {}
  {
    forall i ensures i in Passed(ws + [w], refuse) <==>
                     i in Passed(ws, refuse) || (i == |ws| && refuse(w).None?) {
      assert 0 <= i < |ws| ==> (ws + [w])[i] == ws[i];
    }
  }

  /** The count of Import is the number of these, */
  lemma {:induction false} SavableCounts(ws: seq<Wire>, refuse: Check)
    ensures Savable(ws, refuse) == |Passed(ws, refuse)|
  {
    if |ws| > 0 {
      var n := |ws| - 1;
      SavableCounts(ws[..n], refuse);
      PassedMore(ws[..n], ws[n], refuse);
      assert ws == ws[..n] + [ws[n]] && n !in Passed(ws[..n], refuse);
    }
  }

  /** and its errors are the refusals, under each name the last one of that name. */
  lemma {:induction false} RefusalsByName(ws: seq<Wire>, refuse: Check, k: nat)
    requires k < |ws| && refuse(ws[k]).Some?
    ensures ws[k].name in Refusals(ws, refuse)
    ensures (forall j :: k < j < |ws| && refuse(ws[j]).Some? ==> ws[j].name != ws[k].name) ==>
              Refusals(ws, refuse)[ws[k].name] == refuse(ws[k]).value
  {
    var n := |ws| - 1;
    if k < n {
      RefusalsByName(ws[..n], refuse, k);
    }
  }

  lemma {:induction false} RefusalsOnly(ws: seq<Wire>, refuse: Check, name: string) returns (k: nat)
    requires name in Refusals(ws, refuse)
    ensures k < |ws| && refuse(ws[k]).Some? && ws[k].name == name
  {
    var n := |ws| - 1;
    if refuse(ws[n]).Some? && ws[n].name == name {
      k := n;
    } else {
      k := RefusalsOnly(ws[..n], refuse, name);
    }
  }

  class Store {
    var dir: Directory
    const secret: string -> bool

    constructor (dir: Directory, secret: string -> bool)
      ensures this.dir == dir && this.secret == secret
    {
      this.dir, this.secret := dir, secret;
    }

    /** The memory files among the names, in order, and what they hold. */
    method LoadMemories(names: seq<string>) returns (out: seq<Memory>)
      requires Enumerates(names, dir.Keys)
      ensures out == InOrder(MARKDOWN, dir)
    {
      out := [];
      ghost var kept: seq<string> := [];
      for i := 0 to |names|
        invariant KeptOf(names, i, kept)
        invariant forall k :: 0 <= k < |kept| ==> kept[k] in dir
        invariant out == LoadAll(MARKDOWN, dir, kept)
      {
        var f := names[i];
        assert f in names;
        if !IsMemoryFile(f) {
          KeepNot(names, i, kept);
          continue;
        }
        var m := ParseFile(dir[f]);
        if m.name == "" {
          m := m.(name := f[..|f| - 3]);
        }
        Keep(names, i, kept);
        LoadOneMore(dir, kept, f);
        out := out + [m];
        kept := kept + [f];
      }
      KeptAll(names, kept, dir);
      NamesAreFiles(dir);
    }

    /** List */
    method List() returns (out: seq<Memory>)
      ensures out == Listed(MARKDOWN, dir) && IsListOf(dir, out)
    {
      ListedIsList(dir);
      var names := ReadDir(dir);
      out := LoadMemories(names);
      out := Sort(out, ByName);
    }

    method IndexText(mems: seq<Memory>) returns (text: string)
      ensures text == IndexLines(mems)
    {
      text := "# Memory index\n\n";
      for i := 0 to |mems|
        invariant text == IndexLines(mems[..i])
      {
        assert mems[..i + 1][..i] == mems[..i];
        var m := mems[i];
        var hook := if m.description == "" then m.kind else m.description;
        var line := "- [" + m.name + "](" + m.name + ".md) \U{2014} " + hook;
        text := text + line + "\n";
      }
      assert mems[..|mems|] == mems;
    }

    /** writeIndex: whether it ended without an error; removing an index that is not
        there is one. */
    method WriteIndex() returns (ok: bool)
      modifies this
      ensures dir == Indexed(MARKDOWN, old(dir)) && ok == IndexWritten(MARKDOWN, old(dir))
      ensures IndexBrought(old(dir), dir, ok)
    {
      IndexedBrings(dir);
      var mems := List();
      var text := IndexText(mems);
      if |mems| == 0 {
        ok := INDEX in dir;
        dir := dir - {INDEX};
      } else {
        ok := true;
        dir := dir[INDEX := text];
      }
    }

    /** The checks of Save. */
    method Refuse(m: Memory) returns (err: Option<SaveError>)
      ensures err == Refusal(m, secret)
    {
      if TrimSpace(m.name) == "" {
        return Some(NameRequired);
      }
      if secret(m.body + "\n" + m.description) {
        return Some(HasSecret);
      }
      var slug := Slugify(m.name);
      return if slug == "" then Some(EmptySlug) else None;
    }

    method Prepare(m: Memory) returns (ready: Memory)
      ensures ready == Slugged(m)
    {
      var slug := Slugify(m.name);
      ready := m.(name := slug, kind := if m.kind == "" then "project" else m.kind);
    }

    method Save(m: Memory) returns (err: Option<SaveError>)
      modifies this
      ensures dir == Saved(MARKDOWN, old(dir), m, secret) && err == Refusal(m, secret)
      ensures err == (if Blank(m.name) then Some(NameRequired)
                      else if secret(m.body + "\n" + m.description) then Some(HasSecret)
                      else if Wordless(m.name) then Some(EmptySlug)
                      else None)
      ensures if err.Some? then dir == old(dir) else Stored(m, old(dir), dir)
    {
      RefusalIs(m, secret);
      err := Refuse(m);
      if err.Some? {
        return;
      }
      SavedIs(dir, m, secret);
      var ready := Prepare(m);
      Write(ready);
    }

    method Write(m: Memory)
      modifies this
      ensures dir == Written(MARKDOWN, old(dir), m)
    {
      dir := dir[FileOf(m.name) := Render(m)];
      var _ := WriteIndex();
    }

    method Delete(name: string) returns (ok: bool)
      modifies this
      ensures dir == Deleted(MARKDOWN, old(dir), name) && ok == DeleteSucceeds(MARKDOWN, old(dir), name)
    {
      var slug := Slugify(name);
      dir := dir - {FileOf(slug)};
      ok := WriteIndex();
    }

    method Export() returns (out: seq<Wire>)
      ensures out == ToWires(Listed(MARKDOWN, dir))
    {
      var mems := List();
      out := WireAll(mems);
    }

    method WireAll(mems: seq<Memory>) returns (out: seq<Wire>)
      ensures out == ToWires(mems)
    {
      out := [];
      for i := 0 to |mems|
        invariant out == ToWires(mems[..i])
      {
        assert mems[..i + 1][..i] == mems[..i];
        out := out + [ToWire(mems[i])];
      }
      assert mems[..|mems|] == mems;
    }

    /** One wire memory of Import: whether it counts as saved, or is an error. */
    method ImportOne(w: Wire, count: nat, before: map<string, SaveError>) returns (n: nat, errs: map<string, SaveError>)
      modifies this
      ensures dir == Saved(MARKDOWN, old(dir), FromWire(w), secret)
      ensures var refusal := Refusal(FromWire(w), secret);
              && n == count + (if refusal.None? then 1 else 0)
              && errs == if refusal.Some? then before[w.name := refusal.value] else before
    {
      n, errs := count, before;
      var err := Save(FromWire(w));
      if err.Some? {
        errs := errs[w.name := err.value];
        return;
      }
      n := n + 1;
    }

    /** Import: how many were saved, and the refusals by name. */
    method Import(ws: seq<Wire>) returns (n: nat, errs: map<string, SaveError>)
      modifies this
      ensures dir == Imported(MARKDOWN, old(dir), ws, secret)
      ensures n == Savable(ws, Checked(secret)) && errs == Refusals(ws, Checked(secret))
      ensures n == |set i | 0 <= i < |ws| && Refusal(FromWire(ws[i]), secret).None?|
    {
      n, errs := 0, map[];
      for i := 0 to |ws|
        invariant dir == FoldAll(old(dir), ws[..i], SaveWire(MARKDOWN, secret))
        invariant n == Savable(ws[..i], Checked(secret)) && errs == Refusals(ws[..i], Checked(secret))
      {
        FoldUpTo(old(dir), ws, i, SaveWire(MARKDOWN, secret));
        SaveWireSaves(MARKDOWN, dir, ws[i], secret);
        CountedMore(ws, i, Checked(secret));
        n, errs := ImportOne(ws[i], n, errs);
      }
      assert ws[..|ws|] == ws;
      SavableCounts(ws, Checked(secret));
      assert Passed(ws, Checked(secret)) == set i | 0 <= i < |ws| && Refusal(FromWire(ws[i]), secret).None?;
    }
  }

  /** `kept` are the memory files among the first `i` names. */
  ghost predicate KeptOf(names: seq<string>, i: nat, kept: seq<string>)
    requires i <= |names|
  {
    && StrictlySorted(kept)
    && (forall f :: f in kept ==> f in names[..i] && IsMemoryFile(f))
    && (forall f :: f in names[..i] && IsMemoryFile(f) ==> f in kept)
  }

  lemma KeepNot(names: seq<string>, i: nat, kept: seq<string>)
    requires i < |names| && KeptOf(names, i, kept) && !IsMemoryFile(names[i])
    ensures KeptOf(names, i + 1, kept)
  {
    assert names[..i + 1] == names[..i] + [names[i]];
  }

  lemma Keep(names: seq<string>, i: nat, kept: seq<string>)
    requires i < |names| && StrictlySorted(names) && KeptOf(names, i, kept) && IsMemoryFile(names[i])
    ensures KeptOf(names, i + 1, kept + [names[i]])
  {
    assert names[..i + 1] == names[..i] + [names[i]];
    forall k | 0 <= k < |kept| ensures StrLeq(kept[k], names[i]) && kept[k] != names[i] {
      assert kept[k] in kept;
      var j :| 0 <= j < i && names[..i][j] == kept[k];
      assert names[j] == kept[k];
    }
  }

  lemma KeptAll(names: seq<string>, kept: seq<string>, dir: Directory)
    requires Enumerates(names, dir.Keys) && KeptOf(names, |names|, kept)
    ensures kept == Names(MemoryFiles(dir))
  {
    assert names[..|names|] == names;
    NamesEnumerate(MemoryFiles(dir));
    EnumeratesOnce(kept, Names(MemoryFiles(dir)), MemoryFiles(dir));
  }
}
