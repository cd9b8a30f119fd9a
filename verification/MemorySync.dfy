/** What the store of memories keeps (internal/memory/sync.go and memory.go): stores
    written by Save and Delete alone list what was saved, and Import of Export
    rebuilds them.

    The lemmas are about stores of any file format that gives storable memories
    back; at the end they are brought together for the markdown files of
    MemoryFile, which are such a format. */
module MemorySync {
  import opened Wrappers
  import opened Text
  import opened Sorting
  import opened MemoryFile
  import opened Sequences
  import opened MemoryRoundTrip
  import opened MemoryStore

  /** Memories by file. */
  type Memories = map<string, Memory>

  ghost predicate Filed(fmt: Format, f: string, m: Memory) { fmt.storable(m) && f == FileOf(m.name) }

  /** Storable memories are in memory files, and come back from them as they are. */
  ghost predicate Faithful(fmt: Format)
  {
    forall m :: fmt.storable(m) ==> IsMemoryFile(FileOf(m.name)) && fmt.load(FileOf(m.name), fmt.render(m)) == m
  }

  ghost predicate AllFiled(fmt: Format, mems: Memories)
  {
    forall f :: f in mems ==> Filed(fmt, f, mems[f])
  }

  function Contents(fmt: Format, mems: Memories): Directory { map f | f in mems :: fmt.render(mems[f]) }

  /** The store holds these memories, each in the file of its slug, and nothing else
      but an index that is up to date. */
  ghost predicate Clean(fmt: Format, dir: Directory, mems: Memories)
  {
    AllFiled(fmt, mems) && dir - {INDEX} == Contents(fmt, mems) && dir == Indexed(fmt, dir)
  }

  lemma FiledIsMemoryFile(fmt: Format, f: string, m: Memory)
    requires Faithful(fmt) && Filed(fmt, f, m)
    ensures IsMemoryFile(f)
  {
  }

  // ------------------------------------------------ what listing depends on

  ghost predicate SameMemories(a: Directory, b: Directory)
  {
    forall f :: IsMemoryFile(f) ==> (f in a <==> f in b) && (f in a ==> a[f] == b[f])
  }

  lemma {:induction false} SameLoaded(fmt: Format, a: Directory, b: Directory, names: seq<string>)
    requires forall i :: 0 <= i < |names| ==> names[i] in a && IsMemoryFile(names[i])
    requires SameMemories(a, b)
    ensures forall i :: 0 <= i < |names| ==> names[i] in b
    ensures LoadAll(fmt, a, names) == LoadAll(fmt, b, names)
  {
    if |names| > 0 {
      SameLoaded(fmt, a, b, names[..|names| - 1]);
      assert IsMemoryFile(names[|names| - 1]);
    }
  }

  lemma SameListed(fmt: Format, a: Directory, b: Directory)
    requires SameMemories(a, b)
    ensures Listed(fmt, a) == Listed(fmt, b)
  {
    assert MemoryFiles(a) == MemoryFiles(b);
    NamesAreFiles(a);
    SameLoaded(fmt, a, b, Names(MemoryFiles(a)));
  }

  lemma SameButIndex(a: Directory, b: Directory)
    requires a - {INDEX} == b - {INDEX}
    ensures SameMemories(a, b)
  {
    forall f | f != INDEX ensures (f in a <==> f in b) && (f in a ==> a[f] == b[f]) {
      assert f in a - {INDEX} <==> f in b - {INDEX};
      assert f in a ==> (a - {INDEX})[f] == a[f];
      assert f in b ==> (b - {INDEX})[f] == b[f];
    }
  }

  lemma UpdateOnce(a: Directory, b: Directory, k: string, v: string)
    requires a - {k} == b - {k}
    ensures a[k := v] == b[k := v]
  {
    assert a[k := v] == (a - {k})[k := v];
    assert b[k := v] == (b - {k})[k := v];
  }

  lemma WithIndexOnce(a: Directory, b: Directory, mems: seq<Memory>)
    requires a - {INDEX} == b - {INDEX}
    ensures WithIndex(a, mems) == WithIndex(b, mems)
  {
    UpdateOnce(a, b, INDEX, IndexLines(mems));
  }

  /** The index does not depend on the index. */
  lemma IndexedOnce(fmt: Format, a: Directory, b: Directory)
    requires a - {INDEX} == b - {INDEX}
    ensures Indexed(fmt, a) == Indexed(fmt, b)
  {
    SameButIndex(a, b);
    SameListed(fmt, a, b);
    WithIndexOnce(a, b, Listed(fmt, a));
  }

  lemma IndexedElsewhere(fmt: Format, dir: Directory)
    ensures Indexed(fmt, dir) - {INDEX} == dir - {INDEX}
  {
  }

  /** Writing the index changes no memory, so writing it twice is writing it once. */
  lemma IndexedTwice(fmt: Format, dir: Directory)
    ensures Indexed(fmt, dir) - {INDEX} == dir - {INDEX} && Indexed(fmt, Indexed(fmt, dir)) == Indexed(fmt, dir)
  {
    IndexedElsewhere(fmt, dir);
    IndexedOnce(fmt, Indexed(fmt, dir), dir);
  }

  lemma IndexedIsClean(fmt: Format, dir: Directory, mems: Memories)
    requires AllFiled(fmt, mems) && dir - {INDEX} == Contents(fmt, mems)
    ensures Clean(fmt, Indexed(fmt, dir), mems)
  {
    IndexedTwice(fmt, dir);
  }

  /** A clean store is determined by its memories. */
  lemma CleanOnce(fmt: Format, a: Directory, b: Directory, mems: Memories)
    requires Clean(fmt, a, mems) && Clean(fmt, b, mems)
    ensures a == b
  {
    IndexedOnce(fmt, a, b);
  }

  // --------------------------------------------------- what a store lists

  lemma FileLoads(fmt: Format, dir: Directory, mems: Memories, f: string)
    requires Faithful(fmt) && AllFiled(fmt, mems) && dir - {INDEX} == Contents(fmt, mems) && f in dir && IsMemoryFile(f)
    ensures f in mems && fmt.load(f, dir[f]) == mems[f]
  {
    assert f in dir - {INDEX} && (dir - {INDEX})[f] == dir[f];
    assert Filed(fmt, f, mems[f]);
  }

  /** The memory at each place of the loaded list is that of a file. */
  lemma LoadedIsStored(fmt: Format, dir: Directory, mems: Memories, i: nat)
    requires Faithful(fmt) && AllFiled(fmt, mems) && dir - {INDEX} == Contents(fmt, mems) && i < |InOrder(fmt, dir)|
    ensures FileOf(InOrder(fmt, dir)[i].name) in mems && mems[FileOf(InOrder(fmt, dir)[i].name)] == InOrder(fmt, dir)[i]
  {
    var names := Names(MemoryFiles(dir));
    NamesAreFiles(dir);
    LoadedAt(fmt, dir, names, i);
    FileLoads(fmt, dir, mems, names[i]);
    assert Filed(fmt, names[i], mems[names[i]]);
  }

  lemma NameAt(dir: Directory, f: string) returns (i: nat)
    requires f in dir && IsMemoryFile(f)
    ensures i < |Names(MemoryFiles(dir))| && Names(MemoryFiles(dir))[i] == f
  {
    NamesEnumerate(MemoryFiles(dir));
    assert f in MemoryFiles(dir) && f in Names(MemoryFiles(dir));
    i :| 0 <= i < |Names(MemoryFiles(dir))| && Names(MemoryFiles(dir))[i] == f;
  }

  lemma StoredInDir(fmt: Format, dir: Directory, mems: Memories, f: string)
    requires Faithful(fmt) && AllFiled(fmt, mems) && dir - {INDEX} == Contents(fmt, mems) && f in mems
    ensures f in dir && IsMemoryFile(f)
  {
    assert f in Contents(fmt, mems) && Filed(fmt, f, mems[f]);
    FiledIsMemoryFile(fmt, f, mems[f]);
  }

  lemma StoredIsLoaded(fmt: Format, dir: Directory, mems: Memories, f: string)
    requires Faithful(fmt) && AllFiled(fmt, mems) && dir - {INDEX} == Contents(fmt, mems) && f in mems
    ensures mems[f] in InOrder(fmt, dir)
  {
    StoredInDir(fmt, dir, mems, f);
    NamesAreFiles(dir);
    var i := NameAt(dir, f);
    LoadedAt(fmt, dir, Names(MemoryFiles(dir)), i);
    FileLoads(fmt, dir, mems, f);
  }

  /** Listing a clean store gives its memories, all of them and nothing else, sorted
      by name. */
  lemma CleanLists(fmt: Format, dir: Directory, mems: Memories)
    requires Faithful(fmt) && Clean(fmt, dir, mems)
    ensures Sorted(Listed(fmt, dir), ByName)
    ensures forall m :: m in Listed(fmt, dir) <==> FileOf(m.name) in mems && mems[FileOf(m.name)] == m
  {
    ByNameIsTotalPreorder();
    SortIsSorted(InOrder(fmt, dir), ByName);
    forall m ensures m in Listed(fmt, dir) <==> FileOf(m.name) in mems && mems[FileOf(m.name)] == m {
      SameMembers(Listed(fmt, dir), InOrder(fmt, dir), m);
      if m in InOrder(fmt, dir) {
        var i :| 0 <= i < |InOrder(fmt, dir)| && InOrder(fmt, dir)[i] == m;
        LoadedIsStored(fmt, dir, mems, i);
      }
      if FileOf(m.name) in mems && mems[FileOf(m.name)] == m {
        StoredIsLoaded(fmt, dir, mems, FileOf(m.name));
      }
    }
  }

  // --------------------------------------------------------------- operations

  /** A memory as it will come back. */
  function Stored(m: Memory): Memory { Slugged(m).(body := TrimSpace(m.body)) }

  lemma RenderedTrimmed(m: Memory, n: Memory)
    requires n == m.(body := TrimSpace(m.body))
    ensures Render(m) == Render(n)
  {
    TrimTwice(m.body, IsSpace);
  }

  lemma UpdateElsewhere(a: Directory, k: string, v: string, x: string)
    requires k != x
    ensures a[k := v] - {x} == (a - {x})[k := v]
  {
  }

  lemma DropElsewhere(a: Directory, k: string, x: string)
    ensures a - {k} - {x} == a - {x} - {k}
  {
  }

  lemma ContentsMore(fmt: Format, mems: Memories, f: string, m: Memory)
    ensures Contents(fmt, mems[f := m]) == Contents(fmt, mems)[f := fmt.render(m)]
  {
  }

  lemma ContentsFewer(fmt: Format, mems: Memories, f: string)
    ensures Contents(fmt, mems - {f}) == Contents(fmt, mems) - {f}
  {
  }

  lemma PutKeepsClean(fmt: Format, dir: Directory, mems: Memories, f: string, m: Memory, content: string)
    requires Faithful(fmt) && Clean(fmt, dir, mems) && Filed(fmt, f, m) && content == fmt.render(m)
    ensures Clean(fmt, Indexed(fmt, dir[f := content]), mems[f := m])
  {
    FiledIsMemoryFile(fmt, f, m);
    UpdateElsewhere(dir, f, content, INDEX);
    ContentsMore(fmt, mems, f, m);
    IndexedIsClean(fmt, dir[f := content], mems[f := m]);
  }

  lemma DropKeepsClean(fmt: Format, dir: Directory, mems: Memories, f: string)
    requires Clean(fmt, dir, mems) && f != INDEX
    ensures Clean(fmt, Indexed(fmt, dir - {f}), mems - {f})
  {
    DropElsewhere(dir, f, INDEX);
    ContentsFewer(fmt, mems, f);
    IndexedIsClean(fmt, dir - {f}, mems - {f});
  }

  lemma WriteKeepsClean(fmt: Format, dir: Directory, mems: Memories, m: Memory, n: Memory)
    requires Faithful(fmt) && Clean(fmt, dir, mems) && fmt.storable(n) && m.name == n.name && fmt.render(m) == fmt.render(n)
    ensures Clean(fmt, Written(fmt, dir, m), mems[FileOf(n.name) := n])
  {
    PutKeepsClean(fmt, dir, mems, FileOf(n.name), n, fmt.render(m));
  }

  lemma NothingLoaded(fmt: Format, dir: Directory)
    requires MemoryFiles(dir) == {}
    ensures Listed(fmt, dir) == []
  {
    assert Names({}) == [];
  }

  lemma EmptyIsClean(fmt: Format)
    ensures Clean(fmt, map[], map[])
  {
    NothingLoaded(fmt, map[]);
  }

  lemma ListsSome(fmt: Format, dir: Directory, mems: Memories)
    requires Faithful(fmt) && Clean(fmt, dir, mems)
    ensures |Listed(fmt, dir)| > 0 <==> mems != map[]
  {
    CleanLists(fmt, dir, mems);
    if |Listed(fmt, dir)| > 0 {
      assert Listed(fmt, dir)[0] in Listed(fmt, dir);
    }
    if mems != map[] {
      var f :| f in mems;
      assert Filed(fmt, f, mems[f]);
      assert mems[f] in Listed(fmt, dir);
    }
  }

  /** A clean store has an index exactly when it has memories. */
  lemma IndexThereIff(fmt: Format, dir: Directory, mems: Memories)
    requires Faithful(fmt) && Clean(fmt, dir, mems)
    ensures INDEX in dir <==> mems != map[]
  {
    ListsSome(fmt, dir, mems);
  }

  lemma NoFilesBut(dir: Directory, f: string)
    requires dir - {INDEX} == map[]
    ensures MemoryFiles(dir - {f}) == {}
  {
    assert forall g :: g in dir && g != INDEX ==> g in dir - {INDEX};
  }

  lemma IndexWrittenIff(fmt: Format, dir: Directory, mems: Memories, f: string)
    requires Faithful(fmt) && Clean(fmt, dir, mems) && f != INDEX
    ensures IndexWritten(fmt, dir - {f}) <==> mems != map[]
  {
    IndexThereIff(fmt, dir, mems);
    assert INDEX in dir - {f} <==> INDEX in dir;
    if mems == map[] {
      NoFilesBut(dir, f);
      NothingLoaded(fmt, dir - {f});
    }
  }

  // ------------------------------------------------------- import of export

  /** The memories of the first `k` of a list, by file. */
  ghost function FiledFirst(list: seq<Memory>, k: nat): Memories
    requires k <= |list|
  {
    if k == 0 then map[] else FiledFirst(list, k - 1)[FileOf(list[k - 1].name) := list[k - 1]]
  }

  lemma {:induction false} FiledFirstHolds(list: seq<Memory>, k: nat, mems: Memories)
    requires k <= |list| && forall i :: 0 <= i < k ==> FileOf(list[i].name) in mems && mems[FileOf(list[i].name)] == list[i]
    ensures forall f :: f in FiledFirst(list, k) ==> f in mems && FiledFirst(list, k)[f] == mems[f]
    ensures forall i :: 0 <= i < k ==> FileOf(list[i].name) in FiledFirst(list, k)
  {
    if k > 0 {
      FiledFirstHolds(list, k - 1, mems);
    }
  }

  lemma ListedAt(fmt: Format, dir: Directory, mems: Memories, f: string) returns (i: nat)
    requires Faithful(fmt) && Clean(fmt, dir, mems) && f in mems
    ensures i < |Listed(fmt, dir)| && Listed(fmt, dir)[i] == mems[f] && FileOf(Listed(fmt, dir)[i].name) == f
  {
    CleanLists(fmt, dir, mems);
    assert Filed(fmt, f, mems[f]);
    assert mems[f] in Listed(fmt, dir);
    i :| 0 <= i < |Listed(fmt, dir)| && Listed(fmt, dir)[i] == mems[f];
  }

  lemma ListedIsFiled(fmt: Format, dir: Directory, mems: Memories, i: nat)
    requires Faithful(fmt) && Clean(fmt, dir, mems) && i < |Listed(fmt, dir)|
    ensures FileOf(Listed(fmt, dir)[i].name) in mems && mems[FileOf(Listed(fmt, dir)[i].name)] == Listed(fmt, dir)[i]
  {
    CleanLists(fmt, dir, mems);
    assert Listed(fmt, dir)[i] in Listed(fmt, dir);
  }

  lemma SameMap<K, V>(a: map<K, V>, b: map<K, V>)
    requires forall k :: k in a ==> k in b && a[k] == b[k]
    requires forall k :: k in b ==> k in a
    ensures a == b
  {
  }

  /** The whole list gives all the memories of the store. */
  lemma FiledAll(fmt: Format, dir: Directory, mems: Memories)
    requires Faithful(fmt) && Clean(fmt, dir, mems)
    ensures FiledFirst(Listed(fmt, dir), |Listed(fmt, dir)|) == mems
  {
    var list := Listed(fmt, dir);
    forall i | 0 <= i < |list| ensures FileOf(list[i].name) in mems && mems[FileOf(list[i].name)] == list[i] {
      ListedIsFiled(fmt, dir, mems, i);
    }
    FiledFirstHolds(list, |list|, mems);
    forall f | f in mems ensures f in FiledFirst(list, |list|) {
      var i := ListedAt(fmt, dir, mems, f);
    }
    SameMap(FiledFirst(list, |list|), mems);
  }

  /** A list of memories written one by one into an empty store. */
  ghost function WrittenFirst(fmt: Format, list: seq<Memory>, k: nat): Directory
    requires k <= |list|
  {
    if k == 0 then map[] else Written(fmt, WrittenFirst(fmt, list, k - 1), list[k - 1])
  }

  lemma {:induction false} WrittenFirstFiles(fmt: Format, list: seq<Memory>, k: nat)
    requires Faithful(fmt) && k <= |list| && forall i :: 0 <= i < |list| ==> fmt.storable(list[i])
    ensures Clean(fmt, WrittenFirst(fmt, list, k), FiledFirst(list, k))
  {
    if k == 0 {
      EmptyIsClean(fmt);
    } else {
      WrittenFirstFiles(fmt, list, k - 1);
      WriteKeepsClean(fmt, WrittenFirst(fmt, list, k - 1), FiledFirst(list, k - 1), list[k - 1], list[k - 1]);
    }
  }

  /** `passes` holds only of storable memories that `save` writes as they are. */
  ghost predicate Passing(fmt: Format, passes: Memory -> bool, save: (Directory, Wire) -> Directory)
  {
    forall m, dir :: passes(m) ==> fmt.storable(m) && save(dir, ToWire(m)) == Written(fmt, dir, m)
  }

  lemma ImportStep(fmt: Format, list: seq<Memory>, k: nat, passes: Memory -> bool, save: (Directory, Wire) -> Directory)
    requires k < |list| && Passing(fmt, passes, save) && passes(list[k])
    requires FoldAll(map[], ToWires(list[..k]), save) == WrittenFirst(fmt, list, k)
    ensures FoldAll(map[], ToWires(list[..k + 1]), save) == Written(fmt, WrittenFirst(fmt, list, k), list[k])
  {
    MapFoldMore(map[], list, k, ToWire, save);
  }

  lemma {:induction false} ImportWrites(fmt: Format, list: seq<Memory>, k: nat, passes: Memory -> bool,
                                        save: (Directory, Wire) -> Directory)
    requires k <= |list| && Passing(fmt, passes, save) && forall i :: 0 <= i < |list| ==> passes(list[i])
    ensures FoldAll(map[], ToWires(list[..k]), save) == WrittenFirst(fmt, list, k)
  {
    if k > 0 {
      ImportWrites(fmt, list, k - 1, passes, save);
      ImportStep(fmt, list, k - 1, passes, save);
    }
  }

  lemma ListedPass(fmt: Format, dir: Directory, mems: Memories, passes: Memory -> bool)
    requires Faithful(fmt) && Clean(fmt, dir, mems) && forall f :: f in mems ==> passes(mems[f])
    ensures forall i :: 0 <= i < |Listed(fmt, dir)| ==> passes(Listed(fmt, dir)[i])
  {
    forall i | 0 <= i < |Listed(fmt, dir)| ensures passes(Listed(fmt, dir)[i]) {
      ListedIsFiled(fmt, dir, mems, i);
    }
  }

  lemma ImportAll(fmt: Format, list: seq<Memory>, passes: Memory -> bool, save: (Directory, Wire) -> Directory)
    requires Faithful(fmt) && Passing(fmt, passes, save) && forall i :: 0 <= i < |list| ==> passes(list[i])
    ensures Clean(fmt, FoldAll(map[], ToWires(list), save), FiledFirst(list, |list|))
  {
    Whole(list);
    ImportWrites(fmt, list, |list|, passes, save);
    forall i | 0 <= i < |list| ensures fmt.storable(list[i]) {
      assert save(map[], ToWire(list[i])) == Written(fmt, map[], list[i]);
    }
    WrittenFirstFiles(fmt, list, |list|);
  }

  /** Importing an export into an empty store rebuilds the store. */
  lemma ImportRebuilds(fmt: Format, dir: Directory, mems: Memories, passes: Memory -> bool,
                       save: (Directory, Wire) -> Directory)
    requires Faithful(fmt) && Passing(fmt, passes, save)
    requires Clean(fmt, dir, mems) && forall f :: f in mems ==> passes(mems[f])
    ensures FoldAll(map[], ToWires(Listed(fmt, dir)), save) == dir
  {
    ListedPass(fmt, dir, mems, passes);
    ImportAll(fmt, Listed(fmt, dir), passes, save);
    FiledAll(fmt, dir, mems);
    CleanOnce(fmt, FoldAll(map[], ToWires(Listed(fmt, dir)), save), dir, mems);
  }

  // ----------------------------------------------------- markdown stores

  /** Markdown files are faithful to storable memories. */
  lemma MarkdownIsFaithful()
    ensures Faithful(MARKDOWN)
  {
    forall m | MARKDOWN.storable(m)
      ensures IsMemoryFile(FileOf(m.name)) && MARKDOWN.load(FileOf(m.name), MARKDOWN.render(m)) == m
    {
      SlugFile(m.name);
      LoadsRendered(FileOf(m.name), m);
    }
  }

  lemma LoadsRendered(f: string, m: Memory)
    requires Storable(m)
    ensures LoadFile(f, Render(m)) == m
  {
    RoundTripIff(m);
  }

  lemma RenderedTrimmedSame(m: Memory)
    ensures Render(Slugged(m)) == Render(Stored(m)) && Slugged(m).name == Stored(m).name
  {
    RenderedTrimmed(Slugged(m), Stored(m));
  }

  /** Saving a storable memory adds it, in place of any of the same slug; */
  lemma SaveKeepsClean(dir: Directory, mems: Memories, m: Memory, secret: string -> bool)
    requires Clean(MARKDOWN, dir, mems) && Refusal(m, secret).None? && Storable(Stored(m))
    ensures Clean(MARKDOWN, Saved(MARKDOWN, dir, m, secret), mems[FileOf(Stored(m).name) := Stored(m)])
  {
    MarkdownIsFaithful();
    RenderedTrimmedSame(m);
    WriteKeepsClean(MARKDOWN, dir, mems, Slugged(m), Stored(m));
  }

  /** deleting removes the memory of that slug, if there is one, and no other. */
  lemma DeleteKeepsClean(dir: Directory, mems: Memories, name: string)
    requires Clean(MARKDOWN, dir, mems)
    ensures Clean(MARKDOWN, Deleted(MARKDOWN, dir, name), mems - {FileOf(Slug(name))})
  {
    SlugIsSlug(name);
    SlugFile(Slug(name));
    DropKeepsClean(MARKDOWN, dir, mems, FileOf(Slug(name)));
  }

  lemma SlugIsNoIndex(name: string)
    ensures FileOf(Slug(name)) != INDEX
  {
    SlugIsSlug(name);
    SlugFile(Slug(name));
  }

  lemma DropFailsIffEmpty(fmt: Format, dir: Directory, mems: Memories, name: string)
    requires Faithful(fmt) && Clean(fmt, dir, mems) && FileOf(Slug(name)) != INDEX
    ensures !DeleteSucceeds(fmt, dir, name) <==> mems == map[]
  {
    IndexWrittenIff(fmt, dir, mems, FileOf(Slug(name)));
  }

  /** Deleting from a clean store fails exactly when the store is empty, although a
      missing memory is meant not to be an error: there is no index to remove. */
  lemma DeleteFailsIffEmpty(dir: Directory, mems: Memories, name: string)
    requires Clean(MARKDOWN, dir, mems)
    ensures !DeleteSucceeds(MARKDOWN, dir, name) <==> mems == map[]
  {
    MarkdownIsFaithful();
    SlugIsNoIndex(name);
    DropFailsIffEmpty(MARKDOWN, dir, mems, name);
  }

  datatype Op = Save(m: Memory) | Delete(name: string)

  /** A use of the store and what it does to the memories. */
  ghost predicate Tidy(op: Op, secret: string -> bool)
  {
    op.Save? ==> Refusal(op.m, secret).None? && Storable(Stored(op.m))
  }

  ghost function DirAfter(ops: seq<Op>, secret: string -> bool): Directory
  {
    if |ops| == 0 then map[]
    else
      var before, op := DirAfter(ops[..|ops| - 1], secret), ops[|ops| - 1];
      match op
      case Save(m) => Saved(MARKDOWN, before, m, secret)
      case Delete(name) => Deleted(MARKDOWN, before, name)
  }

  function MemsAfter(ops: seq<Op>): Memories
  {
    if |ops| == 0 then map[]
    else
      var before, op := MemsAfter(ops[..|ops| - 1]), ops[|ops| - 1];
      match op
      case Save(m) => before[FileOf(Stored(m).name) := Stored(m)]
      case Delete(name) => before - {FileOf(Slug(name))}
  }

  /** Any run of saves of storable memories and of deletions leaves a clean store of
      exactly the memories saved last and not deleted since; */
  lemma {:induction false} RunsStayClean(ops: seq<Op>, secret: string -> bool)
    requires forall i :: 0 <= i < |ops| ==> Tidy(ops[i], secret)
    ensures Clean(MARKDOWN, DirAfter(ops, secret), MemsAfter(ops))
  {
    if |ops| == 0 {
      EmptyIsClean(MARKDOWN);
    } else {
      var before, op := ops[..|ops| - 1], ops[|ops| - 1];
      assert forall i :: 0 <= i < |before| ==> before[i] == ops[i];
      RunsStayClean(before, secret);
      assert Tidy(op, secret);
      match op {
        case Save(m) => SaveKeepsClean(DirAfter(before, secret), MemsAfter(before), m, secret);
        case Delete(name) => DeleteKeepsClean(DirAfter(before, secret), MemsAfter(before), name);
      }
    }
  }

  /** Over the wire and through the checks of Save a memory stays as it is. */
  predicate SavedAsIs(m: Memory, secret: string -> bool)
  {
    FromWire(ToWire(m)) == m && Slugged(m) == m && Refusal(m, secret).None?
  }

  lemma StorableSavedAsIs(m: Memory, secret: string -> bool)
    requires Storable(m) && !secret(m.body + "\n" + m.description)
    ensures SavedAsIs(m, secret)
  {
    SlugStaysIff(m.name);
    AlnumTrimSpace(m.name);
    KindIsKind(m.kind);
  }

  lemma SavedIsWritten(fmt: Format, dir: Directory, m: Memory, n: Memory, secret: string -> bool)
    requires Refusal(m, secret).None? && Slugged(m) == n
    ensures Saved(fmt, dir, m, secret) == Written(fmt, dir, n)
  {
    assert Saved(fmt, dir, m, secret) == WrittenUnless(fmt, dir, n, None);
  }

  lemma AsIsIsWritten(fmt: Format, dir: Directory, m: Memory, secret: string -> bool)
    requires SavedAsIs(m, secret)
    ensures SaveWire(fmt, secret)(dir, ToWire(m)) == Written(fmt, dir, m)
  {
    SavedIsWritten(fmt, dir, m, m, secret);
  }

  /** Storable, and no secrets in it. */
  function Harmless(secret: string -> bool): Memory -> bool
  {
    m => Storable(m) && !secret(m.body + "\n" + m.description)
  }

  lemma HarmlessIsPassing(secret: string -> bool)
    ensures Passing(MARKDOWN, Harmless(secret), SaveWire(MARKDOWN, secret))
  {
    forall m, dir | Harmless(secret)(m)
      ensures MARKDOWN.storable(m) && SaveWire(MARKDOWN, secret)(dir, ToWire(m)) == Written(MARKDOWN, dir, m)
    {
      StorableSavedAsIs(m, secret);
      AsIsIsWritten(MARKDOWN, dir, m, secret);
    }
  }

  /** and importing its export into an empty store gives the same files, if nothing
      in it trips the scan. */
  lemma ExportImport(dir: Directory, mems: Memories, secret: string -> bool)
    requires Clean(MARKDOWN, dir, mems)
    requires forall f :: f in mems ==> !secret(mems[f].body + "\n" + mems[f].description)
    ensures Imported(MARKDOWN, map[], ToWires(Listed(MARKDOWN, dir)), secret) == dir
  {
    MarkdownIsFaithful();
    HarmlessIsPassing(secret);
    forall f | f in mems ensures Harmless(secret)(mems[f]) {
      assert Filed(MARKDOWN, f, mems[f]);
    }
    ImportRebuilds(MARKDOWN, dir, mems, Harmless(secret), SaveWire(MARKDOWN, secret));
  }
}
