/** The guarantees of the exFAT driver, for every well-formed volume and every run. */
module ExfatMain {
  import opened Bytes
  import opened Utf16
  import opened ExfatChain
  import opened ExfatAlloc
  import opened ExfatSound
  import opened ExfatDentry
  import opened ExfatDir
  import opened ExfatPath
  import opened ExfatFs
  import opened ExfatEdit
  import opened ExfatTree
  import opened ExfatWf
  import opened ExfatOps
  import opened ExfatResolve
  import opened ExfatStage
  import opened ExfatTheorems
  import opened ExfatMkdir

  /** Some assignment of chains to the root, the metadata and the directory entries makes the volume well formed. */
  ghost predicate WfVol(g: Geo, v: Vol) {
    exists o :: Wf(g, v, o, {})
  }

  /** The FAT, and every byte of every allocated cluster: bitmap, directories and files alike. */
  ghost predicate Untouched(g: Geo, v: Vol, v1: Vol) {
    && Shape(g, v) && Shape(g, v1) && v1.fat == v.fat
    && forall c :: 2 <= c < g.Max() && v.fat[c] != FAT_FREE ==> v1.heap[c] == v.heap[c]
  }

  lemma RestoredUntouched(g: Geo, v: Vol, v1: Vol, ch: Chains)
    requires Sound(g, v, ch) && Restored(g, v, v1, ch)
    ensures Untouched(g, v, v1)
  {
    hide Owned, ChainsOk, Disjoint, BitmapExact;
    forall c | 2 <= c < g.Max() && v.fat[c] != FAT_FREE ensures v1.heap[c] == v.heap[c] {
      assert Owned(ch, c);
    }
  }

  lemma WfValid(g: Geo, v: Vol, o: Own)
    requires Wf(g, v, o, {})
    ensures g.Valid() && Shape(g, v) && Placed(g, v, o)
  {
    hide Sound, Placed, DirsOk, TreeOk, MetaOk, Shape;
    WfParts(g, v, o, {});
  }

  lemma RestoredWfVol(g: Geo, v: Vol, v1: Vol, o: Own)
    requires Placed(g, v, o) && Wf(g, v, o, {}) && Restored(g, v, v1, o.ch) && Sound(g, v1, o.ch)
    ensures WfVol(g, v1) && Untouched(g, v, v1)
  {
    hide Wf, Placed, Sound, Restored, Untouched, Table;
    WfParts(g, v, o, {});
    RestoredWf(g, v, v1, o);
    RestoredUntouched(g, v, v1, o.ch);
  }

  // --- directory listings ---

  /** The items of one listing are those of another with one item added, or with the item of an equal name replaced. */
  ghost predicate ListingEdited(up: Up, l: seq<(string, bool)>, l': seq<(string, bool)>, x: (string, bool)) {
    || (exists k :: 0 <= k <= |l| && l' == l[..k] + [x] + l[k..] && forall i :: 0 <= i < |l| ==> !NamesEqual(up, l[i].0, x.0))
    || (exists k :: 0 <= k < |l| && l' == l[k := x] && NamesEqual(up, l[k].0, x.0))
  }

  lemma ListEditIs(up: Up, es: seq<DirEntry>, es': seq<DirEntry>, e: DirEntry)
    requires ListEdit(up, es, es', e)
    ensures ListingEdited(up, Listing(es), Listing(es'), (e.name, e.isDir))
  {
    hide NamesEqual;
    var l, l', x := Listing(es), Listing(es'), (e.name, e.isDir);
    var ix := FindIx(up, es, e.name);
    if ix.Some? {
      assert l' == l[ix.value := x] && NamesEqual(up, l[ix.value].0, x.0);
    } else {
      var k :| 0 <= k <= |l| && l' == l[..k] + [x] + l[k..];
      forall i | 0 <= i < |l| ensures !NamesEqual(up, l[i].0, x.0) { assert l[i].0 == es[i].name; }
    }
  }

  /** Listing the found directory. */
  function ListFound(g: Geo, v: Vol, f: Option<Found>): Result<seq<(string, bool)>, int>
    requires Shape(g, v)
  {
    if f.None? then Err(-2)
    else if !f.value.e.isDir then Err(-20)
    else Ok(Listing(Entries(g, v, f.value.e.first)))
  }

  lemma ListIs(g: Geo, v: Vol, q: string)
    requires Shape(g, v)
    ensures ReadDir(g, v, q) == ListFound(g, v, Resolve(g, v, Comps(q)))
  {
    hide Shape, Entries, Resolve, Comps;
  }

  lemma EntriesIs(g: Geo, v: Vol, o: Own, d: nat)
    requires Placed(g, v, o) && Wf(g, v, o, {}) && d in o.depth
    ensures Shape(g, v) && Entries(g, v, d) == Table(g, v, o)[d]
  {
    hide Wf, Placed, Sound, MetaOk, DirsOk, TreeOk, Table, Shape, Parse, ReadChain, DirBytes;
    WfParts(g, v, o, {});
    DirChain(g, v, o, d);
    WfDirAt(g, v, o, d);
  }

  /** The path leads to directory p. */
  ghost predicate LeadsTo(g: Geo, v: Vol, q: string, p: nat)
    requires Shape(g, v)
  {
    var f := Resolve(g, v, Comps(q));
    f.Some? && f.value.e.isDir && f.value.e.first == p
  }

  /** How a listing changes when directory p is edited. */
  lemma ListAfter(g: Geo, v: Vol, v1: Vol, o: Own, o1: Own, up: Up, t: Tab, p: nat, e: DirEntry, a: Option<Found>, b: Option<Found>)
    requires Shape(g, v) && Shape(g, v1) && Placed(g, v, o) && Placed(g, v1, o1) && SimFound(a, b) && p in o.depth
    requires o.depth.Keys <= t.Keys && (forall d :: d in o.depth ==> t[d] == Table(g, v, o)[d]) && TreeEdit(up, t, Table(g, v1, o1), p, e, e.name)
    requires ListEdit(up, Table(g, v, o)[p], Table(g, v1, o1)[p], e)
    requires a.Some? && a.value.e.isDir ==> a.value.e.first in o.depth
    requires Wf(g, v, o, {}) && Wf(g, v1, o1, {})
    ensures a.Some? && a.value.e.isDir && a.value.e.first == p ==>
      && ListFound(g, v, a).Ok? && ListFound(g, v1, b).Ok?
      && ListingEdited(up, ListFound(g, v, a).value, ListFound(g, v1, b).value, (e.name, e.isDir))
    ensures !(a.Some? && a.value.e.isDir && a.value.e.first == p) ==> ListFound(g, v1, b) == ListFound(g, v, a)
  {
    hide Wf, Placed, Table, Entries, Shape, FindEdit, ListEdit, ListingEdited, SimList, Listing;
    if a.Some? && a.value.e.isDir {
      var d := a.value.e.first;
      EntriesIs(g, v, o, d);
      EntriesIs(g, v1, o1, d);
      if d == p {
        ListEditIs(up, Table(g, v, o)[p], Table(g, v1, o1)[p], e);
      } else {
        SimListing(t[d], Table(g, v1, o1)[d]);
      }
    }
  }

  /** An empty directory that nothing refers to does not matter to resolution. */
  lemma {:induction false} RTExtend(t: Tab, up: Up, comps: seq<string>, d: nat, c: nat)
    requires comps != [] && d in t && c !in t && forall x, i :: x in t && 0 <= i < |t[x]| && t[x][i].isDir ==> t[x][i].first in t
    ensures RT(t[c := []], up, comps, d) == RT(t, up, comps, d)
    ensures forall p, name :: Hit(t[c := []], up, comps, d, p, name) <==> Hit(t, up, comps, d, p, name)
    decreases |comps|
  {
    hide NamesEqual, FindIx;
    var l := Look(up, t[d], comps[0]);
    if |comps| > 1 && l.Some? && l.value.isDir {
      RTExtend(t, up, comps[1..], l.value.first, c);
    }
  }

  /** What one edited directory means for the resolution of a path. */
  lemma PathAfter(g: Geo, v: Vol, v1: Vol, o: Own, o1: Own, path: string, t: Tab, e: DirEntry, q: string)
    requires g.Valid() && Shape(g, v) && Shape(g, v1) && UpTable(g, v1) == UpTable(g, v)
    requires Placed(g, v, o) && Placed(g, v1, o1) && ResolveDir(g, v, SplitParent(path).0).Some? && e.name == SplitParent(path).1
    requires t == Table(g, v, o) || (e.first !in o.depth && t == Table(g, v, o)[e.first := []])
    requires TreeEdit(UpTable(g, v), t, Table(g, v1, o1), ResolveDir(g, v, SplitParent(path).0).value.e.first, e, e.name)
    requires Wf(g, v, o, {}) && Wf(g, v1, o1, {})
    ensures var a, b := Resolve(g, v, Comps(q)), Resolve(g, v1, Comps(q));
      && (a.Some? ==> FoundIn(g, Table(g, v, o), a.value)) && (b.Some? ==> FoundIn(g, Table(g, v1, o1), b.value))
      && if SameFile(g, v, path, q) then
          b.Some? && b.value.parent == ResolveDir(g, v, SplitParent(path).0).value.e.first && SimEntry(e, b.value.e)
        else SimFound(a, b)
  {
    hide Wf, Placed, Table, UpTable, Shape, NamesEqual, RT, Hit, ResolveFrom, ResolveDir, SplitParent, Comps, TreeEdit, SameFile;
    RootIn(g, v, o, {});
    RootIn(g, v1, o1, {});
    var c, up, p := Comps(q), UpTable(g, v), ResolveDir(g, v, SplitParent(path).0).value.e.first;
    if c == [] {
      RootReads(g, v, v1, path, q);
    } else {
      SameFileHit(g, v, o, path, q);
      ResolveIsRT(g, v, o, {}, c, g.root);
      ResolveIsRT(g, v1, o1, {}, c, g.root);
      EditResolve(up, t, Table(g, v1, o1), p, e, e.name, c, g.root);
      RTFound(g, Table(g, v, o), up, c, g.root);
      RTFound(g, Table(g, v1, o1), up, c, g.root);
      if t != Table(g, v, o) {
        TreeClosed(g, v, o);
        RTExtend(Table(g, v, o), up, c, g.root, e.first);
      }
    }
  }

  /** Through path q, which does not name the new entry, everything reads as before; directory p lists the new item. */
  ghost predicate PathSame(g: Geo, v: Vol, v1: Vol, p: nat, q: string, item: (string, bool))
    requires Shape(g, v) && Shape(g, v1)
  {
    && ReadFile(g, v1, q) == ReadFile(g, v, q)
    && if LeadsTo(g, v, q, p) then
        && ReadDir(g, v, q).Ok? && ReadDir(g, v1, q).Ok?
        && ListingEdited(UpTable(g, v), ReadDir(g, v, q).value, ReadDir(g, v1, q).value, item)
      else ReadDir(g, v1, q) == ReadDir(g, v, q)
  }

  /** Files and listings elsewhere, after an edit of the parent directory of `path`. */
  ghost predicate OthersSame(g: Geo, v: Vol, v1: Vol, path: string, isDir: bool)
    requires Shape(g, v) && Shape(g, v1) && ResolveDir(g, v, SplitParent(path).0).Some?
  {
    forall q: string | !SameFile(g, v, path, q) ::
      PathSame(g, v, v1, ResolveDir(g, v, SplitParent(path).0).value.e.first, q, (SplitParent(path).1, isDir))
  }

  lemma OthersAfter(g: Geo, v: Vol, v1: Vol, o: Own, o1: Own, path: string, t: Tab, e: DirEntry)
    requires g.Valid() && Shape(g, v) && Shape(g, v1) && UpTable(g, v1) == UpTable(g, v)
    requires Placed(g, v, o) && Placed(g, v1, o1) && ResolveDir(g, v, SplitParent(path).0).Some? && e.name == SplitParent(path).1
    requires t == Table(g, v, o) || (e.first !in o.depth && t == Table(g, v, o)[e.first := []])
    requires ResolveDir(g, v, SplitParent(path).0).value.e.first in o.depth
    requires TreeEdit(UpTable(g, v), t, Table(g, v1, o1), ResolveDir(g, v, SplitParent(path).0).value.e.first, e, e.name)
    requires var p := ResolveDir(g, v, SplitParent(path).0).value.e.first;
      p in Table(g, v1, o1) && ListEdit(UpTable(g, v), Table(g, v, o)[p], Table(g, v1, o1)[p], e)
    requires Kept(g, v, v1, o, o1) && Wf(g, v, o, {}) && Wf(g, v1, o1, {})
    ensures OthersSame(g, v, v1, path, e.isDir)
  {
    hide Wf, Placed, Table, UpTable, Shape, Resolve, ResolveDir, SplitParent, Comps, TreeEdit, SameFile, PathSame, Kept, SimFound, FoundIn, ListEdit;
    var p := ResolveDir(g, v, SplitParent(path).0).value.e.first;
    forall q: string | !SameFile(g, v, path, q)
      ensures PathSame(g, v, v1, p, q, (SplitParent(path).1, e.isDir))
    {
      PathAfter(g, v, v1, o, o1, path, t, e, q);
      OtherPath(g, v, v1, o, o1, t, p, e, q);
    }
  }

  lemma OtherPath(g: Geo, v: Vol, v1: Vol, o: Own, o1: Own, t: Tab, p: nat, e: DirEntry, q: string)
    requires g.Valid() && Shape(g, v) && Shape(g, v1) && Placed(g, v, o) && Placed(g, v1, o1)
    requires t == Table(g, v, o) || (e.first !in o.depth && t == Table(g, v, o)[e.first := []])
    requires p in o.depth && p in Table(g, v1, o1) && TreeEdit(UpTable(g, v), t, Table(g, v1, o1), p, e, e.name)
    requires ListEdit(UpTable(g, v), Table(g, v, o)[p], Table(g, v1, o1)[p], e)
    requires var a, b := Resolve(g, v, Comps(q)), Resolve(g, v1, Comps(q));
      (a.Some? ==> FoundIn(g, Table(g, v, o), a.value)) && (b.Some? ==> FoundIn(g, Table(g, v1, o1), b.value)) && SimFound(a, b)
    requires Kept(g, v, v1, o, o1) && Wf(g, v, o, {}) && Wf(g, v1, o1, {})
    ensures PathSame(g, v, v1, p, q, (e.name, e.isDir))
  {
    hide Wf, Placed, Table, UpTable, Shape, Resolve, Comps, TreeEdit, ReadFile, ReadDir, ReadFound, ListFound, Kept, FoundIn, ListEdit, ListingEdited;
    var a, b := Resolve(g, v, Comps(q)), Resolve(g, v1, Comps(q));
    ReadIs(g, v, q);
    ReadIs(g, v1, q);
    ListIs(g, v, q);
    ListIs(g, v1, q);
    OtherRead(g, v, v1, o, o1, a, b);
    if a.Some? && a.value.e.isDir { FoundDir(g, v, o, {}, a.value); }
    ListAfter(g, v, v1, o, o1, UpTable(g, v), t, p, e, a, b);
  }

  // --- the theorems ---

  lemma PathIsItself(g: Geo, v: Vol, path: string)
    requires Shape(g, v) && ResolveDir(g, v, SplitParent(path).0).Some? && NameStatus(SplitParent(path).1) == 0
    ensures SameFile(g, v, path, path)
  {
    hide Shape, UpTable, Comps, SplitParent, NamesEqual, Fold, Encode, ResolveFrom;
    SplitParentComps(path);
    var (parent, name) := SplitParent(path);
    var c := Comps(path);
    assert c[..|c| - 1] == Comps(parent) && c[|c| - 1] == name;
    NamesRefl(UpTable(g, v), name);
  }

  lemma NamesRefl(up: Up, name: string)
    ensures NamesEqual(up, name, name)
  {
  }

  /**
   * `write_file` keeps every well-formed volume well formed. When it succeeds, the path reads back as exactly the
   * contents, every other path reads as before, and the parent directory lists the file. When it fails, for whatever
   * reason and at whatever point, the FAT and every byte of every allocated cluster are as they were.
   */
  lemma WriteFileCorrect(g: Geo, v: Vol, path: string, contents: seq<byte>)
    requires WfVol(g, v) && |contents| < 0x1_0000_0000_0000_0000
    ensures g.Valid() && Shape(g, v)
    ensures var r := WriteFile(g, v, path, contents);
      && WfVol(g, r.v)
      && (r.st != 0 ==> Untouched(g, v, r.v))
      && (r.st == 0 ==>
            && ReadFile(g, r.v, path) == Ok(contents)
            && ResolveDir(g, v, SplitParent(path).0).Some? && OthersSame(g, v, r.v, path, false))
  {
    hide Wf, Placed, Table, Shape, Sound, Restored, Untouched, WriteFile, ReadFile, ResolveDir, SplitParent, OthersSame, Kept, TreeEdit, ListEdit, Holds, UpTable,
      MetaOk, DirsOk, TreeOk, SameFile;
    var o :| Wf(g, v, o, {});
    WfValid(g, v, o);
    Pow256Values();
    var o1, e := WriteFileEffect(g, v, o, path, contents);
    var r := WriteFile(g, v, path, contents);
    if r.st == 0 {
      WfParts(g, v, o, {});
      WfParts(g, r.v, o1, {});
      KeptUp(g, v, r.v, o, o1);
      PathIsItself(g, v, path);
      ReadAfterWrite(g, v, r.v, o, o1, path, e, contents, path);
      OthersAfter(g, v, r.v, o, o1, path, Table(g, v, o), e);
    } else {
      RestoredWfVol(g, v, r.v, o);
    }
  }

  lemma EditKeys(up: Up, t: Tab, t': Tab, p: nat, e: DirEntry)
    requires TreeEdit(up, t, t', p, e, e.name)
    ensures p in t'
  {
  }

  lemma MadeReads(g: Geo, v: Vol, v1: Vol, o: Own, o1: Own, path: string, e: DirEntry)
    requires g.Valid() && Shape(g, v) && Shape(g, v1) && UpTable(g, v1) == UpTable(g, v) && Placed(g, v, o) && NameStatus(SplitParent(path).1) == 0
    requires ResolveDir(g, v, SplitParent(path).0).Some? && e.name == SplitParent(path).1
    requires Made(g, v, v1, o, o1, ResolveDir(g, v, SplitParent(path).0).value.e.first, e) && Wf(g, v, o, {})
    ensures ReadDir(g, v1, path) == Ok([])
  {
    hide Wf, Placed, Table, Shape, ResolveDir, SplitParent, Kept, ListEdit, UpTable, SameFile, Resolve, Comps, NameStatus, ReadDir, FindEdit, Entries;
    PathIsItself(g, v, path);
    PathAfter(g, v, v1, o, o1, path, Table(g, v, o)[e.first := []], e, path);
    ListIs(g, v1, path);
    assert SimList([], Table(g, v1, o1)[e.first]);
    EntriesIs(g, v1, o1, e.first);
  }

  /** `create_dir`: the same guarantees, for a new and empty directory. */
  lemma CreateDirCorrect(g: Geo, v: Vol, path: string)
    requires WfVol(g, v)
    ensures g.Valid() && Shape(g, v)
    ensures var r := CreateDir(g, v, path);
      && WfVol(g, r.v)
      && (r.st != 0 ==> Untouched(g, v, r.v))
      && (r.st == 0 ==>
            && ReadDir(g, r.v, path) == Ok([])
            && ResolveDir(g, v, SplitParent(path).0).Some? && OthersSame(g, v, r.v, path, true))
  {
    hide Wf, Placed, Table, Shape, Sound, Restored, Untouched, CreateDir, ReadDir, ResolveDir, SplitParent, OthersSame, Kept, TreeEdit, ListEdit, UpTable,
      MetaOk, DirsOk, TreeOk, FindIx, Entries, NameStatus;
    var o :| Wf(g, v, o, {});
    WfValid(g, v, o);
    var o1, e := CreateDirEffect(g, v, o, path);
    var r := CreateDir(g, v, path);
    if r.st == 0 {
      WfParts(g, v, o, {});
      WfParts(g, r.v, o1, {});
      KeptUp(g, v, r.v, o, o1);
      MadeReads(g, v, r.v, o, o1, path, e);
      EditKeys(UpTable(g, v), Table(g, v, o)[e.first := []], Table(g, r.v, o1), ResolveDir(g, v, SplitParent(path).0).value.e.first, e);
      OthersAfter(g, v, r.v, o, o1, path, Table(g, v, o)[e.first := []], e);
    } else {
      RestoredWfVol(g, v, r.v, o);
    }
  }

  // --- runs ---

  datatype Command = Write(path: string, contents: seq<byte>) | Mkdir(path: string)

  function Step(g: Geo, v: Vol, c: Command): (r: Vol)
    requires g.Valid() && Shape(g, v)
    ensures Shape(g, r)
  {
    match c
    case Write(path, contents) => WriteFile(g, v, path, contents).v
    case Mkdir(path) => CreateDir(g, v, path).v
  }

  function Run(g: Geo, v: Vol, cs: seq<Command>): (r: Vol)
    requires g.Valid() && Shape(g, v)
    ensures Shape(g, r)
    decreases |cs|
  {
    if cs == [] then v else Run(g, Step(g, v, cs[0]), cs[1..])
  }

  predicate Sized(c: Command) { c.Write? ==> |c.contents| < 0x1_0000_0000_0000_0000 }

  /** Every run of file writes and directory creations, successful or not, keeps the volume well formed. */
  lemma {:induction false} RunKeepsWf(g: Geo, v: Vol, cs: seq<Command>)
    requires g.Valid() && Shape(g, v) && WfVol(g, v) && forall i :: 0 <= i < |cs| ==> Sized(cs[i])
    ensures WfVol(g, Run(g, v, cs))
    decreases |cs|
  {
    hide WfVol, WriteFile, CreateDir, Shape, Untouched, OthersSame, ReadFile, ReadDir, ResolveDir;
    if cs != [] {
      assert Sized(cs[0]);
      match cs[0] {
        case Write(path, contents) => WriteFileCorrect(g, v, path, contents);
        case Mkdir(path) => CreateDirCorrect(g, v, path);
      }
      RunKeepsWf(g, Step(g, v, cs[0]), cs[1..]);
    }
  }
}
