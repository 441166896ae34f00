/** Path resolution over the directory tree, and what one edited directory means for every path. */
module ExfatResolve {
  import opened Bytes
  import opened Utf16
  import opened ExfatChain
  import opened ExfatAlloc
  import opened ExfatSound
  import opened ExfatDentry
  import opened ExfatDir
  import opened ExfatPath
  import opened ExfatFs
  import opened ExfatTree
  import opened ExfatWf
  import opened ExfatOps

  type Up = Option<seq<byte>>

  /** The first entry of that name. */
  ghost function Look(up: Up, es: seq<DirEntry>, name: string): Option<DirEntry> {
    var ix := FindIx(up, es, name);
    if ix.None? then None else Some(es[ix.value])
  }

  /** Resolution of a non-empty component list from directory d. */
  ghost function RT(t: Tab, up: Up, comps: seq<string>, d: nat): Option<Found>
    requires comps != []
    decreases |comps|
  {
    if d !in t then None
    else
      var l := Look(up, t[d], comps[0]);
      if l.None? then None
      else if |comps| == 1 then Some(Found(l.value, d))
      else if !l.value.isDir then None
      else RT(t, up, comps[1..], l.value.first)
  }

  /** On a well-formed volume the driver's resolution is resolution over the tree. */
  lemma {:induction false} ResolveIsRT(g: Geo, v: Vol, o: Own, pend: set<nat>, comps: seq<string>, d: nat)
    requires Wf(g, v, o, pend) && Placed(g, v, o) && d in o.depth && comps != [] && g.Valid() && Shape(g, v)
    ensures ResolveFrom(g, v, comps, d) == RT(Table(g, v, o), UpTable(g, v), comps, d)
    decreases |comps|
  {
    hide Wf, Placed, Sound, DirsOk, MetaOk, TreeOk, Table, UpTable, ReadChain, DirBytes, Shape, Parse, FindIx;
    WfParts(g, v, o, pend);
    DirChain(g, v, o, d);
    WfDirAt(g, v, o, d);
    var ix := FindIx(UpTable(g, v), Table(g, v, o)[d], comps[0]);
    if |comps| > 1 && ix.Some? && Table(g, v, o)[d][ix.value].isDir {
      DirEntryInTree(g, v, o, pend, d, ix.value);
      ResolveIsRT(g, v, o, pend, comps[1..], Table(g, v, o)[d][ix.value].first);
    }
  }

  lemma DirEntryInTree(g: Geo, v: Vol, o: Own, pend: set<nat>, d: nat, i: nat)
    requires Wf(g, v, o, pend) && Placed(g, v, o) && d in o.depth && i < |Table(g, v, o)[d]| && Table(g, v, o)[d][i].isDir
    ensures Table(g, v, o)[d][i].first in o.depth
  {
    hide Wf, Sound, DirsOk, MetaOk, Unique, Reached, Table, Placed;
    WfParts(g, v, o, pend);
    var t := Table(g, v, o);
    RTableAt(t, d);
    assert RTable(t)[d][i] == RefOf(t[d][i]);
  }

  lemma {:induction false} RTFound(g: Geo, t: Tab, up: Up, comps: seq<string>, d: nat)
    requires comps != []
    ensures var r := RT(t, up, comps, d); r.Some? ==> FoundIn(g, t, r.value) && r.value.parent in t
    decreases |comps|
  {
    hide FindIx;
    if d in t {
      var ix := FindIx(up, t[d], comps[0]);
      if |comps| > 1 && ix.Some? && t[d][ix.value].isDir {
        RTFound(g, t, up, comps[1..], t[d][ix.value].first);
      }
    }
  }

  // --- one directory edited ---

  ghost predicate SimLook(a: Option<DirEntry>, b: Option<DirEntry>) {
    a.None? == b.None? && (a.Some? ==> SimEntry(a.value, b.value))
  }

  ghost predicate SimFound(a: Option<Found>, b: Option<Found>) {
    a.None? == b.None? && (a.Some? ==> a.value.parent == b.value.parent && SimEntry(a.value.e, b.value.e))
  }

  /** Looking up `name` now finds e; every other lookup is as before. */
  ghost predicate FindEdit(up: Up, es: seq<DirEntry>, es': seq<DirEntry>, e: DirEntry, name: string) {
    forall nm: string ::
      if NamesEqual(up, name, nm) then SimLook(Some(e), Look(up, es', nm)) else SimLook(Look(up, es, nm), Look(up, es', nm))
  }

  ghost predicate SimList(es: seq<DirEntry>, es': seq<DirEntry>) {
    |es'| == |es| && forall i :: 0 <= i < |es| ==> SimEntry(es[i], es'[i])
  }

  lemma LookAt(up: Up, es: seq<DirEntry>, name: string, k: nat)
    requires k < |es| && NamesEqual(up, es[k].name, name) && forall i :: 0 <= i < k ==> !NamesEqual(up, es[i].name, name)
    ensures FindIx(up, es, name) == Some(k)
  {
    hide NamesEqual;
    var r := FindIx(up, es, name);
    assert r.Some? ==> NamesEqual(up, es[r.value].name, name);
  }

  lemma LookNone(up: Up, es: seq<DirEntry>, name: string)
    requires forall i :: 0 <= i < |es| ==> !NamesEqual(up, es[i].name, name)
    ensures FindIx(up, es, name) == None
  {
    hide NamesEqual;
  }

  lemma SimFind(up: Up, es: seq<DirEntry>, es': seq<DirEntry>, nm: string)
    requires SimList(es, es')
    ensures FindIx(up, es', nm) == FindIx(up, es, nm) && SimLook(Look(up, es, nm), Look(up, es', nm))
  {
    hide NamesEqual;
    var r := FindIx(up, es, nm);
    if r.Some? { LookAt(up, es', nm, r.value); } else { LookNone(up, es', nm); }
  }

  lemma NameClass(up: Up, a: string, b: string, c: string)
    ensures NamesEqual(up, a, b) && NamesEqual(up, c, b) ==> NamesEqual(up, c, a) && NamesEqual(up, a, c)
  {
  }

  lemma InsertFind(up: Up, es: seq<DirEntry>, k: nat, e: DirEntry, nm: string)
    requires k <= |es| && FindIx(up, es, e.name).None?
    ensures var es' := es[..k] + [e] + es[k..];
      if NamesEqual(up, e.name, nm) then Look(up, es', nm) == Some(e) else Look(up, es', nm) == Look(up, es, nm)
  {
    hide NamesEqual;
    var es' := es[..k] + [e] + es[k..];
    if NamesEqual(up, e.name, nm) {
      forall i | 0 <= i < k ensures !NamesEqual(up, es'[i].name, nm) { NameClass(up, e.name, nm, es[i].name); }
      LookAt(up, es', nm, k);
    } else {
      InsertFindOther(up, es, k, e, nm);
    }
  }

  lemma InsertFindOther(up: Up, es: seq<DirEntry>, k: nat, e: DirEntry, nm: string)
    requires k <= |es| && !NamesEqual(up, e.name, nm)
    ensures Look(up, es[..k] + [e] + es[k..], nm) == Look(up, es, nm)
  {
    hide NamesEqual;
    var es' := es[..k] + [e] + es[k..];
    var r := FindIx(up, es, nm);
    var j := if r.None? then |es'| else if r.value < k then r.value else r.value + 1;
    forall i | 0 <= i < j ensures !NamesEqual(up, es'[i].name, nm) {
      if i != k { assert es'[i] == es[if i < k then i else i - 1]; }
    }
    if r.None? {
      LookNone(up, es', nm);
    } else {
      assert es'[j] == es[r.value];
      LookAt(up, es', nm, j);
    }
  }

  lemma ReplaceFind(up: Up, es: seq<DirEntry>, k: nat, e: DirEntry, nm: string)
    requires FindIx(up, es, e.name) == Some(k)
    ensures var es' := es[k := e];
      if NamesEqual(up, e.name, nm) then Look(up, es', nm) == Some(e) else Look(up, es', nm) == Look(up, es, nm)
  {
    var es' := es[k := e];
    if NamesEqual(up, e.name, nm) {
      LookAt(up, es', nm, k);
    } else {
      var r := FindIx(up, es, nm);
      if r.Some? { LookAt(up, es', nm, r.value); } else { LookNone(up, es', nm); }
    }
  }

  /** t' is t with directory p edited: `name` now names e there; other directories keep their entries. */
  ghost predicate TreeEdit(up: Up, t: Tab, t': Tab, p: nat, e: DirEntry, name: string) {
    && t'.Keys == t.Keys && p in t
    && (forall d :: d in t && d != p ==> SimList(t[d], t'[d]))
    && FindEdit(up, t[p], t'[p], e, name)
    && (e.isDir ==> e.first in t && e.first != p && t[e.first] == [])
    && (Look(up, t[p], name).Some? ==> !Look(up, t[p], name).value.isDir)
  }

  lemma InsertEdit(up: Up, t: Tab, t': Tab, p: nat, k: nat, e: DirEntry)
    requires p in t && k <= |t[p]| && FindIx(up, t[p], e.name).None? && SimTable(InsTable(t, p, k, e), t')
    requires e.isDir ==> e.first in t && e.first != p && t[e.first] == []
    ensures TreeEdit(up, t, t', p, e, e.name)
  {
    hide NamesEqual, FindIx, SimEntry;
    var u := InsTable(t, p, k, e);
    forall d | d in t && d != p ensures SimList(t[d], t'[d]) { assert u[d] == t[d]; }
    forall nm: string ensures if NamesEqual(up, e.name, nm) then SimLook(Some(e), Look(up, t'[p], nm)) else SimLook(Look(up, t[p], nm), Look(up, t'[p], nm)) {
      InsertFind(up, t[p], k, e, nm);
      SimFind(up, u[p], t'[p], nm);
    }
  }

  lemma ReplaceEdit(up: Up, t: Tab, p: nat, k: nat, e: DirEntry)
    requires p in t && FindIx(up, t[p], e.name) == Some(k) && !t[p][k].isDir && !e.isDir
    ensures TreeEdit(up, t, t[p := t[p][k := e]], p, e, e.name)
  {
    hide NamesEqual, FindIx;
    var t' := t[p := t[p][k := e]];
    forall nm: string ensures if NamesEqual(up, e.name, nm) then SimLook(Some(e), Look(up, t'[p], nm)) else SimLook(Look(up, t[p], nm), Look(up, t'[p], nm)) {
      ReplaceFind(up, t[p], k, e, nm);
    }
  }

  /** The component list leads to directory p and ends in a name equal to `name`. */
  ghost predicate Hit(t: Tab, up: Up, comps: seq<string>, d: nat, p: nat, name: string)
    requires comps != []
    decreases |comps|
  {
    if |comps| == 1 then d == p && NamesEqual(up, name, comps[0])
    else
      && d in t
      && var l := Look(up, t[d], comps[0]);
        l.Some? && l.value.isDir && Hit(t, up, comps[1..], l.value.first, p, name)
  }

  /** After the edit, paths to the edited name find e; every other path finds what it found before. */
  lemma {:induction false} EditResolve(up: Up, t: Tab, t': Tab, p: nat, e: DirEntry, name: string, comps: seq<string>, d: nat)
    requires TreeEdit(up, t, t', p, e, name) && comps != []
    ensures var r, r' := RT(t, up, comps, d), RT(t', up, comps, d);
      if Hit(t, up, comps, d, p, name) then r'.Some? && r'.value.parent == p && SimEntry(e, r'.value.e) else SimFound(r, r')
    decreases |comps|
  {
    hide NamesEqual, FindIx;
    if d in t {
      var l, l' := Look(up, t[d], comps[0]), Look(up, t'[d], comps[0]);
      if d != p {
        SimFind(up, t[d], t'[d], comps[0]);
      }
      if d == p && NamesEqual(up, name, comps[0]) {
        SameName(up, t[p], name, comps[0]);
        EditedName(up, t, t', p, e, name, comps);
      } else if |comps| > 1 && l.Some? && l.value.isDir {
        EditResolve(up, t, t', p, e, name, comps[1..], l.value.first);
      }
    }
  }

  lemma SameName(up: Up, es: seq<DirEntry>, a: string, b: string)
    requires NamesEqual(up, a, b)
    ensures Look(up, es, a) == Look(up, es, b)
  {
    var r := FindIx(up, es, a);
    if r.Some? { LookAt(up, es, b, r.value); } else { LookNone(up, es, b); }
  }

  lemma EditedName(up: Up, t: Tab, t': Tab, p: nat, e: DirEntry, name: string, comps: seq<string>)
    requires TreeEdit(up, t, t', p, e, name) && comps != [] && NamesEqual(up, name, comps[0])
    requires Look(up, t[p], comps[0]) == Look(up, t[p], name)
    ensures var r, r' := RT(t, up, comps, p), RT(t', up, comps, p);
      if |comps| == 1 then r'.Some? && r'.value.parent == p && SimEntry(e, r'.value.e) else r.None? && r'.None?
  {
    hide NamesEqual;
    assert SimLook(Some(e), Look(up, t'[p], comps[0]));
    if |comps| > 1 && e.isDir {
      assert SimList(t[e.first], t'[e.first]);
      assert RT(t', up, comps[1..], e.first).None?;
    }
  }
}
