/** The directory tree as references from directories to first clusters. */
module ExfatTree {
  import opened Bytes
  import opened ExfatChain
  import opened ExfatDentry

  /** What an entry says about the chain it owns. */
  datatype Ref = Ref(isDir: bool, first: nat)

  type Refs = map<nat, seq<Ref>>

  predicate Live(r: Ref) { r.isDir || r.first >= 2 }

  function RefOf(e: DirEntry): Ref { Ref(e.isDir, e.first) }

  function RefsOf(es: seq<DirEntry>): (r: seq<Ref>)
    ensures |r| == |es|
  {
    seq(|es|, i requires 0 <= i < |es| => RefOf(es[i]))
  }

  ghost function RTable(t: map<nat, seq<DirEntry>>): (r: Refs)
    ensures r.Keys == t.Keys
  {
    map d | d in t :: RefsOf(t[d])
  }

  /** First clusters of the bitmap and the up-case table. */
  function Meta(g: Geo): set<nat> {
    (if g.bitmap.Some? then {g.bitmap.value.first} else {})
    + (if g.upcase.Some? && g.upcase.value.first >= 2 && g.upcase.value.len > 0 then {g.upcase.value.first} else {})
  }

  /** A reference from directory d is to a chain in use, and to a directory one level down exactly when it says so. */
  ghost predicate GoodRef(g: Geo, r: Ref, d: nat, keys: set<nat>, depth: map<nat, nat>) {
    && r.first in keys && r.first !in Meta(g) && r.first != g.root
    && (r.isDir <==> r.first in depth)
    && (r.isDir ==> d in depth && depth[r.first] == depth[d] + 1)
  }

  ghost predicate Closed(g: Geo, t: Refs, keys: set<nat>, depth: map<nat, nat>, pend: set<nat>) {
    forall d, i :: d in t && 0 <= i < |t[d]| && Live(t[d][i]) ==> GoodRef(g, t[d][i], d, keys, depth) && t[d][i].first !in pend
  }

  /** No chain is referenced twice. */
  ghost predicate Unique(t: Refs) {
    forall d, i, d', i' | d in t && 0 <= i < |t[d]| && Live(t[d][i]) && d' in t && 0 <= i' < |t[d']| && Live(t[d'][i'])
      && t[d][i].first == t[d'][i'].first :: d == d' && i == i'
  }

  ghost predicate Referenced(t: Refs, k: nat) {
    exists d, i :: d in t && 0 <= i < |t[d]| && Live(t[d][i]) && t[d][i].first == k
  }

  /** Every chain in use is metadata, the root, pending, or referenced: none is leaked. */
  ghost predicate Reached(g: Geo, t: Refs, keys: set<nat>, pend: set<nat>) {
    forall k :: k in keys ==> k in Meta(g) || k == g.root || k in pend || Referenced(t, k)
  }

  ghost predicate TreeOk(g: Geo, t: Refs, keys: set<nat>, depth: map<nat, nat>, pend: set<nat>) {
    && t.Keys == depth.Keys
    && Closed(g, t, keys, depth, pend) && Unique(t) && Reached(g, t, keys, pend)
  }

  function InsRef(s: seq<Ref>, k: nat, r: Ref): seq<Ref>
    requires k <= |s|
  {
    s[..k] + [r] + s[k..]
  }

  /** Where entry i of the list after an insertion at k comes from. */
  function Before(k: nat, i: nat): nat { if i > k then i - 1 else i }

  lemma InsAt(s: seq<Ref>, k: nat, r: Ref, i: nat)
    requires k <= |s| && i < |s| + 1
    ensures i == k ==> InsRef(s, k, r)[i] == r
    ensures i != k ==> 0 <= Before(k, i) < |s| && InsRef(s, k, r)[i] == s[Before(k, i)]
  {
  }

  lemma InsertClosed(g: Geo, t: Refs, keys: set<nat>, depth: map<nat, nat>, pend: set<nat>, p: nat, k: nat, r: Ref)
    requires Closed(g, t, keys, depth, pend) && p in t && k <= |t[p]|
    requires Live(r) ==> GoodRef(g, r, p, keys, depth)
    ensures Closed(g, t[p := InsRef(t[p], k, r)], keys, depth, pend - {r.first})
  {
    hide GoodRef, InsRef;
    var t' := t[p := InsRef(t[p], k, r)];
    forall d, i | d in t' && 0 <= i < |t'[d]| && Live(t'[d][i])
      ensures GoodRef(g, t'[d][i], d, keys, depth) && t'[d][i].first !in pend - {r.first}
    {
      if d == p {
        InsSize(t[p], k, r);
        InsAt(t[p], k, r, i);
        assert i != k ==> Live(t[p][Before(k, i)]);
      } else {
        assert Live(t[d][i]);
      }
    }
  }

  lemma InsSize(s: seq<Ref>, k: nat, r: Ref)
    requires k <= |s|
    ensures |InsRef(s, k, r)| == |s| + 1
  {
  }

  lemma InsertUnique(g: Geo, t: Refs, keys: set<nat>, depth: map<nat, nat>, pend: set<nat>, p: nat, k: nat, r: Ref)
    requires Closed(g, t, keys, depth, pend) && Unique(t) && p in t && k <= |t[p]|
    requires Live(r) ==> r.first in pend
    ensures Unique(t[p := InsRef(t[p], k, r)])
  {
    hide GoodRef, InsRef;
    var t' := t[p := InsRef(t[p], k, r)];
    InsSize(t[p], k, r);
    forall d, i, d', i' | d in t' && 0 <= i < |t'[d]| && Live(t'[d][i]) && d' in t' && 0 <= i' < |t'[d']| && Live(t'[d'][i'])
      && t'[d][i].first == t'[d'][i'].first
      ensures d == d' && i == i'
    {
      if d == p { InsAt(t[p], k, r, i); }
      if d' == p { InsAt(t[p], k, r, i'); }
      var j, j' := if d == p then Before(k, i) else i, if d' == p then Before(k, i') else i';
      assert !(d == p && i == k) ==> j < |t[d]| && Live(t[d][j]);
      assert !(d' == p && i' == k) ==> j' < |t[d']| && Live(t[d'][j']);
    }
  }

  lemma RefersTo(t: Refs, d: nat, i: nat)
    requires d in t && i < |t[d]| && Live(t[d][i])
    ensures Referenced(t, t[d][i].first)
  {
  }

  lemma InsertReached(g: Geo, t: Refs, keys: set<nat>, pend: set<nat>, p: nat, k: nat, r: Ref)
    requires Reached(g, t, keys, pend) && p in t && k <= |t[p]|
    requires r.first in pend ==> Live(r)
    ensures Reached(g, t[p := InsRef(t[p], k, r)], keys, pend - {r.first})
  {
    hide InsRef, Meta;
    var t' := t[p := InsRef(t[p], k, r)];
    InsSize(t[p], k, r);
    InsAt(t[p], k, r, k);
    forall x | x in keys ensures x in Meta(g) || x == g.root || x in pend - {r.first} || Referenced(t', x) {
      if Referenced(t, x) {
        var d, i :| d in t && 0 <= i < |t[d]| && Live(t[d][i]) && t[d][i].first == x;
        var i' := if d == p && i >= k then i + 1 else i;
        if d == p { InsAt(t[p], k, r, i'); }
        RefersTo(t', d, i');
      } else if x in pend && x == r.first {
        RefersTo(t', p, k);
      }
    }
  }

  /** Adding an entry for a pending chain. */
  lemma TreeInsert(g: Geo, t: Refs, keys: set<nat>, depth: map<nat, nat>, pend: set<nat>, p: nat, k: nat, r: Ref)
    requires TreeOk(g, t, keys, depth, pend) && p in t && k <= |t[p]|
    requires Live(r) ==> GoodRef(g, r, p, keys, depth) && r.first in pend
    requires r.first in pend ==> Live(r)
    ensures TreeOk(g, t[p := InsRef(t[p], k, r)], keys, depth, pend - {r.first})
  {
    hide GoodRef, InsRef, Closed, Unique, Reached;
    InsertClosed(g, t, keys, depth, pend, p, k, r);
    InsertUnique(g, t, keys, depth, pend, p, k, r);
    InsertReached(g, t, keys, pend, p, k, r);
  }

  /** Adding an empty directory that nothing refers to yet. */
  lemma TreeNewDir(g: Geo, t: Refs, keys: set<nat>, depth: map<nat, nat>, pend: set<nat>, c: nat, n: nat)
    requires TreeOk(g, t, keys, depth, pend) && c in pend && c !in t
    ensures TreeOk(g, t[c := []], keys, depth[c := n], pend)
  {
    var t', depth' := t[c := []], depth[c := n];
    forall d, i | d in t' && 0 <= i < |t'[d]| && Live(t'[d][i])
      ensures GoodRef(g, t'[d][i], d, keys, depth') && t'[d][i].first !in pend
    {
      assert Live(t[d][i]);
    }
    forall x | x in keys ensures x in Meta(g) || x == g.root || x in pend || Referenced(t', x) {
      if Referenced(t, x) {
        var d, i :| d in t && 0 <= i < |t[d]| && Live(t[d][i]) && t[d][i].first == x;
        RefersTo(t', d, i);
      }
    }
  }

  /** Replacing a file's entry by one for a pending chain releases the old chain. */
  lemma ReplaceClosed(g: Geo, t: Refs, keys: set<nat>, depth: map<nat, nat>, pend: set<nat>, p: nat, k: nat, r: Ref)
    requires Closed(g, t, keys, depth, pend) && Unique(t) && p in t && k < |t[p]| && !t[p][k].isDir
    requires Live(r) ==> GoodRef(g, r, p, keys, depth) && r.first in pend
    ensures Closed(g, t[p := t[p][k := r]], if Live(t[p][k]) then keys - {t[p][k].first} else keys, depth, pend - {r.first})
  {
    var t', old' := t[p := t[p][k := r]], t[p][k];
    var keys' := if Live(old') then keys - {old'.first} else keys;
    assert Live(old') ==> GoodRef(g, old', p, keys, depth) && old'.first !in pend;
    forall d, i | d in t' && 0 <= i < |t'[d]| && Live(t'[d][i])
      ensures GoodRef(g, t'[d][i], d, keys', depth) && t'[d][i].first !in pend - {r.first}
    {
      if !(d == p && i == k) {
        assert Live(t[d][i]);
        assert Live(old') ==> t[d][i].first != old'.first;
      }
    }
  }

  lemma ReplaceUnique(g: Geo, t: Refs, keys: set<nat>, depth: map<nat, nat>, pend: set<nat>, p: nat, k: nat, r: Ref)
    requires Closed(g, t, keys, depth, pend) && Unique(t) && p in t && k < |t[p]|
    requires Live(r) ==> r.first in pend
    ensures Unique(t[p := t[p][k := r]])
  {
    hide GoodRef;
    var t' := t[p := t[p][k := r]];
    forall d, i, d', i' | d in t' && 0 <= i < |t'[d]| && Live(t'[d][i]) && d' in t' && 0 <= i' < |t'[d']| && Live(t'[d'][i'])
      && t'[d][i].first == t'[d'][i'].first
      ensures d == d' && i == i'
    {
      var new1, new2 := d == p && i == k, d' == p && i' == k;
      if !new1 { assert Live(t[d][i]); }
      if !new2 { assert Live(t[d'][i']); }
    }
  }

  lemma ReplaceReached(g: Geo, t: Refs, keys: set<nat>, pend: set<nat>, p: nat, k: nat, r: Ref)
    requires Reached(g, t, keys, pend) && p in t && k < |t[p]| && !t[p][k].isDir
    requires r.first in pend ==> Live(r)
    ensures Reached(g, t[p := t[p][k := r]], if Live(t[p][k]) then keys - {t[p][k].first} else keys, pend - {r.first})
  {
    hide Meta;
    var t', old' := t[p := t[p][k := r]], t[p][k];
    var keys' := if Live(old') then keys - {old'.first} else keys;
    forall x | x in keys' ensures x in Meta(g) || x == g.root || x in pend - {r.first} || Referenced(t', x) {
      if Referenced(t, x) {
        var d, i :| d in t && 0 <= i < |t[d]| && Live(t[d][i]) && t[d][i].first == x;
        RefersTo(t', d, i);
      } else if x in pend && x == r.first {
        RefersTo(t', p, k);
      }
    }
  }

  lemma TreeReplace(g: Geo, t: Refs, keys: set<nat>, depth: map<nat, nat>, pend: set<nat>, p: nat, k: nat, r: Ref)
    requires TreeOk(g, t, keys, depth, pend) && p in t && k < |t[p]| && !t[p][k].isDir
    requires Live(r) ==> GoodRef(g, r, p, keys, depth) && r.first in pend
    requires r.first in pend ==> Live(r)
    ensures TreeOk(g, t[p := t[p][k := r]], if Live(t[p][k]) then keys - {t[p][k].first} else keys, depth, pend - {r.first})
  {
    hide GoodRef, Closed, Unique, Reached;
    ReplaceClosed(g, t, keys, depth, pend, p, k, r);
    ReplaceUnique(g, t, keys, depth, pend, p, k, r);
    ReplaceReached(g, t, keys, pend, p, k, r);
  }

  /** A new pending chain. */
  lemma TreePend(g: Geo, t: Refs, keys: set<nat>, depth: map<nat, nat>, c: nat)
    requires TreeOk(g, t, keys, depth, {}) && c !in keys && depth.Keys <= keys
    ensures TreeOk(g, t, keys + {c}, depth, {c})
  {
    forall d, i | d in t && 0 <= i < |t[d]| && Live(t[d][i])
      ensures GoodRef(g, t[d][i], d, keys + {c}, depth) && t[d][i].first !in {c}
    {
    }
  }
}
