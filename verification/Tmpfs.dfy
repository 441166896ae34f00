/** tmpfs: one mount's inodes and paths, and the size accounting kept beside them. */
module Tmpfs {
  import opened Bytes
  import opened MapSum

  datatype Kind =
    | Regular(data: seq<byte>)
    | Dir(children: map<string, nat>)
    | Symlink(target: seq<byte>)

  datatype Node = Node(nlink: nat, kind: Kind)

  /** `data_len`. */
  function DataLen(n: Node): nat {
    match n.kind
    case Regular(d) => |d|
    case Symlink(t) => |t|
    case Dir(_) => 0
  }

  /** The files of a mount, without the accounting. */
  datatype Tree = Tree(inodes: map<nat, Node>, paths: map<string, nat>, next: nat)

  ghost function Lens(ns: map<nat, Node>): map<nat, nat> { map i | i in ns :: DataLen(ns[i]) }

  /** The bytes that all live inodes hold. */
  ghost function Held(t: Tree): nat { Sum(Lens(t.inodes)) }

  /** No inode or path uses a number that is still to be given out. */
  ghost predicate Fresh(t: Tree) {
    (forall i :: i in t.inodes ==> i < t.next) && forall p :: p in t.paths ==> t.paths[p] < t.next
  }

  // --- paths ---

  function TrimSlashes(p: string): string { if p != "" && p[0] == '/' then TrimSlashes(p[1..]) else p }

  /** `split`: the parent's path and the last name. */
  function Split(p: string): (string, string) {
    var i := LastSlash(p, |p|);
    if i.None? || i.value == 0 then ("/", TrimSlashes(p)) else (p[..i.value], p[i.value + 1..])
  }

  // --- the parts of every operation ---

  function AddChild(t: Tree, dir: nat, name: string, ino: nat): Tree {
    if dir in t.inodes && t.inodes[dir].kind.Dir? then
      t.(inodes := t.inodes[dir := t.inodes[dir].(kind := Dir(t.inodes[dir].kind.children[name := ino]))])
    else t
  }

  function DropChild(t: Tree, dir: nat, name: string): Tree {
    if dir in t.inodes && t.inodes[dir].kind.Dir? then
      t.(inodes := t.inodes[dir := t.inodes[dir].(kind := Dir(t.inodes[dir].kind.children - {name}))])
    else t
  }

  function SetNode(t: Tree, ino: nat, n: Node): Tree { t.(inodes := t.inodes[ino := n]) }

  /** A new inode under the next number, with its path and its place in the parent. */
  function AddNode(t: Tree, sub: string, dir: nat, name: string, n: Node): Tree {
    AddChild(Tree(t.inodes[t.next := n], t.paths[sub := t.next], t.next + 1), dir, name, t.next)
  }

  /** `data.resize(len, 0)`. */
  function Resized(d: seq<byte>, len: nat): (r: seq<byte>)
    ensures |r| == len
  {
    if len <= |d| then d[..len] else d + Zeros(len - |d|)
  }

  // --- the operations: what they do to the files, and their status ---

  predicate CanAlloc(limit: nat, used: nat, extra: nat) { limit == 0 || used + extra <= limit }

  function Create(t: Tree, limit: nat, used: nat, sub: string, data: seq<byte>): (Tree, int) {
    var (par, name) := Split(sub);
    if !CanAlloc(limit, used, |data|) then (t, -28)
    else if name == "" then (t, -22)
    else if par !in t.paths then (t, -2)
    else (AddNode(t, sub, t.paths[par], name, Node(1, Regular(data))), 0)
  }

  function WriteAll(t: Tree, limit: nat, used: nat, sub: string, data: seq<byte>): (Tree, int) {
    if sub !in t.paths then Create(t, limit, used, sub, data)
    else if t.paths[sub] !in t.inodes then (t, -2)
    else
      var n := t.inodes[t.paths[sub]];
      if !n.kind.Regular? then (t, -21)
      else if |data| > |n.kind.data| && !CanAlloc(limit, used, |data| - |n.kind.data|) then (t, -28)
      else (SetNode(t, t.paths[sub], n.(kind := Regular(data))), 0)
  }

  function PWrite(t: Tree, limit: nat, used: nat, sub: string, off: nat, new': seq<byte>): (Tree, int) {
    if sub !in t.paths || t.paths[sub] !in t.inodes then (t, -2)
    else
      var n := t.inodes[t.paths[sub]];
      if !n.kind.Regular? then (t, -21)
      else
        var d, end := n.kind.data, off + |new'|;
        if end > |d| && !CanAlloc(limit, used, end - |d|) then (t, -28)
        else (SetNode(t, t.paths[sub], n.(kind := Regular(Splice(Resized(d, Max(end, |d|)), off, new')))), |new'|)
  }

  function Truncate(t: Tree, limit: nat, used: nat, sub: string, len: nat): (Tree, int) {
    if sub !in t.paths || t.paths[sub] !in t.inodes then (t, -2)
    else
      var n := t.inodes[t.paths[sub]];
      if !n.kind.Regular? then (t, -21)
      else if len > |n.kind.data| && !CanAlloc(limit, used, len - |n.kind.data|) then (t, -28)
      else (SetNode(t, t.paths[sub], n.(kind := Regular(Resized(n.kind.data, len)))), 0)
  }

  function MkDir(t: Tree, sub: string): (Tree, int) {
    var (par, name) := Split(sub);
    if sub in t.paths then (t, -17)
    else if name == "" then (t, -22)
    else if par !in t.paths then (t, -2)
    else (AddNode(t, sub, t.paths[par], name, Node(2, Dir(map[]))), 0)
  }

  function RmDir(t: Tree, sub: string): (Tree, int) {
    var (par, name) := Split(sub);
    if sub !in t.paths || t.paths[sub] !in t.inodes then (t, -2)
    else
      var n := t.inodes[t.paths[sub]];
      if !n.kind.Dir? then (t, -20)
      else if n.kind.children != map[] then (t, -39)
      else if par !in t.paths then (t, -2)
      else (DropChild(t.(inodes := t.inodes - {t.paths[sub]}, paths := t.paths - {sub}), t.paths[par], name), 0)
  }

  function Unlink(t: Tree, sub: string): (Tree, int) {
    var (par, name) := Split(sub);
    if sub !in t.paths || t.paths[sub] !in t.inodes then (t, -2)
    else
      var ino := t.paths[sub];
      var n := t.inodes[ino];
      if n.kind.Dir? then (t, -21)
      else if par !in t.paths then (t, -2)
      else
        var t1 := t.(paths := t.paths - {sub});
        var t2 := if n.nlink <= 1 then t1.(inodes := t1.inodes - {ino}) else SetNode(t1, ino, n.(nlink := n.nlink - 1));
        (DropChild(t2, t.paths[par], name), 0)
  }

  function Link(t: Tree, sub: string, new': string): (Tree, int) {
    var (par, name) := Split(new');
    if sub !in t.paths then (t, -2)
    else if new' in t.paths then (t, -17)
    else if par !in t.paths then (t, -2)
    else
      var ino := t.paths[sub];
      var t1 := t.(paths := t.paths[new' := ino]);
      var t2 := if ino in t.inodes then SetNode(t1, ino, t.inodes[ino].(nlink := t.inodes[ino].nlink + 1)) else t1;
      (AddChild(t2, t.paths[par], name, ino), 0)
  }

  /** The first half of `tmpfs_rename`: the old name goes. */
  function TakeName(t: Tree, sub: string, dir: nat, name: string): Tree {
    DropChild(t.(paths := t.paths - {sub}), dir, name)
  }

  /** A file that already has the new name goes, inode and all, whatever other names it has. */
  function DropVictim(t: Tree, sub: string): Tree {
    if sub !in t.paths then t
    else
      var (par, name) := Split(sub);
      var t1 := t.(inodes := t.inodes - {t.paths[sub]}, paths := t.paths - {sub});
      DropChild(t1, if par in t1.paths then t1.paths[par] else 0, name)
  }

  function Rename(t: Tree, sub: string, new': string): (Tree, int) {
    var ((opar, oname), (npar, nname)) := (Split(sub), Split(new'));
    if sub !in t.paths || opar !in t.paths then (t, -2)
    else
      var ino := t.paths[sub];
      var t2 := DropVictim(TakeName(t, sub, t.paths[opar], oname), new');
      if npar !in t2.paths then (t2, -2)
      else (AddChild(t2.(paths := t2.paths[new' := ino]), t2.paths[npar], nname, ino), 0)
  }

  function SymLink(t: Tree, limit: nat, used: nat, target: seq<byte>, sub: string): (Tree, int) {
    var (par, name) := Split(sub);
    if sub in t.paths then (t, -17)
    else if par !in t.paths then (t, -2)
    else if !CanAlloc(limit, used, |target|) then (t, -28)
    else (AddNode(t, sub, t.paths[par], name, Node(1, Symlink(target))), 0)
  }

  // --- accounting ---

  lemma HeldSet(t: Tree, ino: nat, n: Node)
    ensures Held(SetNode(t, ino, n)) == Held(t) - (if ino in t.inodes then DataLen(t.inodes[ino]) else 0) + DataLen(n)
  {
    SumUpdate(Lens(t.inodes), ino, DataLen(n));
    assert Lens(t.inodes[ino := n]) == Lens(t.inodes)[ino := DataLen(n)];
  }

  lemma HeldRemove(t: Tree, ino: nat)
    ensures Held(t.(inodes := t.inodes - {ino})) == Held(t) - if ino in t.inodes then DataLen(t.inodes[ino]) else 0
  {
    SumRemove(Lens(t.inodes), ino);
    assert Lens(t.inodes - {ino}) == Lens(t.inodes) - {ino};
  }

  lemma HeldTerm(t: Tree, ino: nat)
    requires ino in t.inodes
    ensures DataLen(t.inodes[ino]) <= Held(t)
  {
    SumTerm(Lens(t.inodes), ino);
  }

  /** Directory entries weigh nothing. */
  lemma HeldChildren(t: Tree, dir: nat, name: string, ino: nat)
    ensures Held(AddChild(t, dir, name, ino)) == Held(t) && Held(DropChild(t, dir, name)) == Held(t)
  {
    hide Held;
    if dir in t.inodes && t.inodes[dir].kind.Dir? {
      HeldSet(t, dir, t.inodes[dir].(kind := Dir(t.inodes[dir].kind.children[name := ino])));
      HeldSet(t, dir, t.inodes[dir].(kind := Dir(t.inodes[dir].kind.children - {name})));
    }
  }

  lemma HeldAdd(t: Tree, sub: string, dir: nat, name: string, n: Node)
    requires Fresh(t)
    ensures Held(AddNode(t, sub, dir, name, n)) == Held(t) + DataLen(n) && Fresh(AddNode(t, sub, dir, name, n))
  {
    hide Held;
    var t1 := Tree(t.inodes[t.next := n], t.paths[sub := t.next], t.next + 1);
    HeldSet(t, t.next, n);
    assert Held(t1) == Held(SetNode(t, t.next, n)) by { HeldInodes(t1, SetNode(t, t.next, n)); }
    HeldChildren(t1, dir, name, t.next);
  }

  lemma HeldInodes(t: Tree, t': Tree)
    requires t.inodes == t'.inodes
    ensures Held(t) == Held(t')
  {
  }
}
