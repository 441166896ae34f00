/** The mount as it is kept: maps edited in place, with `used_bytes` adjusted step by step. */
module TmpfsMount {
  import opened Bytes
  import opened Tmpfs

  class Mount {
    const sizeLimit: nat
    var usedBytes: nat
    var nextIno: nat
    var inodes: map<nat, Node>
    var paths: map<string, nat>

    function T(): Tree
      reads this
    {
      Tree(inodes, paths, nextIno)
    }

    /** The accounting is exact, and within a limit that is set. */
    ghost predicate Valid()
      reads this
    {
      Fresh(T()) && usedBytes == Held(T()) && (sizeLimit != 0 ==> usedBytes <= sizeLimit)
    }

    /** `ram` is the number of 4096-byte pages; a limit of zero asks for half of them. */
    constructor (limit: nat, ram: nat)
      ensures Valid() && sizeLimit == (if limit == 0 then ram * 4096 / 2 else limit) && usedBytes == 0
      ensures T() == Tree(map[1 := Node(2, Dir(map[]))], map["/" := 1], 2)
    {
      sizeLimit := if limit == 0 then ram * 4096 / 2 else limit;
      usedBytes, nextIno := 0, 2;
      inodes, paths := map[1 := Node(2, Dir(map[]))], map["/" := 1];
      new;
      HeldNone();
      HeldSet(Tree(map[], paths, 2), 1, Node(2, Dir(map[])));
      assert map[][1 := Node(2, Dir(map[]))] == inodes;
    }

    /** Giving bytes back: there are always that many, so the subtraction never saturates. */
    method GiveBack(freed: nat)
      requires freed <= usedBytes
      modifies this`usedBytes
      ensures usedBytes == old(usedBytes) - freed
    {
      usedBytes := SaturatingSub(usedBytes, freed);
    }

    method InsertChild(dir: nat, name: string, ino: nat)
      modifies this`inodes
      ensures T() == AddChild(old(T()), dir, name, ino)
    {
      if dir in inodes && inodes[dir].kind.Dir? {
        inodes := inodes[dir := inodes[dir].(kind := Dir(inodes[dir].kind.children[name := ino]))];
      }
    }

    method RemoveChild(dir: nat, name: string)
      modifies this`inodes
      ensures T() == DropChild(old(T()), dir, name)
    {
      if dir in inodes && inodes[dir].kind.Dir? {
        inodes := inodes[dir := inodes[dir].(kind := Dir(inodes[dir].kind.children - {name}))];
      }
    }

    /** `drop_and_create`. */
    method DropAndCreate(sub: string, data: seq<byte>) returns (r: int)
      requires Valid()
      modifies this
      ensures Valid() && Create(old(T()), sizeLimit, old(usedBytes), sub, data) == (T(), r)
    {
      hide Held, Split;
      var (par, name) := Split(sub);
      if !CanAlloc(sizeLimit, usedBytes, |data|) {
        return -28;
      }
      if name == "" {
        return -22;
      }
      if par !in paths {
        return -2;
      }
      var dir, ino := paths[par], nextIno;
      HeldAdd(T(), sub, dir, name, Node(1, Regular(data)));
      nextIno := nextIno + 1;
      inodes := inodes[ino := Node(1, Regular(data))];
      paths := paths[sub := ino];
      usedBytes := usedBytes + |data|;
      InsertChild(dir, name, ino);
      r := 0;
    }

    /** `tmpfs_write_all`. */
    method WriteAllAt(sub: string, data: seq<byte>) returns (r: int)
      requires Valid()
      modifies this
      ensures Valid() && WriteAll(old(T()), sizeLimit, old(usedBytes), sub, data) == (T(), r)
    {
      hide Held, Create;
      if sub !in paths {
        r := DropAndCreate(sub, data);
        return;
      }
      var ino := paths[sub];
      if ino !in inodes {
        return -2;
      }
      var n := inodes[ino];
      if !n.kind.Regular? {
        return -21;
      }
      var delta := SaturatingSub(|data|, |n.kind.data|);
      if delta > 0 && !CanAlloc(sizeLimit, usedBytes, delta) {
        return -28;
      }
      HeldTerm(T(), ino);
      HeldSet(T(), ino, n.(kind := Regular(data)));
      GiveBack(|n.kind.data|);
      inodes := inodes[ino := n.(kind := Regular(data))];
      usedBytes := usedBytes + |data|;
      r := 0;
    }

    /** `tmpfs_pwrite`. */
    method PWriteAt(sub: string, off: nat, new': seq<byte>) returns (r: int)
      requires Valid()
      modifies this
      ensures Valid() && PWrite(old(T()), sizeLimit, old(usedBytes), sub, off, new') == (T(), r)
    {
      hide Held, Splice, Resized;
      if sub !in paths || paths[sub] !in inodes {
        return -2;
      }
      var ino := paths[sub];
      var n := inodes[ino];
      if !n.kind.Regular? {
        return -21;
      }
      var d, end := n.kind.data, off + |new'|;
      if end > |d| {
        var extra := end - |d|;
        if !CanAlloc(sizeLimit, usedBytes, extra) {
          return -28;
        }
        usedBytes := usedBytes + extra;
      }
      var d' := Splice(Resized(d, Max(end, |d|)), off, new');
      HeldSet(T(), ino, n.(kind := Regular(d')));
      inodes := inodes[ino := n.(kind := Regular(d'))];
      r := |new'|;
    }

    /** `tmpfs_truncate`. */
    method TruncateAt(sub: string, len: nat) returns (r: int)
      requires Valid()
      modifies this
      ensures Valid() && Truncate(old(T()), sizeLimit, old(usedBytes), sub, len) == (T(), r)
    {
      hide Held, Resized;
      if sub !in paths || paths[sub] !in inodes {
        return -2;
      }
      var ino := paths[sub];
      var n := inodes[ino];
      if !n.kind.Regular? {
        return -21;
      }
      var d := n.kind.data;
      HeldTerm(T(), ino);
      HeldSet(T(), ino, n.(kind := Regular(Resized(d, len))));
      if len > |d| {
        if !CanAlloc(sizeLimit, usedBytes, len - |d|) {
          return -28;
        }
        usedBytes := usedBytes + (len - |d|);
      } else {
        GiveBack(|d| - len);
      }
      inodes := inodes[ino := n.(kind := Regular(Resized(d, len)))];
      r := 0;
    }

    /** `tmpfs_mkdir`. */
    method MkDirAt(sub: string) returns (r: int)
      requires Valid()
      modifies this
      ensures Valid() && MkDir(old(T()), sub) == (T(), r)
    {
      hide Held, Split;
      var (par, name) := Split(sub);
      if sub in paths {
        return -17;
      }
      if name == "" {
        return -22;
      }
      if par !in paths {
        return -2;
      }
      var dir, ino := paths[par], nextIno;
      HeldAdd(T(), sub, dir, name, Node(2, Dir(map[])));
      nextIno := nextIno + 1;
      inodes := inodes[ino := Node(2, Dir(map[]))];
      paths := paths[sub := ino];
      InsertChild(dir, name, ino);
      r := 0;
    }

    /** `tmpfs_rmdir`. */
    method RmDirAt(sub: string) returns (r: int)
      requires Valid()
      modifies this
      ensures Valid() && RmDir(old(T()), sub) == (T(), r)
    {
      hide Held, Split;
      var (par, name) := Split(sub);
      if sub !in paths || paths[sub] !in inodes {
        return -2;
      }
      var ino := paths[sub];
      if !inodes[ino].kind.Dir? {
        return -20;
      }
      if inodes[ino].kind.children != map[] {
        return -39;
      }
      if par !in paths {
        return -2;
      }
      var dir := paths[par];
      HeldRemove(T(), ino);
      inodes := inodes - {ino};
      paths := paths - {sub};
      HeldInodes(T(), old(T()).(inodes := inodes));
      HeldChildren(T(), dir, name, 0);
      RemoveChild(dir, name);
      r := 0;
    }

    /** `tmpfs_unlink`. */
    method UnlinkAt(sub: string) returns (r: int)
      requires Valid()
      modifies this
      ensures Valid() && Unlink(old(T()), sub) == (T(), r)
    {
      hide Held, Split;
      var (par, name) := Split(sub);
      if sub !in paths || paths[sub] !in inodes {
        return -2;
      }
      var ino := paths[sub];
      var n := inodes[ino];
      if n.kind.Dir? {
        return -21;
      }
      var freed := DataLen(n);
      if par !in paths {
        return -2;
      }
      var dir := paths[par];
      HeldTerm(T(), ino);
      HeldRemove(T(), ino);
      HeldSet(T(), ino, n.(nlink := SaturatingSub(n.nlink, 1)));
      paths := paths - {sub};
      var nlink := SaturatingSub(n.nlink, 1);
      if nlink == 0 {
        inodes := inodes - {ino};
        GiveBack(freed);
      } else {
        inodes := inodes[ino := n.(nlink := nlink)];
      }
      HeldInodes(T(), old(T()).(inodes := inodes));
      HeldChildren(T(), dir, name, 0);
      RemoveChild(dir, name);
      r := 0;
    }

    /** `tmpfs_link`. */
    method LinkAt(sub: string, new': string) returns (r: int)
      requires Valid()
      modifies this
      ensures Valid() && Link(old(T()), sub, new') == (T(), r)
    {
      hide Held, Split;
      var (par, name) := Split(new');
      if sub !in paths {
        return -2;
      }
      var ino := paths[sub];
      if new' in paths {
        return -17;
      }
      if par !in paths {
        return -2;
      }
      var dir := paths[par];
      paths := paths[new' := ino];
      if ino in inodes {
        HeldSet(old(T()), ino, inodes[ino].(nlink := inodes[ino].nlink + 1));
        inodes := inodes[ino := inodes[ino].(nlink := inodes[ino].nlink + 1)];
      }
      HeldInodes(T(), old(T()).(inodes := inodes));
      HeldChildren(T(), dir, name, ino);
      InsertChild(dir, name, ino);
      r := 0;
    }

    /** The victim of a rename. */
    method RemoveVictim(sub: string)
      requires Valid()
      modifies this`usedBytes, this`inodes, this`paths
      ensures Valid() && T() == DropVictim(old(T()), sub)
    {
      hide Held, Split;
      if sub in paths {
        var victim := paths[sub];
        var freed := if victim in inodes then DataLen(inodes[victim]) else 0;
        if victim in inodes { HeldTerm(T(), victim); }
        HeldRemove(T(), victim);
        inodes := inodes - {victim};
        paths := paths - {sub};
        GiveBack(freed);
        var (par, name) := Split(sub);
        var dir := if par in paths then paths[par] else 0;
        HeldInodes(T(), old(T()).(inodes := inodes));
        HeldChildren(T(), dir, name, 0);
        RemoveChild(dir, name);
      }
    }

    /** `tmpfs_rename`, including the renames that fail once the old name is gone. */
    method RenameAt(sub: string, new': string) returns (r: int)
      requires Valid()
      modifies this
      ensures Valid() && Rename(old(T()), sub, new') == (T(), r)
    {
      hide Held, Split, DropVictim;
      if sub !in paths {
        return -2;
      }
      var ino := paths[sub];
      var (opar, oname) := Split(sub);
      if opar !in paths {
        return -2;
      }
      var odir := paths[opar];
      paths := paths - {sub};
      HeldInodes(T(), old(T()));
      HeldChildren(T(), odir, oname, 0);
      RemoveChild(odir, oname);
      RemoveVictim(new');
      var (npar, nname) := Split(new');
      if npar !in paths {
        return -2;
      }
      var ndir := paths[npar];
      ghost var t := T();
      paths := paths[new' := ino];
      HeldInodes(T(), t);
      HeldChildren(T(), ndir, nname, ino);
      InsertChild(ndir, nname, ino);
      r := 0;
    }

    /** `tmpfs_symlink`. */
    method SymLinkAt(target: seq<byte>, sub: string) returns (r: int)
      requires Valid()
      modifies this
      ensures Valid() && SymLink(old(T()), sizeLimit, old(usedBytes), target, sub) == (T(), r)
    {
      hide Held, Split;
      var (par, name) := Split(sub);
      if sub in paths {
        return -17;
      }
      if par !in paths {
        return -2;
      }
      if !CanAlloc(sizeLimit, usedBytes, |target|) {
        return -28;
      }
      var dir, ino := paths[par], nextIno;
      HeldAdd(T(), sub, dir, name, Node(1, Symlink(target)));
      nextIno := nextIno + 1;
      usedBytes := usedBytes + |target|;
      inodes := inodes[ino := Node(1, Symlink(target))];
      paths := paths[sub := ino];
      InsertChild(dir, name, ino);
      r := 0;
    }

    /** `tmpfs_read_all`. */
    method ReadAllAt(sub: string) returns (r: Option<seq<byte>>, errno: int)
      ensures (r, errno) == ReadAll(T(), sub)
    {
      if sub !in paths || paths[sub] !in inodes {
        return None, -2;
      }
      var n := inodes[paths[sub]];
      if n.kind.Regular? {
        return Some(n.kind.data), 0;
      }
      return None, -21;
    }
  }

  function ReadAll(t: Tree, sub: string): (Option<seq<byte>>, int) {
    if sub !in t.paths || t.paths[sub] !in t.inodes then (None, -2)
    else if t.inodes[t.paths[sub]].kind.Regular? then (Some(t.inodes[t.paths[sub]].kind.data), 0)
    else (None, -21)
  }

  lemma HeldNone()
    ensures forall p, n :: Held(Tree(map[], p, n)) == 0
  {
    forall p, n ensures Held(Tree(map[], p, n)) == 0 { assert Lens(map[]) == map[]; }
  }

  // --- what reads see ---

  /** A path that leads to another inode, or nowhere. */
  predicate Elsewhere(t: Tree, p: string, ino: nat) { p !in t.paths || t.paths[p] != ino }

  function DataOf(n: Node): Option<seq<byte>> { if n.kind.Regular? then Some(n.kind.data) else None }

  /** After a successful write the file reads back, and files with another inode read as before. */
  lemma WriteReadBack(t: Tree, limit: nat, used: nat, sub: string, data: seq<byte>, p: string)
    requires Fresh(t) && WriteAll(t, limit, used, sub, data).1 == 0
    ensures var t' := WriteAll(t, limit, used, sub, data).0;
      && ReadAll(t', sub) == (Some(data), 0)
      && (p != sub && (sub in t.paths ==> Elsewhere(t, p, t.paths[sub])) ==> ReadAll(t', p) == ReadAll(t, p))
  {
    hide Split;
    var t' := WriteAll(t, limit, used, sub, data).0;
    ReadSameUnless(t, t', p);
  }

  /** A positional write changes exactly its own bytes, and fills a gap behind the old end with zeros. */
  lemma PWriteBytes(t: Tree, limit: nat, used: nat, sub: string, off: nat, new': seq<byte>, i: nat)
    requires PWrite(t, limit, used, sub, off, new').1 >= 0
    ensures var t' := PWrite(t, limit, used, sub, off, new').0;
      ReadAll(t, sub).0.Some? && ReadAll(t', sub).0.Some? &&
      var (d, d') := (ReadAll(t, sub).0.value, ReadAll(t', sub).0.value);
      |d'| == Max(|d|, off + |new'|) &&
      (i < |d'| ==> d'[i] == if off <= i < off + |new'| then new'[i - off] else if i < |d| then d[i] else 0)
  {
  }

  /** The path leads to the same data in both trees. */
  ghost predicate SameLead(t: Tree, t': Tree, p: string) {
    (p in t.paths <==> p in t'.paths) &&
    (p in t.paths ==> t'.paths[p] == t.paths[p] && (t.paths[p] in t.inodes <==> t.paths[p] in t'.inodes)) &&
    (p in t.paths && t.paths[p] in t.inodes ==> DataOf(t'.inodes[t.paths[p]]) == DataOf(t.inodes[t.paths[p]]))
  }

  lemma ReadSameUnless(t: Tree, t': Tree, p: string)
    ensures SameLead(t, t', p) ==> ReadAll(t', p) == ReadAll(t, p)
  {
  }

  /** A hard link reads as the file it links to, and disturbs no other path. */
  lemma LinkEffect(t: Tree, sub: string, new': string, p: string)
    requires Link(t, sub, new').1 == 0 && p != new'
    ensures var t' := Link(t, sub, new').0;
      t'.paths[new'] == t'.paths[sub] && ReadAll(t', new') == ReadAll(t, sub) && ReadAll(t', p) == ReadAll(t, p)
  {
    hide Split;
    ReadSameUnless(t, Link(t, sub, new').0, p);
    ReadSameUnless(t, Link(t, sub, new').0, sub);
  }

  /** Unlinking removes the name; another name loses the data exactly when it shares the inode and the last link was counted. */
  lemma UnlinkEffect(t: Tree, sub: string, p: string)
    requires Unlink(t, sub).1 == 0 && p != sub
    ensures var t' := Unlink(t, sub).0;
      && ReadAll(t', sub) == (None, -2)
      && (ReadAll(t', p) == ReadAll(t, p) <==> Elsewhere(t, p, t.paths[sub]) || t.inodes[t.paths[sub]].nlink > 1)
  {
    hide Split;
    ReadSameUnless(t, Unlink(t, sub).0, p);
  }

  /** Truncation keeps the common prefix and fills with zeros, and touches no other inode's data. */
  lemma TruncateBytes(t: Tree, limit: nat, used: nat, sub: string, len: nat, i: nat, p: string)
    requires Truncate(t, limit, used, sub, len).1 == 0
    ensures var t' := Truncate(t, limit, used, sub, len).0;
      ReadAll(t, sub).0.Some? && ReadAll(t', sub).0.Some? &&
      var (d, d') := (ReadAll(t, sub).0.value, ReadAll(t', sub).0.value);
      |d'| == len && (i < len ==> d'[i] == if i < |d| then d[i] else 0) &&
      (Elsewhere(t, p, t.paths[sub]) ==> ReadAll(t', p) == ReadAll(t, p))
  {
    ReadSameUnless(t, Truncate(t, limit, used, sub, len).0, p);
  }

  /** Making a directory, and removing it, leaves every other path as it was. */
  lemma MkDirRmDir(t: Tree, sub: string, p: string)
    requires Fresh(t) && MkDir(t, sub).1 == 0 && p != sub
    ensures var t' := MkDir(t, sub).0; var t'' := RmDir(t', sub).0;
      && RmDir(t', sub).1 == 0 && sub !in t''.paths && t''.inodes.Keys == t.inodes.Keys
      && ReadAll(t', p) == ReadAll(t, p) && ReadAll(t'', p) == ReadAll(t, p)
  {
    hide Split;
    var t' := MkDir(t, sub).0;
    ReadSameUnless(t, t', p);
    ReadSameUnless(t', RmDir(t', sub).0, p);
  }

  // --- rename ---

  /** The renamed name replaces a file of another name. */
  predicate HasVictim(t: Tree, sub: string, new': string) { sub != new' && new' in t.paths }

  /** The file that a rename replaces, with its inode still live, is also reached by p. */
  predicate SharesVictim(t: Tree, sub: string, new': string, p: string) {
    HasVictim(t, sub, new') && p in t.paths && t.paths[p] == t.paths[new'] && t.paths[p] in t.inodes
  }

  /** A rename fails exactly when a name it needs is missing, or is one that it removes on the way. */
  lemma RenameFailsExactly(t: Tree, sub: string, new': string)
    ensures var (opar, npar) := (Split(sub).0, Split(new').0);
      Rename(t, sub, new').1 != 0 <==> sub !in t.paths || opar !in t.paths || npar !in t.paths || npar == sub || npar == new'
    ensures Rename(t, sub, new').1 in {0, -2}
  {
    hide Split;
  }

  /** A failed rename leaves the tree alone exactly when it stopped at the old name; otherwise both names are gone. */
  lemma FailedRenameKeeps(t: Tree, sub: string, new': string)
    requires Rename(t, sub, new').1 != 0
    ensures Rename(t, sub, new').0 == t <==> sub !in t.paths || Split(sub).0 !in t.paths
    ensures sub in t.paths && Split(sub).0 in t.paths ==>
      sub !in Rename(t, sub, new').0.paths && new' !in Rename(t, sub, new').0.paths
  {
    hide Split;
  }

  lemma RenamePaths(t: Tree, sub: string, new': string)
    requires Rename(t, sub, new').1 == 0
    ensures Rename(t, sub, new').0.paths == (t.paths - {sub})[new' := t.paths[sub]]
  {
    hide Split;
  }

  /** The inodes after a successful rename: all but the victim, with their data. */
  lemma RenameInodes(t: Tree, sub: string, new': string, i: nat)
    requires Rename(t, sub, new').1 == 0
    ensures var t' := Rename(t, sub, new').0;
      && (i in t'.inodes <==> i in t.inodes && !(HasVictim(t, sub, new') && i == t.paths[new']))
      && (i in t'.inodes ==> DataOf(t'.inodes[i]) == DataOf(t.inodes[i]))
  {
    hide Split;
  }

  /** A successful rename moves the file to its new name exactly when it did not replace itself. */
  lemma RenameMoves(t: Tree, sub: string, new': string)
    requires Rename(t, sub, new').1 == 0
    ensures var t' := Rename(t, sub, new').0;
      && (ReadAll(t', new') == ReadAll(t, sub) <==> !SharesVictim(t, sub, new', sub))
      && (sub != new' ==> ReadAll(t', sub) == (None, -2))
  {
    hide Rename;
    RenamePaths(t, sub, new');
    RenameFailsExactly(t, sub, new');
    RenameInodes(t, sub, new', t.paths[sub]);
  }

  /** Every other path reads as before exactly when it is not another name of the replaced file. */
  lemma RenameKeepsOthers(t: Tree, sub: string, new': string, p: string)
    requires Rename(t, sub, new').1 == 0 && p != sub && p != new'
    ensures var t' := Rename(t, sub, new').0;
      && (ReadAll(t', p) == ReadAll(t, p) <==> !SharesVictim(t, sub, new', p))
      && (SharesVictim(t, sub, new', p) ==> p in t'.paths && ReadAll(t', p) == (None, -2))
  {
    hide Rename;
    RenamePaths(t, sub, new');
    if p in t.paths { RenameInodes(t, sub, new', t.paths[p]); }
  }

  /** A file renamed over another name of itself is lost, and the call reports success. */
  lemma RenameOverOwnLink(t: Tree, sub: string, new': string)
    requires Rename(t, sub, new').1 == 0 && SharesVictim(t, sub, new', sub)
    ensures ReadAll(Rename(t, sub, new').0, new') == (None, -2) && t.paths[sub] !in Rename(t, sub, new').0.inodes
  {
    hide Rename;
    RenamePaths(t, sub, new');
    RenameFailsExactly(t, sub, new');
    RenameInodes(t, sub, new', t.paths[sub]);
  }

  /** Renaming anything onto the mount's root fails, and takes the root away. */
  lemma RenameOntoRoot(t: Tree, sub: string)
    requires sub in t.paths && Split(sub).0 in t.paths && sub != "/" && "/" in t.paths
    ensures var t' := Rename(t, sub, "/").0;
      Rename(t, sub, "/").1 == -2 && "/" !in t'.paths && sub !in t'.paths && t.paths["/"] !in t'.inodes
  {
    assert Split("/").0 == "/";
    RenameFailsExactly(t, sub, "/");
    FailedRenameKeeps(t, sub, "/");
  }

  lemma SlashBefore(dir: string, name: string)
    requires '/' !in name
    ensures var p := dir + "/" + name; LastSlash(p, |p|) == Some(|dir|)
  {
    hide LastSlash;
    var p := dir + "/" + name;
    assert p[|dir|] == '/';
    forall i | |dir| < i < |p| ensures p[i] != '/' { assert p[i] == name[i - |dir| - 1]; }
  }

  /** Renaming a name to one below itself fails, and takes the name away. */
  lemma RenameBelowItself(t: Tree, sub: string, name: string)
    requires sub in t.paths && Split(sub).0 in t.paths && sub != "" && '/' !in name
    ensures Rename(t, sub, sub + "/" + name).1 == -2 && sub !in Rename(t, sub, sub + "/" + name).0.paths
  {
    hide Rename;
    SlashBefore(sub, name);
    var p := sub + "/" + name;
    assert p[..|sub|] == sub;
    RenameFailsExactly(t, sub, p);
    FailedRenameKeeps(t, sub, p);
  }
}
