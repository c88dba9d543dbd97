/** dirlookup, dirlink, skipelem and namex (fs.c) over the file system of FsCode. */
module DirCode {
  import opened Common
  import opened Blocks
  import opened FsModel
  import opened FsLemmas
  import opened FsImage
  import opened FsCode
  import opened DirModel

  const T_DIR := 1
  const ROOTINO := 1

  /** The most blocks that a new entry can log: its block, the indirect block, a bitmap block for
      each, and the inode. */
  const ENTRY_BLOCKS := 5

  /** namecmp: equal up to a NUL or DIRSIZ bytes. */
  method Namecmp(s: Name, t: seq<byte>) returns (same: bool)
    requires NoNul(s) && |t| == DIRSIZ
    ensures same <==> Trunc(s) == Cut(t)
    ensures same <==> SameName(s, t)
  {
    var n := 0;
    while n < DIRSIZ && n < |s| && s[n] == t[n]
      invariant 0 <= n <= DIRSIZ && n <= |s| && s[..n] == t[..n]
    {
      n := n + 1;
    }
    CompareNames(s, t, n);
    if n == DIRSIZ {
      return true;
    }
    return (if n < |s| then s[n] else 0) == t[n];
  }

  /** An entry of a directory, read through readi; a part of one is a panic. */
  method ReadEntry(fs: FileSys, dp: InCore, k: nat) returns (e: Outcome<seq<byte>>)
    requires fs.Ok(dp) && dp.ty == T_DIR && dp.size <= MAXBYTES && 16 * k < dp.size
    modifies fs`bitmap, fs`blocks, fs`logged, fs`calls, fs`owner, dp`addrs
    ensures fs.bitmap == old(fs.bitmap) && fs.blocks == old(fs.blocks) && fs.logged == old(fs.logged)
    ensures fs.calls == old(fs.calls) && fs.owner == old(fs.owner) && dp.addrs == old(dp.addrs)
    ensures var data := Contents(fs.blocks, dp.Value());
      e == if k < Count(data) then Done(Entry(data, k)) else Panic
  {
    var r, dst := fs.Readi(dp, 16 * k, 16, 0);
    assert Add32(16 * k, 16) == 16 * k + 16;
    if r.Panic? || r.value != 16 {
      return Panic;
    }
    return Done(dst);
  }

  /** The inode number of the first live entry with the name, and its place. The answer is a panic
      exactly if this is not a directory, or none has the name and the file ends inside an entry. */
  ghost predicate LooksUp(data: seq<byte>, isDir: bool, n: Name, r: Outcome<Option<nat>>, k: nat) {
    && (r.Panic? <==> !isDir || (|data| % 16 != 0 && NoneBinds(data, n)))
    && (r.Done? && r.value.Some? ==>
          Binds(data, k, n) && r.value.value == Inum(Entry(data, k)) && NoneBefore(data, n, k))
    && (r.Done? && r.value.None? ==> NoneBinds(data, n))
  }

  ghost predicate NoneBinds(data: seq<byte>, n: Name) {
    forall j: nat :: !Binds(data, j, n)
  }

  /** For a directory in order that is exactly what its map says. */
  lemma LooksUpMap(data: seq<byte>, n: Name, r: Outcome<Option<nat>>, k: nat)
    requires DirOk(data) && LooksUp(data, true, n, r, k)
    ensures r == Done(if n in AsMap(data) then Some(AsMap(data)[n]) else None)
  {
    InMap(data, n);
  }

  /** The first k entries do not bind the name. */
  ghost predicate NoneBefore(data: seq<byte>, n: Name, k: nat) {
    forall j: nat :: j < k ==> !Binds(data, j, n)
  }

  lemma NoneFurther(data: seq<byte>, n: Name, k: nat)
    requires NoneBefore(data, n, k)
    ensures k >= Count(data) ==> NoneBinds(data, n)
    ensures !Binds(data, k, n) ==> NoneBefore(data, n, k + 1)
  {
  }

  /** One turn of dirlookup's loop: the inode number, if entry k is live and has the name. */
  method MatchEntry(fs: FileSys, dp: InCore, k: nat, name: Name) returns (r: Outcome<Option<nat>>)
    requires fs.Ok(dp) && dp.ty == T_DIR && dp.size <= MAXBYTES && 16 * k < dp.size && NoNul(name)
    modifies fs`bitmap, fs`blocks, fs`logged, fs`calls, fs`owner, dp`addrs
    ensures fs.bitmap == old(fs.bitmap) && fs.blocks == old(fs.blocks) && fs.logged == old(fs.logged)
    ensures fs.calls == old(fs.calls) && fs.owner == old(fs.owner) && dp.addrs == old(dp.addrs)
    ensures var data := Contents(fs.blocks, dp.Value());
      if k >= Count(data) then r == Panic
      else r == Done(if Binds(data, k, Trunc(name)) then Some(Inum(Entry(data, k))) else None)
  {
    var e := ReadEntry(fs, dp, k);
    if e.Panic? {
      return Panic;
    }
    var lo: nat, hi: nat := e.value[0], e.value[1];
    if lo + 256 * hi != 0 {
      var same := Namecmp(name, e.value[2..]);
      if same {
        return Done(Some(lo + 256 * hi));
      }
    }
    return Done(None);
  }

  /** dirlookup: reads entry after entry through readi. */
  method Dirlookup(fs: FileSys, dp: InCore, name: Name) returns (r: Outcome<Option<nat>>, k: nat)
    requires fs.Ok(dp) && dp.size <= MAXBYTES && NoNul(name)
    modifies fs`bitmap, fs`blocks, fs`logged, fs`calls, fs`owner, dp`addrs
    ensures fs.bitmap == old(fs.bitmap) && fs.blocks == old(fs.blocks) && fs.logged == old(fs.logged)
    ensures fs.calls == old(fs.calls) && fs.owner == old(fs.owner) && dp.addrs == old(dp.addrs)
    ensures LooksUp(Contents(fs.blocks, dp.Value()), dp.ty == T_DIR, Trunc(name), r, k)
  {
    k := 0;
    if dp.ty != T_DIR {
      return Panic, k;
    }
    ghost var data := Contents(fs.blocks, dp.Value());
    while 16 * k < dp.size
      invariant fs.bitmap == old(fs.bitmap) && fs.blocks == old(fs.blocks) && fs.logged == old(fs.logged)
      invariant fs.calls == old(fs.calls) && fs.owner == old(fs.owner) && dp.addrs == old(dp.addrs)
      invariant k <= Count(data) && NoneBefore(data, Trunc(name), k)
      decreases dp.size - 16 * k
    {
      NoneFurther(data, Trunc(name), k);
      var e := MatchEntry(fs, dp, k, name);
      if e.Panic? {
        return Panic, k;
      }
      if e.value.Some? {
        return Done(e.value), k;
      }
      k := k + 1;
    }
    NoneFurther(data, Trunc(name), k);
    return Done(None), k;
  }

  /** dirlink's search: the first entry not in use, or the end. */
  method FindFree(fs: FileSys, dp: InCore) returns (k: nat)
    requires fs.Ok(dp) && dp.ty == T_DIR && dp.size <= MAXBYTES && dp.size % 16 == 0
    modifies fs`bitmap, fs`blocks, fs`logged, fs`calls, fs`owner, dp`addrs
    ensures fs.bitmap == old(fs.bitmap) && fs.blocks == old(fs.blocks) && fs.logged == old(fs.logged)
    ensures fs.calls == old(fs.calls) && fs.owner == old(fs.owner) && dp.addrs == old(dp.addrs)
    ensures var data := Contents(fs.blocks, dp.Value());
      k <= Count(data) && !Live(data, k) && forall j: nat :: j < k ==> Live(data, j)
  {
    ghost var data := Contents(fs.blocks, dp.Value());
    k := 0;
    while 16 * k < dp.size
      invariant fs.bitmap == old(fs.bitmap) && fs.blocks == old(fs.blocks) && fs.logged == old(fs.logged)
      invariant fs.calls == old(fs.calls) && fs.owner == old(fs.owner) && dp.addrs == old(dp.addrs)
      invariant k <= Count(data) && forall j: nat :: j < k ==> Live(data, j)
      decreases dp.size - 16 * k
    {
      var e := ReadEntry(fs, dp, k);
      var lo: nat, hi: nat := e.value[0], e.value[1];
      if lo + 256 * hi == 0 {
        return;
      }
      k := k + 1;
    }
  }

  /** What dirlink does to a directory: the entry for the name goes to place k, the first that is not
      in use, and the inode number is cut to 16 bits. */
  ghost predicate Links(was: seq<byte>, now: seq<byte>, k: nat, name: Name, inum: nat) {
    && |was| % 16 == 0 && k <= Count(was) && !Live(was, k) && (forall j: nat :: j < k ==> Live(was, j))
    && now == Overwrite(was, 16 * k, Dirent(name, inum % 0x1_0000))
  }

  /** In a directory in order that adds exactly the binding; it is a binding to inum if and only if
      inum is between 1 and 65535. */
  lemma LinksBind(was: seq<byte>, now: seq<byte>, k: nat, name: Name, inum: nat)
    requires Links(was, now, k, name, inum) && DirOk(was) && NoNul(name) && Trunc(name) !in AsMap(was)
    ensures DirOk(now)
    ensures AsMap(now) == if inum % 0x1_0000 == 0 then AsMap(was) else AsMap(was)[Trunc(name) := inum % 0x1_0000]
    ensures Trunc(name) in AsMap(now) && AsMap(now)[Trunc(name)] == inum <==> 0 < inum < 0x1_0000
  {
    InMap(was, Trunc(name));
    LinkAdds(was, k, name, inum % 0x1_0000);
  }

  /** So inode number 65536, linked into an empty directory, binds nothing. */
  lemma LinkLost() returns (name: Name, now: seq<byte>)
    ensures NoNul(name) && Links([], now, 0, name, 65536) && AsMap(now) == map[]
  {
    name := [97];
    now := Overwrite([], 0, Dirent(name, 0));
    LinksBind([], now, 0, name, 65536);
  }

  /** dirlink: refuses a name that is bound, and otherwise links it. */
  method Dirlink(fs: FileSys, dp: InCore, name: Name, inum: nat) returns (r: Outcome<int>, ghost k: nat)
    requires fs.Ok(dp) && fs.Stored(dp) && dp.size <= MAXBYTES && NoNul(name)
    modifies fs`bitmap, fs`blocks, fs`dinodes, fs`logged, fs`calls, fs`owner, dp`addrs, dp`size
    ensures r.Panic? ==>
      dp.ty != T_DIR || Full(fs.bitmap) || old(dp.size) % 16 != 0 || old(dp.size) == MAXBYTES
    ensures r.Done? ==> dp.ty == T_DIR && fs.Ok(dp) && fs.Stored(dp) && dp.size <= MAXBYTES
    ensures r.Done? ==> var was, now := old(Contents(fs.blocks, dp.Value())), Contents(fs.blocks, dp.Value());
      if exists j: nat :: Binds(was, j, Trunc(name)) then
        && r.value == -1 && now == was && fs.Snap() == old(fs.Snap()) && fs.calls == old(fs.calls)
      else
        && r.value == 0 && Links(was, now, k, name, inum)
        && |fs.logged - old(fs.logged)| <= ENTRY_BLOCKS && |Early(fs.calls) - old(fs.logged)| < ENTRY_BLOCKS
        && OthersKept(old(fs.blocks), old(fs.dinodes), fs.blocks, fs.dinodes, dp.inum)
  {
    k := 0;
    var found, at := Dirlookup(fs, dp, name);
    if found.Panic? {
      return Panic, k;
    }
    if found.value.Some? {
      return Done(-1), k;
    }
    var free := FindFree(fs, dp);
    k := free;
    r := AddEntry(fs, dp, free, name, inum);
  }

  /** dirlink's write of the new entry. */
  method AddEntry(fs: FileSys, dp: InCore, k: nat, name: Name, inum: nat) returns (r: Outcome<int>)
    requires fs.Ok(dp) && fs.Stored(dp) && dp.ty == T_DIR && dp.size <= MAXBYTES && dp.size % 16 == 0
    requires 16 * k <= dp.size
    modifies fs`bitmap, fs`blocks, fs`dinodes, fs`logged, fs`calls, fs`owner, dp`addrs, dp`size
    ensures r.Panic? ==> Full(fs.bitmap) || old(dp.size) == MAXBYTES
    ensures r.Done? ==> r.value == 0 && fs.Ok(dp) && fs.Stored(dp) && dp.size <= MAXBYTES
    ensures r.Done? ==>
      && |fs.logged - old(fs.logged)| <= ENTRY_BLOCKS && |Early(fs.calls) - old(fs.logged)| < ENTRY_BLOCKS
      && OthersKept(old(fs.blocks), old(fs.dinodes), fs.blocks, fs.dinodes, dp.inum)
      && Contents(fs.blocks, dp.Value()) ==
         Overwrite(old(Contents(fs.blocks, dp.Value())), 16 * k, Dirent(name, inum % 0x1_0000))
  {
    WriteFailsIff(dp.size, 16 * k, 16);
    assert BlockOf(16 * k + 15) == BlockOf(16 * k);
    var wrote := fs.Writei(dp, Dirent(name, inum % 0x1_0000), 16 * k, 0);
    if wrote.Panic? || wrote.value != 16 {
      return Panic;
    }
    return Done(0);
  }

  /** Positions i up to j of a path are its first element: only slashes stand before it, none in it, and the path
      or a slash ends it. The name is its first 14 bytes. */
  ghost predicate FirstElement(path: seq<byte>, i: nat, j: nat, name: Name) {
    && i < j <= |path| && name == path[i..if j - i > 14 then i + 14 else j]
    && (forall k :: 0 <= k < i ==> path[k] == 47) && (forall k :: i <= k < j ==> path[k] != 47)
    && (j == |path| || path[j] == 47)
  }

  /** The name is the first element of the path, cut to 14 bytes. */
  ghost predicate ElementIs(path: seq<byte>, name: Name) {
    exists i: nat, j: nat :: FirstElement(path, i, j, name)
  }

  /** What is left of a path behind leading slashes. */
  ghost predicate Behind(path: seq<byte>, rest: seq<byte>) {
    |rest| <= |path| && rest == path[|path| - |rest|..] && forall k :: 0 <= k < |path| - |rest| ==> path[k] == 47
  }

  lemma FirstFound(path: seq<byte>, rest: seq<byte>, n: nat)
    requires Behind(path, rest) && 0 < n <= |rest| && (n == |rest| || rest[n] == 47)
    requires forall k :: 0 <= k < n ==> rest[k] != 47
    ensures ElementIs(path, Trunc(rest[..n]))
  {
    var i: nat := |path| - |rest|;
    var j: nat := i + n;
    assert forall k :: i <= k < |path| ==> path[k] == rest[k - i];
    if n > 14 {
      assert Trunc(rest[..n]) == rest[..14] == path[i..i + 14];
    } else {
      assert Trunc(rest[..n]) == rest[..n] == path[i..j];
    }
    assert FirstElement(path, i, j, Trunc(rest[..n]));
  }

  /** skipelem: the first component of a path, and what follows it and its slashes. */
  method Skipelem(path: seq<byte>) returns (more: bool, name: Name, rest: seq<byte>)
    requires NoNul(path)
    ensures !more <==> Components(path) == []
    ensures more ==> Components(path) == [name] + Components(rest) && |rest| < |path|
    ensures more ==> NoNul(name) && Trunc(name) == name && NoNul(rest) && (rest == [] || rest[0] != SLASH)
    ensures more ==> ElementIs(path, name)
  {
    rest := SkipSlashes(path);
    NoComponents(rest);
    if rest == [] {
      return false, [], [];
    }
    var n := 0;
    while n < |rest| && rest[n] != SLASH
      invariant 0 <= n <= |rest| && forall i :: 0 <= i < n ==> rest[i] != SLASH
    {
      n := n + 1;
    }
    ElementFirst(rest, n);
    FirstFound(path, rest, n);
    name := Trunc(rest[..n]);
    rest := SkipSlashes(rest[n..]);
    more := true;
  }

  /** The loops of skipelem over slashes. */
  method SkipSlashes(path: seq<byte>) returns (rest: seq<byte>)
    requires NoNul(path)
    ensures NoNul(rest) && Components(rest) == Components(path) && Behind(path, rest)
    ensures rest == [] || rest[0] != SLASH
  {
    rest := path;
    while rest != [] && rest[0] == SLASH
      invariant NoNul(rest) && Components(rest) == Components(path) && Behind(path, rest)
      decreases |rest|
    {
      SlashSkipped(rest);
      rest := rest[1..];
    }
  }

  // ---------------------------------------------------------------- walking the tree

  /** Every directory is in order and its entries stay inside the inode table. */
  ghost predicate TreeOk(blocks: seq<Block>, inos: seq<Inode>) {
    forall i :: 0 <= i < |inos| && inos[i].ty == T_DIR ==>
      && inos[i].size <= MAXBYTES && DirOk(Contents(blocks, inos[i]))
      && forall n :: n in AsMap(Contents(blocks, inos[i])) ==> AsMap(Contents(blocks, inos[i]))[n] < |inos|
  }

  /** One component: ilock panics on a free inode, only a directory binds anything. */
  ghost function Step(blocks: seq<Block>, inos: seq<Inode>, i: nat, name: Name): (r: Outcome<Option<nat>>)
    requires TreeOk(blocks, inos) && i < |inos|
    ensures r.Done? && r.value.Some? ==> r.value.value < |inos|
  {
    if inos[i].ty == 0 then Panic
    else if inos[i].ty != T_DIR then Done(None)
    else
      var m := AsMap(Contents(blocks, inos[i]));
      Done(if name in m then Some(m[name]) else None)
  }

  /** The fold of lookups over the components. */
  ghost function Walk(blocks: seq<Block>, inos: seq<Inode>, i: nat, names: seq<Name>): (r: Outcome<Option<nat>>)
    requires TreeOk(blocks, inos) && i < |inos|
    ensures r.Done? && r.value.Some? ==> r.value.value < |inos|
    decreases |names|
  {
    if names == [] then Done(Some(i))
    else
      var next := Step(blocks, inos, i, names[0]);
      if next.Panic? || next.value.None? then next else Walk(blocks, inos, next.value.value, names[1..])
  }

  /** The directory that holds the last component. */
  ghost function Parent(blocks: seq<Block>, inos: seq<Inode>, i: nat, names: seq<Name>): Outcome<Option<nat>>
    requires TreeOk(blocks, inos) && i < |inos|
  {
    if names == [] then Done(None)
    else
      var d := Walk(blocks, inos, i, names[..|names| - 1]);
      if d.Panic? || d.value.None? then d
      else if inos[d.value.value].ty == 0 then Panic
      else if inos[d.value.value].ty != T_DIR then Done(None) else d
  }

  /** One component, in plain terms: a free inode is a panic, a file that is no directory leads nowhere, and a
      directory leads where its entry for the name does. */
  lemma WalkOne(blocks: seq<Block>, inos: seq<Inode>, i: nat, n: Name)
    requires TreeOk(blocks, inos) && i < |inos|
    ensures inos[i].ty == 0 ==> Walk(blocks, inos, i, [n]) == Panic
    ensures inos[i].ty != 0 && inos[i].ty != 1 ==> Walk(blocks, inos, i, [n]) == Done(None)
    ensures inos[i].ty == 1 ==> var data := Contents(blocks, inos[i]);
      && (forall k: nat :: Binds(data, k, n) ==> Walk(blocks, inos, i, [n]) == Done(Some(Inum(Entry(data, k)))))
      && ((forall k: nat :: !Binds(data, k, n)) ==> Walk(blocks, inos, i, [n]) == Done(None))
  {
    assert [n][1..] == [];
    if inos[i].ty == 1 {
      InMap(Contents(blocks, inos[i]), n);
    }
  }

  /** A path of two parts is walked one part after the other. */
  lemma {:induction false} WalkJoin(blocks: seq<Block>, inos: seq<Inode>, i: nat, a: seq<Name>, b: seq<Name>)
    requires TreeOk(blocks, inos) && i < |inos|
    ensures var first := Walk(blocks, inos, i, a);
      Walk(blocks, inos, i, a + b) ==
        if first.Panic? || first.value.None? then first else Walk(blocks, inos, first.value.value, b)
    decreases |a|
  {
    if a == [] {
      assert a + b == b;
    } else {
      assert (a + b)[1..] == a[1..] + b && (a + b)[0] == a[0];
      var next := Step(blocks, inos, i, a[0]);
      if next.Done? && next.value.Some? {
        WalkJoin(blocks, inos, next.value.value, a[1..], b);
      }
    }
  }

  /** Looking the last component up in the directory that nameiparent gives is what namei does. */
  lemma ParentThenLast(blocks: seq<Block>, inos: seq<Inode>, i: nat, names: seq<Name>)
    requires TreeOk(blocks, inos) && i < |inos| && names != []
    ensures var d := Parent(blocks, inos, i, names);
      d.Done? && d.value.Some? ==>
        && d.value.value < |inos| && inos[d.value.value].ty == 1
        && Walk(blocks, inos, i, names) == Walk(blocks, inos, d.value.value, [names[|names| - 1]])
  {
    var n := |names| - 1;
    assert names == names[..n] + [names[n]];
    WalkJoin(blocks, inos, i, names[..n], [names[n]]);
  }

  /** Parent, one component at a time. */
  lemma ParentStep(blocks: seq<Block>, inos: seq<Inode>, i: nat, names: seq<Name>)
    requires TreeOk(blocks, inos) && i < |inos| && names != []
    ensures inos[i].ty == 0 ==> Parent(blocks, inos, i, names) == Panic
    ensures inos[i].ty != 0 && inos[i].ty != T_DIR ==> Parent(blocks, inos, i, names) == Done(None)
    ensures inos[i].ty == T_DIR && |names| == 1 ==> Parent(blocks, inos, i, names) == Done(Some(i))
    ensures |names| > 1 ==> var next := Step(blocks, inos, i, names[0]);
      Parent(blocks, inos, i, names) ==
        if next.Panic? || next.value.None? then next else Parent(blocks, inos, next.value.value, names[1..])
  {
    var front := names[..|names| - 1];
    if |names| > 1 {
      assert front[0] == names[0] && front[1..] == names[1..][..|names| - 2];
    }
  }

  /** ilock and dirlookup on inode i. */
  method LookIn(fs: FileSys, i: nat, n: Name) returns (r: Outcome<Option<nat>>)
    requires fs.Tracked() && Owned(fs.sup, fs.bitmap, fs.blocks, fs.dinodes, fs.owner)
    requires AllMapped(fs.blocks, fs.dinodes)
    requires TreeOk(fs.blocks, fs.dinodes) && i < |fs.dinodes| && fs.dinodes[i].ty == T_DIR && NoNul(n) && Trunc(n) == n
    modifies fs`bitmap, fs`blocks, fs`logged, fs`calls, fs`owner
    ensures fs.bitmap == old(fs.bitmap) && fs.blocks == old(fs.blocks) && fs.logged == old(fs.logged)
    ensures fs.calls == old(fs.calls) && fs.owner == old(fs.owner)
    ensures r == Step(fs.blocks, fs.dinodes, i, n)
  {
    var ino := new InCore(i, fs.dinodes[i]);
    assert fs.Inos(ino) == fs.dinodes;
    var found, k := Dirlookup(fs, ino, n);
    LooksUpMap(Contents(fs.blocks, ino.Value()), n, found, k);
    return found;
  }

  /** What namex is to answer from inode i for these components. */
  ghost function Answer(blocks: seq<Block>, inos: seq<Inode>, i: nat, names: seq<Name>,
                        parent: bool): Outcome<Option<nat>>
    requires TreeOk(blocks, inos) && i < |inos|
  {
    if parent then Parent(blocks, inos, i, names) else Walk(blocks, inos, i, names)
  }

  lemma AnswerStep(blocks: seq<Block>, inos: seq<Inode>, i: nat, name: Name, rest: seq<Name>, parent: bool)
    requires TreeOk(blocks, inos) && i < |inos|
    ensures var answer := Answer(blocks, inos, i, [name] + rest, parent);
      if inos[i].ty == 0 then answer == Panic
      else if inos[i].ty != T_DIR then answer == Done(None)
      else if parent && rest == [] then answer == Done(Some(i))
      else
        var next := Step(blocks, inos, i, name);
        answer == if next.Panic? || next.value.None? then next else Answer(blocks, inos, next.value.value, rest, parent)
  {
    var names := [name] + rest;
    assert names[0] == name && names[1..] == rest;
    ParentStep(blocks, inos, i, names);
  }

  /** One turn of namex's loop at inode i, with n split off the path: the answer, or the next inode. */
  method Descend(fs: FileSys, i: nat, n: Name, rest: seq<byte>, parent: bool)
    returns (done: bool, r: Outcome<Option<nat>>)
    requires fs.Tracked() && Owned(fs.sup, fs.bitmap, fs.blocks, fs.dinodes, fs.owner)
    requires AllMapped(fs.blocks, fs.dinodes) && TreeOk(fs.blocks, fs.dinodes) && i < |fs.dinodes|
    requires NoNul(n) && Trunc(n) == n && (rest == [] || rest[0] != SLASH)
    modifies fs`bitmap, fs`blocks, fs`logged, fs`calls, fs`owner
    ensures fs.bitmap == old(fs.bitmap) && fs.blocks == old(fs.blocks) && fs.logged == old(fs.logged)
    ensures fs.calls == old(fs.calls) && fs.owner == old(fs.owner)
    ensures !done ==> r.Done? && r.value.Some? && r.value.value < |fs.dinodes|
    ensures done && r.Done? && r.value.Some? ==> parent && Components(rest) == []
    ensures var answer := Answer(fs.blocks, fs.dinodes, i, [n] + Components(rest), parent);
      answer == if done then r else Answer(fs.blocks, fs.dinodes, r.value.value, Components(rest), parent)
  {
    AnswerStep(fs.blocks, fs.dinodes, i, n, Components(rest), parent);
    NoComponents(rest);
    if fs.dinodes[i].ty == 0 {
      return true, Panic;
    }
    if fs.dinodes[i].ty != T_DIR {
      return true, Done(None);
    }
    if parent && rest == [] {
      return true, Done(Some(i));
    }
    r := LookIn(fs, i, n);
    done := r.Panic? || r.value.None?;
  }

  /** namex: the fold of lookups over the components of the path, from the root or from cwd; with
      parent, the directory of the last component and that component. */
  method Namex(fs: FileSys, path: seq<byte>, cwd: nat, parent: bool) returns (ip: Outcome<Option<nat>>, name: Name)
    requires fs.Tracked() && Owned(fs.sup, fs.bitmap, fs.blocks, fs.dinodes, fs.owner)
    requires AllMapped(fs.blocks, fs.dinodes)
    requires NoNul(path) && TreeOk(fs.blocks, fs.dinodes) && cwd < |fs.dinodes| && ROOTINO < |fs.dinodes|
    modifies fs`bitmap, fs`blocks, fs`logged, fs`calls, fs`owner
    ensures fs.bitmap == old(fs.bitmap) && fs.blocks == old(fs.blocks) && fs.logged == old(fs.logged)
    ensures fs.calls == old(fs.calls) && fs.owner == old(fs.owner)
    ensures var start := if path != [] && path[0] == SLASH then ROOTINO else cwd;
      if parent then ip == Parent(fs.blocks, fs.dinodes, start, Components(path))
      else ip == Walk(fs.blocks, fs.dinodes, start, Components(path))
    ensures parent && ip.Done? && ip.value.Some? ==>
      Components(path) != [] && name == Components(path)[|Components(path)| - 1]
  {
    var i: nat := if path != [] && path[0] == SLASH then ROOTINO else cwd;
    ghost var start, names, answer := i, Components(path), Answer(fs.blocks, fs.dinodes, i, Components(path), parent);
    var p := path;
    name := [];
    while true
      invariant i < |fs.dinodes| && NoNul(p)
      invariant fs.bitmap == old(fs.bitmap) && fs.blocks == old(fs.blocks) && fs.logged == old(fs.logged)
      invariant fs.calls == old(fs.calls) && fs.owner == old(fs.owner)
      invariant answer == Answer(fs.blocks, fs.dinodes, i, Components(p), parent)
      invariant SameEnd(Components(p), names)
      decreases |p|
    {
      var more, n, rest := Skipelem(p);
      if !more {
        break;
      }
      name := n;
      var done, next := Descend(fs, i, n, rest, parent);
      if done {
        return next, name;
      }
      i := next.value.value;
      p := rest;
    }
    if parent {
      return Done(None), name;
    }
    return Done(Some(i)), name;
  }

  /** If anything is left of the components, it ends as they do. */
  ghost predicate SameEnd(left: seq<Name>, names: seq<Name>) {
    left != [] ==> names != [] && left[|left| - 1] == names[|names| - 1]
  }
}
