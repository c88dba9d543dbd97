/** Directories as byte sequences of 16-byte entries, the finite map they stand for, and paths (fs.c). */
module DirModel {
  import opened Blocks
  import opened FsLemmas

  const DIRSIZ := 14

  type Name = seq<byte>

  /** A C string's bytes before its NUL. */
  predicate NoNul(s: seq<byte>) {
    forall i :: 0 <= i < |s| ==> s[i] != 0
  }

  /** What directories keep of a name. */
  function Trunc(name: Name): Name {
    if |name| > DIRSIZ then name[..DIRSIZ] else name
  }

  /** The bytes before the first NUL. */
  function Cut(s: seq<byte>): (r: Name)
    ensures |r| <= |s|
  {
    if s == [] || s[0] == 0 then [] else [s[0]] + Cut(s[1..])
  }

  function Zeros(n: nat): (r: seq<byte>)
    ensures |r| == n && forall i :: 0 <= i < n ==> r[i] == 0
  {
    if n == 0 then [] else Zeros(n - 1) + [0]
  }

  /** strncpy into the name field. */
  function Field(name: Name): (r: seq<byte>)
    ensures |r| == DIRSIZ
  {
    Trunc(name) + Zeros(DIRSIZ - |Trunc(name)|)
  }

  lemma {:induction false} CutPadded(s: Name, n: nat)
    requires NoNul(s)
    ensures Cut(s + Zeros(n)) == s
  {
    var t := s + Zeros(n);
    if s != [] {
      assert t[0] == s[0] && t[1..] == s[1..] + Zeros(n);
      CutPadded(s[1..], n);
    } else if n > 0 {
      assert t[0] == 0;
    }
  }

  // ---------------------------------------------------------------- entries

  /** struct dirent as bytes. */
  function Dirent(name: Name, inum: nat): (r: seq<byte>)
    requires inum < 0x1_0000
    ensures |r| == 16
  {
    [inum % 256, inum / 256] + Field(name)
  }

  function Count(data: seq<byte>): nat {
    |data| / 16
  }

  function Entry(data: seq<byte>, k: nat): (r: seq<byte>)
    requires k < Count(data)
    ensures |r| == 16
  {
    data[16 * k..16 * k + 16]
  }

  function Inum(e: seq<byte>): nat
    requires |e| == 16
  {
    var lo: nat, hi: nat := e[0], e[1];
    lo + 256 * hi
  }

  function NameIn(e: seq<byte>): Name
    requires |e| == 16
  {
    Cut(e[2..])
  }

  predicate Live(data: seq<byte>, k: nat) {
    k < Count(data) && Inum(Entry(data, k)) != 0
  }

  function NameAt(data: seq<byte>, k: nat): Name
    requires k < Count(data)
  {
    NameIn(Entry(data, k))
  }

  /** Whole entries, and live names are distinct. */
  ghost predicate DirOk(data: seq<byte>) {
    && |data| % 16 == 0
    && forall j: nat, k: nat {:trigger Live(data, j), Live(data, k)} ::
       Live(data, j) && Live(data, k) && j != k ==> NameAt(data, j) != NameAt(data, k)
  }

  /** Entry k binds this name. */
  predicate Binds(data: seq<byte>, k: nat, name: Name) {
    Live(data, k) && NameAt(data, k) == name
  }

  /** The finite map that the first n entries of a directory stand for. */
  function MapOf(data: seq<byte>, n: nat): map<Name, nat>
    requires n <= Count(data)
  {
    if n == 0 then map[]
    else if Live(data, n - 1) then MapOf(data, n - 1)[NameAt(data, n - 1) := Inum(Entry(data, n - 1))]
    else MapOf(data, n - 1)
  }

  function AsMap(data: seq<byte>): map<Name, nat> {
    MapOf(data, Count(data))
  }

  lemma {:induction false} MapHas(data: seq<byte>, n: nat, k: nat, name: Name)
    requires DirOk(data) && k < n <= Count(data) && Binds(data, k, name)
    ensures name in MapOf(data, n) && MapOf(data, n)[name] == Inum(Entry(data, k))
  {
    if k < n - 1 {
      MapHas(data, n - 1, k, name);
      assert Live(data, k) && Live(data, n - 1) ==> NameAt(data, k) != NameAt(data, n - 1);
    }
  }

  lemma {:induction false} MapFrom(data: seq<byte>, n: nat, name: Name) returns (k: nat)
    requires n <= Count(data) && name in MapOf(data, n)
    ensures k < n && Binds(data, k, name)
  {
    if Live(data, n - 1) && NameAt(data, n - 1) == name {
      return n - 1;
    }
    k := MapFrom(data, n - 1, name);
  }

  /** The map has a name exactly if some entry binds it, and then with that entry's inode number. */
  lemma InMap(data: seq<byte>, name: Name)
    requires DirOk(data)
    ensures name in AsMap(data) <==> exists k: nat :: Binds(data, k, name)
    ensures forall k: nat :: Binds(data, k, name) ==> AsMap(data)[name] == Inum(Entry(data, k))
  {
    if name in AsMap(data) {
      var k := MapFrom(data, Count(data), name);
    }
    forall k: nat | Binds(data, k, name) ensures name in AsMap(data) && AsMap(data)[name] == Inum(Entry(data, k)) {
      MapHas(data, Count(data), k, name);
    }
  }

  lemma DirentReads(name: Name, inum: nat)
    requires NoNul(name) && inum < 0x1_0000
    ensures Inum(Dirent(name, inum)) == inum && NameIn(Dirent(name, inum)) == Trunc(name)
  {
    assert Dirent(name, inum)[2..] == Field(name);
    CutPadded(Trunc(name), DIRSIZ - |Trunc(name)|);
  }

  /** Entries after one has been written over or appended. */
  lemma EntryAfter(data: seq<byte>, k: nat, e: seq<byte>, j: nat)
    requires |data| % 16 == 0 && k <= Count(data) && |e| == 16 && j < Count(Overwrite(data, 16 * k, e))
    ensures |Overwrite(data, 16 * k, e)| == if k < Count(data) then |data| else |data| + 16
    ensures j != k ==> j < Count(data)
    ensures Entry(Overwrite(data, 16 * k, e), j) == if j == k then e else Entry(data, j)
  {
    var now := Overwrite(data, 16 * k, e);
    if j != k {
      assert now[16 * j..16 * j + 16] == data[16 * j..16 * j + 16];
    } else {
      assert now[16 * k..16 * k + 16] == e;
    }
  }

  /** Writing an entry for a name that is not bound into a free place or at the end adds exactly
      that binding; with inode number 0 it adds none. */
  lemma LinkAdds(data: seq<byte>, k: nat, name: Name, inum: nat)
    requires DirOk(data) && NoNul(name) && inum < 0x1_0000 && k <= Count(data) && !Live(data, k)
    requires forall j: nat :: !Binds(data, j, Trunc(name))
    ensures var now := Overwrite(data, 16 * k, Dirent(name, inum));
      DirOk(now) && AsMap(now) == if inum == 0 then AsMap(data) else AsMap(data)[Trunc(name) := inum]
  {
    var e := Dirent(name, inum);
    var now := Overwrite(data, 16 * k, e);
    DirentReads(name, inum);
    EntryAfter(data, k, e, k);
    forall j: nat | j < Count(now) && j != k ensures SameEntry(data, now, j) {
      EntryAfter(data, k, e, j);
    }
    LinkedDistinct(data, now, k, Trunc(name));
    if inum == 0 {
      MapsSame(data, now, k);
    } else {
      assert Binds(now, k, Trunc(name));
      MapsAgree(data, now, k, Trunc(name), inum);
    }
  }

  lemma LinkedDistinct(data: seq<byte>, now: seq<byte>, k: nat, name: Name)
    requires DirOk(data) && |now| % 16 == 0 && (Live(now, k) ==> NameAt(now, k) == name)
    requires forall j: nat {:trigger SameEntry(data, now, j)} :: j < Count(now) && j != k ==> SameEntry(data, now, j)
    requires forall j: nat :: !Binds(data, j, name)
    ensures DirOk(now)
  {
    forall i: nat, j: nat | Live(now, i) && Live(now, j) && i != j ensures NameAt(now, i) != NameAt(now, j) {
      assert !Binds(data, i, name) && !Binds(data, j, name);
      assert (i != k ==> SameEntry(data, now, i)) && (j != k ==> SameEntry(data, now, j));
      assert i != k && j != k ==> Live(data, i) && Live(data, j);
    }
  }

  lemma MapsSame(data: seq<byte>, now: seq<byte>, k: nat)
    requires DirOk(data) && DirOk(now) && !Live(data, k) && !Live(now, k) && Count(data) <= Count(now)
    requires forall j: nat {:trigger SameEntry(data, now, j)} :: j < Count(now) && j != k ==> SameEntry(data, now, j)
    ensures AsMap(now) == AsMap(data)
  {
    forall x | x in AsMap(now) ensures x in AsMap(data) && AsMap(data)[x] == AsMap(now)[x] {
      var j := MapFrom(now, Count(now), x);
      MapHas(now, Count(now), j, x);
      assert SameEntry(data, now, j);
      MapHas(data, Count(data), j, x);
    }
    forall x | x in AsMap(data) ensures x in AsMap(now) {
      var j := MapFrom(data, Count(data), x);
      assert SameEntry(data, now, j);
      MapHas(now, Count(now), j, x);
    }
  }

  /** Entry j of now is that of data. */
  ghost predicate SameEntry(data: seq<byte>, now: seq<byte>, j: nat) {
    j < Count(data) && j < Count(now) && Entry(now, j) == Entry(data, j)
  }

  lemma MapsAgree(data: seq<byte>, now: seq<byte>, k: nat, name: Name, inum: nat)
    requires DirOk(data) && DirOk(now) && Binds(now, k, name) && Inum(Entry(now, k)) == inum && !Live(data, k)
    requires Count(data) <= Count(now)
    requires forall j: nat {:trigger SameEntry(data, now, j)} :: j < Count(now) && j != k ==> SameEntry(data, now, j)
    requires forall j: nat :: !Binds(data, j, name)
    ensures AsMap(now) == AsMap(data)[name := inum]
  {
    var m, n := AsMap(data)[name := inum], AsMap(now);
    MapHas(now, Count(now), k, name);
    forall x | x in n ensures x in m && m[x] == n[x] {
      var j := MapFrom(now, Count(now), x);
      MapHas(now, Count(now), j, x);
      if j != k {
        assert SameEntry(data, now, j);
        MapHas(data, Count(data), j, x);
        assert !Binds(data, j, name);
      }
    }
    forall x | x in m ensures x in n {
      if x != name {
        var j := MapFrom(data, Count(data), x);
        assert SameEntry(data, now, j);
        MapHas(now, Count(now), j, x);
      }
    }
  }

  // ---------------------------------------------------------------- paths

  const SLASH: byte := 47

  /** A path cut at its slashes. */
  function Pieces(path: seq<byte>): (r: seq<Name>)
    ensures |r| > 0
  {
    if path == [] then [[]]
    else
      var p := Pieces(path[1..]);
      if path[0] == SLASH then [[]] + p else [[path[0]] + p[0]] + p[1..]
  }

  /** The pieces that are not empty, as directories keep them. */
  function Kept(ps: seq<Name>): seq<Name> {
    if ps == [] then [] else (if ps[0] == [] then [] else [Trunc(ps[0])]) + Kept(ps[1..])
  }

  /** The components of a path. */
  function Components(path: seq<byte>): seq<Name> {
    Kept(Pieces(path))
  }

  /** Leading slashes add nothing. */
  lemma SlashSkipped(path: seq<byte>)
    requires path != [] && path[0] == SLASH
    ensures Components(path) == Components(path[1..])
  {
    assert Pieces(path)[1..] == Pieces(path[1..]);
  }

  /** A path that starts with an element of n bytes. */
  lemma ElementFirst(path: seq<byte>, n: nat)
    requires 0 < n <= |path| && (n == |path| || path[n] == SLASH) && forall i :: 0 <= i < n ==> path[i] != SLASH
    ensures Components(path) == [Trunc(path[..n])] + Components(path[n..])
  {
    FirstPiece(path, n);
    var rest := Pieces(path[n..]);
    assert Pieces(path)[1..] == rest[1..];
    assert rest[0] == [];
    assert Kept(rest) == Kept(rest[1..]);
  }

  lemma {:induction false} FirstPiece(path: seq<byte>, n: nat)
    requires n <= |path| && (n == |path| || path[n] == SLASH) && forall i :: 0 <= i < n ==> path[i] != SLASH
    ensures Pieces(path) == [path[..n]] + Pieces(path[n..])[1..] && Pieces(path[n..])[0] == []
  {
    if n == 0 {
      assert path[0..] == path;
    } else {
      FirstPiece(path[1..], n - 1);
      var p, rest := Pieces(path[1..]), Pieces(path[n..])[1..];
      assert path[1..][n - 1..] == path[n..];
      assert p == [path[1..][..n - 1]] + rest;
      assert Pieces(path) == [[path[0]] + p[0]] + p[1..] && p[1..] == rest;
      assert [path[0]] + path[1..][..n - 1] == path[..n];
    }
  }

  /** A path of slashes only has no components, and a path that starts with anything else has one. */
  lemma NoComponents(path: seq<byte>)
    ensures path == [] ==> Components(path) == []
    ensures path != [] && path[0] != SLASH ==> Components(path) != []
  {
    if path != [] && path[0] != SLASH {
      assert Pieces(path)[0] != [];
    }
  }

  lemma {:induction false} CutAfter(t: seq<byte>, n: nat)
    requires n <= |t| && NoNul(t[..n])
    ensures Cut(t) == t[..n] + Cut(t[n..])
  {
    if n == 0 {
      assert t[0..] == t;
    } else {
      assert t[..n][0] == t[0];
      assert t[1..][..n - 1] == t[..n][1..];
      CutAfter(t[1..], n - 1);
      assert t[1..][n - 1..] == t[n..];
    }
  }

  /** What strncmp with a limit of 14 calls equal: no byte differs up to the first NUL. */
  ghost predicate SameName(s: Name, t: seq<byte>)
    requires |t| == 14
  {
    forall i :: 0 <= i < 14 && (forall j :: 0 <= j < i ==> t[j] != 0) ==> t[i] == if i < |s| then s[i] else 0
  }

  /** Where two names first differ decides whether a name is the one in a field. */
  lemma CompareNames(s: Name, t: seq<byte>, n: nat)
    requires NoNul(s) && |t| == DIRSIZ && n <= DIRSIZ && n <= |s| && s[..n] == t[..n]
    requires n == DIRSIZ || n == |s| || s[n] != t[n]
    ensures Trunc(s) == Cut(t) <==> n == DIRSIZ || (if n < |s| then s[n] else 0) == t[n]
    ensures SameName(s, t) <==> n == DIRSIZ || (if n < |s| then s[n] else 0) == t[n]
  {
    assert forall i :: 0 <= i < n ==> s[i] == s[..n][i] == t[..n][i] == t[i];
    assert NoNul(t[..n]) by {
      assert forall i :: 0 <= i < n ==> t[..n][i] == s[i];
    }
    CutAfter(t, n);
    if n < DIRSIZ {
      assert t[n..][0] == t[n];
      if n == |s| && t[n] != 0 {
        assert |Cut(t)| > |s|;
      }
      if n < |s| {
        assert Trunc(s)[n] == s[n];
        assert t[n] != 0 ==> Cut(t)[n] == t[n];
        assert t[n] == 0 ==> |Cut(t)| == n;
      }
    }
  }
}
