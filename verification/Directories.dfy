/** Directories (dirlookup() and dirlink() of crates/fs/src/fs.rs): entries of an inode number and a name, in the
    contents of a file. */
module Directories {
  import opened Common
  import opened Blocks
  import opened Inodes
  import opened Contents
  import opened Costs
  import opened Files

  const DIRSIZ := 14
  const DESIZE := 16      // size_of::<Dirent>()

  // ---- Entries ----

  /** A directory entry: the inode number, and the name cut or padded to DIRSIZ bytes. */
  function Dirent(inum: nat, name: seq<Byte>): (r: seq<Byte>)
    ensures |r| == 16
  {
    [inum % 256, inum / 256 % 256] + seq(DIRSIZ, k requires 0 <= k < DIRSIZ => if k < |name| then name[k] else 0)
  }

  /** The bytes before the first NUL. */
  function CutAt(s: seq<Byte>): (r: seq<Byte>)
    ensures r <= s && 0 !in r && (|r| < |s| ==> s[|r|] == 0)
  {
    if s == [] || s[0] == 0 then [] else [s[0]] + CutAt(s[1..])
  }

  function InumOf(e: seq<Byte>): nat
    requires |e| == 16
  {
    var lo: int, hi: int := e[0], e[1];
    lo + 256 * hi
  }

  function NameOf(e: seq<Byte>): seq<Byte>
    requires |e| == 16
  {
    CutAt(e[2..])
  }

  /** What of a name an entry has room for. */
  function Fit(name: seq<Byte>): seq<Byte> {
    CutAt(if |name| <= 14 then name else name[..14])
  }

  lemma {:induction false} CutUnique(s: seq<Byte>, r: seq<Byte>)
    requires r <= s && 0 !in r && (|r| < |s| ==> s[|r|] == 0)
    ensures CutAt(s) == r
    decreases |s|
  {
    if r != [] {
      assert s[0] == r[0] && r[0] in r;
      CutUnique(s[1..], r[1..]);
    }
  }

  /** An entry is read back as it was written: the number modulo 2^16, and what fits of the name. */
  lemma DirentIs(inum: nat, name: seq<Byte>)
    ensures InumOf(Dirent(inum, name)) == inum % 65536 && NameOf(Dirent(inum, name)) == Fit(name)
  {
    var e, n := Dirent(inum, name), if |name| <= 14 then name else name[..14];
    var r := CutAt(n);
    forall i | 0 <= i < |r| ensures e[2..][i] == r[i] { assert r[i] == n[i]; }
    assert r == e[2..][..|r|];
    CutUnique(e[2..], r);
    TwoBytes(inum);
  }

  lemma TwoBytes(x: nat)
    ensures x % 256 + 256 * (x / 256 % 256) == x % 65536
  {
    var a, r := x / 65536, x % 65536;
    var b, c := r / 256, r % 256;
    assert x == 256 * (256 * a + b) + c;
    ByteOf(256 * a + b, c);
    ByteOf(a, b);
  }

  lemma ByteOf(q: nat, c: nat)
    requires c < 256
    ensures (256 * q + c) / 256 == q && (256 * q + c) % 256 == c
  {
  }

  // ---- The entries of a directory ----

  function EntryAt(data: seq<Byte>, k: nat): (e: seq<Byte>)
    requires 16 * k + 16 <= |data|
    ensures |e| == 16
  {
    data[16 * k..16 * k + 16]
  }

  /** Entry k is in use, and its name begins with `name`. */
  predicate Hit(data: seq<Byte>, name: seq<Byte>, k: nat)
    requires 16 * k + 16 <= |data|
  {
    InumOf(EntryAt(data, k)) != 0 && name <= NameOf(EntryAt(data, k))
  }

  /** Entry k is in use, and its name is `name`. */
  predicate IsNamed(data: seq<Byte>, name: seq<Byte>, k: nat)
    requires 16 * k + 16 <= |data|
  {
    InumOf(EntryAt(data, k)) != 0 && NameOf(EntryAt(data, k)) == name
  }

  ghost predicate FirstHit(data: seq<Byte>, name: seq<Byte>, k: nat) {
    16 * k + 16 <= |data| && Hit(data, name, k) && forall j | 0 <= j < k :: !Hit(data, name, j)
  }

  ghost predicate NoHit(data: seq<Byte>, name: seq<Byte>) {
    forall j | 0 <= j && 16 * j + 16 <= |data| :: !Hit(data, name, j)
  }

  /** What dirlookup() is for: the first entry with that very name. */
  ghost predicate FirstNamed(data: seq<Byte>, name: seq<Byte>, k: nat) {
    16 * k + 16 <= |data| && IsNamed(data, name, k) && forall j | 0 <= j < k :: !IsNamed(data, name, j)
  }

  /** Entry j is in use, and its name is longer and begins with `name`. */
  predicate Longer(data: seq<Byte>, name: seq<Byte>, j: nat)
    requires 16 * j + 16 <= |data|
  {
    Hit(data, name, j) && NameOf(EntryAt(data, j)) != name
  }

  /** The entry that is found is the one with the name exactly if no longer name that begins with it comes before. */
  lemma LookupExact(data: seq<Byte>, name: seq<Byte>, k: nat)
    requires FirstNamed(data, name, k)
    ensures FirstHit(data, name, k) <==> forall j | 0 <= j < k :: !Longer(data, name, j)
  {
    forall j | 0 <= j < k && !Longer(data, name, j) ensures !Hit(data, name, j) {
      assert !IsNamed(data, name, j);
    }
  }

  /** And a name that no entry has is found to be missing exactly if no entry's name begins with it. */
  lemma MissingExact(data: seq<Byte>, name: seq<Byte>)
    requires forall j | 0 <= j && 16 * j + 16 <= |data| :: !IsNamed(data, name, j)
    ensures NoHit(data, name) <==> forall j | 0 <= j && 16 * j + 16 <= |data| :: !Longer(data, name, j)
  {
    forall j | 0 <= j && 16 * j + 16 <= |data| ensures Hit(data, name, j) <==> Longer(data, name, j) {
      assert !IsNamed(data, name, j);
    }
  }

  // ---- The code ----

  /** The bytes of the directory. */
  ghost function DirData(f: Fs, dp: nat): seq<Byte> {
    if dp in f.inode && DenseTo(FileOf(f.inode[dp], f.blocks), f.inode[dp].size) then ContentsOf(f, dp) else []
  }

  datatype Looked = Found(k: nat, inum: nat) | Missing | NotDir | ShortRead

  /** name_len(), of a C string of these bytes. */
  method NameLen(name: seq<Byte>) returns (n: nat)
    ensures n <= |name| && n <= DIRSIZ && name[..n] == Fit(name) && 0 !in name[..n]
  {
    n := 0;
    while n < DIRSIZ && n < |name| && name[n] != 0
      invariant n <= DIRSIZ && n <= |name| && 0 !in name[..n]
    {
      n := n + 1;
    }
    CutUnique(if |name| <= 14 then name else name[..14], name[..n]);
  }

  /** namecmp(): whether the name in the entry begins with s. */
  method Namecmp(s: seq<Byte>, e: seq<Byte>) returns (r: bool)
    requires |s| <= DIRSIZ && 0 !in s && |e| == 16
    ensures r <==> s <= NameOf(e)
  {
    var t := e[2..];
    for i := 0 to |s|
      invariant s[..i] == t[..i]
    {
      if s[i] != t[i] {
        NotBegun(s, t, i);
        return false;
      }
      assert s[i] in s;
    }
    Begun(s, t);
    return true;
  }

  lemma NotBegun(s: seq<Byte>, t: seq<Byte>, i: nat)
    requires i < |s| <= |t| && s[i] != t[i]
    ensures !(s <= CutAt(t))
  {
  }

  lemma Begun(s: seq<Byte>, t: seq<Byte>)
    requires |s| <= |t| && 0 !in s && s == t[..|s|]
    ensures s <= CutAt(t)
  {
    var r := CutAt(t);
    assert forall i | 0 <= i < |s| :: s[i] in s && s[i] != 0;
    assert forall i | 0 <= i < |s| :: r[i] == t[i] == s[i];
  }

  /** readi() of the entry at off. */
  method ReadEntry(fs: FileSystem, dp: nat, off: nat) returns (ok: bool, de: seq<Byte>)
    requires FsInv(fs.F()) && dp in fs.inode && fs.inode[dp].itype != T_DEV && off % 16 == 0
    requires off < |DirData(fs.F(), dp)|
    modifies fs
    ensures fs.F() == old(fs.F()) && fs.logged == old(fs.logged) && fs.calls == old(fs.calls)
    ensures ok <==> off + 16 <= |DirData(fs.F(), dp)|
    ensures |de| == 16 && (ok ==> de == EntryAt(DirData(fs.F(), dp), off / 16))
  {
    hide OwnInv, FileOf, Agree;
    ContentsLen(fs.F(), dp);
    var io, data := fs.Readi(dp, off, DESIZE);
    ok := io == Done(DESIZE);
    de := if ok then data else seq(16, _ => 0);
  }

  /** dirlookup(): the first entry in use whose name begins with `name`. The panics are for a file that is no directory
      and for an entry that is not whole. */
  method Dirlookup(fs: FileSystem, dp: nat, name: seq<Byte>) returns (r: Looked)
    requires FsInv(fs.F()) && dp in fs.inode
    modifies fs
    ensures fs.F() == old(fs.F()) && fs.logged == old(fs.logged) && fs.calls == old(fs.calls)
    ensures r == NotDir <==> fs.inode[dp].itype != T_DIR
    ensures r.Found? ==> var data := DirData(fs.F(), dp);
                         FirstHit(data, Fit(name), r.k) && r.inum == InumOf(EntryAt(data, r.k))
    ensures r.Missing? ==> var data := DirData(fs.F(), dp); |data| % 16 == 0 && NoHit(data, Fit(name))
    ensures r.ShortRead? ==> var data := DirData(fs.F(), dp); |data| % 16 != 0 && NoHit(data, Fit(name))
  {
    hide FsInv, Hit, DirData, Fit;
    if fs.inode[dp].itype != T_DIR {
      return NotDir;
    }
    ghost var f := fs.F();
    ContentsLen(f, dp);
    ghost var data := DirData(f, dp);
    var len := NameLen(name);
    var off := 0;
    while off < fs.inode[dp].size
      invariant fs.F() == f && fs.logged == old(fs.logged) && fs.calls == old(fs.calls)
      invariant off % 16 == 0 && off <= |data|
      invariant forall j | 0 <= j < off / 16 && 16 * j + 16 <= |data| :: !Hit(data, Fit(name), j)
    {
      var ok, de := ReadEntry(fs, dp, off);
      if !ok {
        WholeOrNot(|data|, off);
        return ShortRead;
      }
      ghost var k := off / 16;
      if InumOf(de) != 0 {
        var same := Namecmp(name[..len], de);
        HitIs(data, Fit(name), k);
        if same {
          return Found(off / 16, InumOf(de));
        }
      } else {
        HitIs(data, Fit(name), k);
      }
      off := off + DESIZE;
    }
    WholeOrNot(|data|, off);
    return Missing;
  }

  lemma HitIs(data: seq<Byte>, name: seq<Byte>, k: nat)
    requires 16 * k + 16 <= |data|
    ensures Hit(data, name, k) <==> InumOf(EntryAt(data, k)) != 0 && name <= NameOf(EntryAt(data, k))
  {
  }

  lemma ContentsLen(f: Fs, i: nat)
    requires FsInv(f) && i in f.inode
    ensures |DirData(f, i)| == f.inode[i].size <= MAXBYTES
  {
  }

  /** The loop has come to the end, or to an entry that is not whole. */
  lemma WholeOrNot(n: nat, off: nat)
    requires off % 16 == 0
    ensures off < n && off + 16 > n ==> n % 16 != 0
    ensures n <= off < n + 16 ==> (n % 16 == 0 <==> off == n)
    ensures off + 16 > n ==> forall j: nat | 16 * j + 16 <= n :: j < off / 16
  {
  }

  datatype Linked = Linked(k: nat) | Exists | Looks(why: Looked) | Writes(io: Io)

  /** Entry k is the first that is free, or the one after the last. */
  ghost predicate FirstFree(data: seq<Byte>, k: nat) {
    && 16 * k <= |data| && (forall j | 0 <= j < k :: InumOf(EntryAt(data, j)) != 0)
    && (16 * k < |data| ==> 16 * k + 16 <= |data| && InumOf(EntryAt(data, k)) == 0)
  }

  /** dirlink(): a name that is found is refused; otherwise the entry goes to the first free place. */
  method Dirlink(fs: FileSystem, dp: nat, name: seq<Byte>, inum: nat) returns (r: Linked)
    requires FsInv(fs.F()) && dp in fs.inode
    modifies fs
    ensures r.Exists? || r.Looks? ==> fs.F() == old(fs.F()) && fs.logged == old(fs.logged)
    ensures r.Exists? ==> exists k :: FirstHit(DirData(fs.F(), dp), Fit(name), k)
    ensures r.Looks? ==> r.why == NotDir || r.why == ShortRead
    ensures r.Linked? ==>
              && FsInv(fs.F()) && NoHit(old(DirData(fs.F(), dp)), Fit(name))
              && FirstFree(old(DirData(fs.F(), dp)), r.k)
              && Written(old(fs.F()), fs.F(), dp, 16 * r.k, Dirent(inum, Fit(name)))
    ensures r.Writes? ==> r.io == Error || (r.io.Panic? && fs.Halted(r.io.why))
    ensures r == Writes(Error) ==> fs.F() == old(fs.F()) && |DirData(fs.F(), dp)| + 16 > MAXBYTES
  {
    hide FsInv, Hit, DirData, Fit, Written, Dirent, OnlyLogged, FullDisk, Spread, Stamped, BlockLogged, Touched,
         Extends, Cost, Adds, NoHit, FirstHit;
    var l := Dirlookup(fs, dp, name);
    if l.Found? {
      assert FirstHit(DirData(fs.F(), dp), Fit(name), l.k);
      return Exists;
    }
    if !l.Missing? {
      return Looks(l);
    }
    var off := FreePlace(fs, dp);
    var len := NameLen(name);
    ContentsLen(fs.F(), dp);
    var io := fs.Writei(dp, off, Dirent(inum, name[..len]));
    return if io.Done? then Linked(off / 16) else Writes(io);
  }

  /** The loop of dirlink(): where the entry goes. */
  method FreePlace(fs: FileSystem, dp: nat) returns (off: nat)
    requires FsInv(fs.F()) && dp in fs.inode && fs.inode[dp].itype == T_DIR && |DirData(fs.F(), dp)| % 16 == 0
    modifies fs
    ensures fs.F() == old(fs.F()) && fs.logged == old(fs.logged) && fs.calls == old(fs.calls)
    ensures off % 16 == 0 && FirstFree(DirData(fs.F(), dp), off / 16)
  {
    hide FsInv, DirData;
    ghost var f := fs.F();
    ContentsLen(f, dp);
    ghost var data := DirData(f, dp);
    off := 0;
    while off < fs.inode[dp].size
      invariant fs.F() == f && fs.logged == old(fs.logged) && fs.calls == old(fs.calls)
      invariant off % 16 == 0 && off <= |data|
      invariant forall j | 0 <= j < off / 16 :: InumOf(EntryAt(data, j)) != 0
    {
      WholeOrNot(|data|, off);
      var ok, de := ReadEntry(fs, dp, off);
      if InumOf(de) == 0 {
        break;
      }
      off := off + DESIZE;
    }
  }

  // ---- What a new entry changes ----

  /** data with the entry put at place k. */
  function WithEntry(data: seq<Byte>, k: nat, e: seq<Byte>): seq<Byte>
    requires 16 * k <= |data| && |e| == 16
  {
    Splice(data, 16 * k, e)
  }

  lemma EntriesOf(data: seq<Byte>, k: nat, e: seq<Byte>, j: nat)
    requires |data| % 16 == 0 && FirstFree(data, k) && |e| == 16
    ensures var d := WithEntry(data, k, e);
            && |d| == (if 16 * k < |data| then |data| else |data| + 16)
            && (j == k ==> 16 * j + 16 <= |d| && EntryAt(d, j) == e)
            && (16 * j + 16 <= |d| && j != k ==> 16 * j + 16 <= |data| && EntryAt(d, j) == EntryAt(data, j))
  {
    var d := WithEntry(data, k, e);
    if 16 * j + 16 <= |d| {
      forall i | 0 <= i < 16 ensures d[16 * j + i] == if j == k then e[i] else data[16 * j + i] {}
      assert j == k ==> EntryAt(d, j) == e;
      assert j != k ==> EntryAt(d, j) == EntryAt(data, j);
    }
  }

  lemma FitTwice(name: seq<Byte>)
    ensures Fit(Fit(name)) == Fit(name) && |Fit(name)| <= 14
  {
    CutUnique(Fit(name), Fit(name));
  }

  /** The new entry, by what an entry begins with. */
  lemma NewHits(data: seq<Byte>, k: nat, inum: nat, name: seq<Byte>, m: seq<Byte>, j: nat)
    requires |data| % 16 == 0 && FirstFree(data, k) && inum % 65536 != 0
    ensures var d := WithEntry(data, k, Dirent(inum, Fit(name)));
            && 16 * k + 16 <= |d|
            && (16 * j + 16 <= |d| && j != k ==> 16 * j + 16 <= |data| && (Hit(d, m, j) <==> Hit(data, m, j)))
            && (16 * j + 16 <= |data| ==> 16 * j + 16 <= |d|)
            && (Hit(d, m, k) <==> m <= Fit(name)) && InumOf(EntryAt(d, k)) == inum % 65536
            && (16 * k + 16 <= |data| ==> !Hit(data, m, k))
  {
    EntriesOf(data, k, Dirent(inum, Fit(name)), j);
    EntriesOf(data, k, Dirent(inum, Fit(name)), k);
    DirentIs(inum, Fit(name));
    FitTwice(name);
  }

  /** A name just linked is found, at its own entry. */
  lemma LinkFinds(data: seq<Byte>, k: nat, inum: nat, name: seq<Byte>)
    requires |data| % 16 == 0 && FirstFree(data, k) && inum % 65536 != 0 && NoHit(data, Fit(name))
    ensures var d := WithEntry(data, k, Dirent(inum, Fit(name)));
            FirstHit(d, Fit(name), k) && InumOf(EntryAt(d, k)) == inum % 65536
  {
    hide Hit, Dirent, WithEntry, InumOf, Fit;
    var d := WithEntry(data, k, Dirent(inum, Fit(name)));
    NewHits(data, k, inum, name, Fit(name), k);
    forall j | 0 <= j < k ensures !Hit(d, Fit(name), j) {
      NewHits(data, k, inum, name, Fit(name), j);
    }
  }

  /** Another name m is found where it was, exactly unless the new name begins with m and took an earlier place. */
  lemma LinkKeeps(data: seq<Byte>, k: nat, inum: nat, name: seq<Byte>, m: seq<Byte>, j: nat)
    requires |data| % 16 == 0 && FirstFree(data, k) && inum % 65536 != 0 && FirstHit(data, m, j)
    ensures var d := WithEntry(data, k, Dirent(inum, Fit(name)));
            FirstHit(d, m, if m <= Fit(name) && k < j then k else j)
  {
    hide Hit, Dirent, WithEntry, InumOf, Fit;
    var d := WithEntry(data, k, Dirent(inum, Fit(name)));
    NewHits(data, k, inum, name, m, j);
    forall i | 0 <= i < j && 16 * i + 16 <= |d| ensures Hit(d, m, i) <==> i == k && m <= Fit(name) {
      NewHits(data, k, inum, name, m, i);
    }
  }

  /** And a name that was missing is missing still, exactly unless the new name begins with it. */
  lemma LinkMisses(data: seq<Byte>, k: nat, inum: nat, name: seq<Byte>, m: seq<Byte>)
    requires |data| % 16 == 0 && FirstFree(data, k) && inum % 65536 != 0 && NoHit(data, m)
    ensures NoHit(WithEntry(data, k, Dirent(inum, Fit(name))), m) <==> !(m <= Fit(name))
  {
    hide Hit, Dirent, WithEntry, InumOf, Fit;
    var d := WithEntry(data, k, Dirent(inum, Fit(name)));
    NewHits(data, k, inum, name, m, k);
    forall i | 0 <= i && 16 * i + 16 <= |d| ensures Hit(d, m, i) <==> i == k && m <= Fit(name) {
      NewHits(data, k, inum, name, m, i);
    }
  }

  /** It happens: in a directory with a free place before the entry "a", link "ab", and "a" leads to the new file. */
  lemma Shadowed() returns (data: seq<Byte>, d: seq<Byte>)
    ensures var a, ab: seq<Byte> := ['a' as int], ['a' as int, 'b' as int];
            && |data| == |d| == 32 && FirstFree(data, 0) && FirstHit(data, a, 1) && InumOf(EntryAt(data, 1)) == 5
            && NoHit(data, ab) && d == WithEntry(data, 0, Dirent(6, ab))
            && IsNamed(d, a, 1) && FirstHit(d, a, 0) && InumOf(EntryAt(d, 0)) == 6
  {
    hide Dirent, Hit, WithEntry;
    var a, ab: seq<Byte> := ['a' as int], ['a' as int, 'b' as int];
    data := Dirent(0, []) + Dirent(5, a);
    assert EntryAt(data, 0) == Dirent(0, []) && EntryAt(data, 1) == Dirent(5, a);
    DirentIs(0, []);
    DirentIs(5, a);
    CutUnique(a, a);
    CutUnique(ab, ab);
    assert Fit(a) == a && Fit(ab) == ab;
    assert !(ab <= a) && a <= ab;
    forall j | 0 <= j && 16 * j + 16 <= |data| ensures Hit(data, a, j) <==> j == 1 { HitIs(data, a, j); }
    forall j | 0 <= j && 16 * j + 16 <= |data| ensures !Hit(data, ab, j) { HitIs(data, ab, j); }
    d := WithEntry(data, 0, Dirent(6, ab));
    LinkKeeps(data, 0, 6, ab, a, 1);
    NewHits(data, 0, 6, ab, a, 1);
    EntriesOf(data, 0, Dirent(6, ab), 1);
  }
}
