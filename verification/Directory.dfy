/** Directories: files of sixteen-byte entries, read and written through readi and writei, as maps from names. */
module Directory {
  import opened Basics
  import opened Blocks
  import opened BlockMap
  import opened F = Files

  const DIRSIZ := 14
  const DIRENT := 16

  /** A C string without its NUL. */
  type Name = s: seq<Byte> | forall i | 0 <= i < |s| :: s[i] != 0 witness []

  /** A directory entry: inode number, 0 when the entry is empty, and name. */
  datatype Entry = Entry(inum: nat, name: Name)

  /** The first n bytes of a name. */
  function First(s: Name, n: nat): (r: Name) {
    if |s| <= n then s else s[..n]
  }

  /** A name as directories know it. */
  function Cut(s: Name): (r: Name) { First(s, DIRSIZ) }

  /** The name in a field: up to the first NUL. */
  function Stored(b: seq<Byte>): (s: Name) {
    if b == [] || b[0] == 0 then [] else [b[0]] + Stored(b[1..])
  }

  /** strncpy into a field of n bytes. */
  function Field(s: Name, n: nat): (b: seq<Byte>)
    ensures |b| == n
  {
    if n == 0 then [] else if s == [] then [0] + Field(s, n - 1) else [s[0]] + Field(s[1..], n - 1)
  }

  lemma {:induction false} StoredField(s: Name, n: nat)
    ensures Stored(Field(s, n)) == First(s, n)
  {
    if n > 0 && s != [] {
      StoredField(s[1..], n - 1);
      assert Field(s, n)[1..] == Field(s[1..], n - 1);
      assert s == [s[0]] + s[1..];
      if |s| > n { assert s[..n] == [s[0]] + s[1..][..n - 1]; }
    }
  }

  lemma SameStep(s: Name, t: seq<Byte>)
    requires s != [] && t != [] && s[0] == t[0]
    ensures First(s, |t|) == Stored(t) <==> First(s[1..], |t| - 1) == Stored(t[1..])
  {
    var a, b := First(s, |t|), First(s[1..], |t| - 1);
    assert a == [s[0]] + b;
    assert Stored(t) == [t[0]] + Stored(t[1..]);
    assert b == a[1..] && Stored(t)[1..] == Stored(t[1..]);
  }

  /** strncmp(s, t, n) == 0, for a string s and a field t of n bytes. */
  method Namecmp(s: Name, t: seq<Byte>) returns (same: bool)
    ensures same <==> First(s, |t|) == Stored(t)
  {
    var i := 0;
    assert s[0..] == s && t[0..] == t;
    while i < |t|
      invariant 0 <= i <= |t| && i <= |s|
      invariant First(s, |t|) == Stored(t) <==> First(s[i..], |t| - i) == Stored(t[i..])
    {
      var c := if i < |s| then s[i] else 0;
      if c != t[i] { return false; }
      if c == 0 { return true; }
      SameStep(s[i..], t[i..]);
      assert s[i..][1..] == s[i + 1..] && t[i..][1..] == t[i + 1..];
      i := i + 1;
    }
    same := true;
  }

  // ---- entries ----

  /** The entry in sixteen bytes. */
  function Decode(b: seq<Byte>): (e: Entry)
    requires |b| == DIRENT
  {
    Entry(b[0] as int + 256 * (b[1] as int), Stored(b[2..]))
  }

  /** Sixteen bytes for an inode number and a name. */
  function Encode(inum: nat, name: Name): (b: seq<Byte>)
    requires inum < 0x1_0000
    ensures |b| == DIRENT
  {
    [inum % 256, inum / 256] + Field(name, DIRSIZ)
  }

  lemma DecodeEncode(inum: nat, name: Name)
    requires inum < 0x1_0000
    ensures Decode(Encode(inum, name)) == Entry(inum, Cut(name))
  {
    StoredField(name, DIRSIZ);
    assert Encode(inum, name)[2..] == Field(name, DIRSIZ);
  }

  /** The entries of a directory's contents. */
  function Entries(c: seq<Byte>): (es: seq<Entry>)
    requires |c| % DIRENT == 0
    ensures |es| == |c| / DIRENT
  {
    seq(|c| / DIRENT, k requires 0 <= k < |c| / DIRENT => Decode(c[k * DIRENT..k * DIRENT + DIRENT]))
  }

  /** A live entry for a name. */
  ghost predicate Maps(es: seq<Entry>, name: Name, inum: nat) {
    inum != 0 && exists k | 0 <= k < |es| :: es[k] == Entry(inum, name)
  }

  /** No two live entries have the same name. */
  ghost predicate Unique(es: seq<Entry>) {
    forall j, k | 0 <= j < k < |es| && es[j].inum != 0 && es[k].inum != 0 :: es[j].name != es[k].name
  }

  /** A directory as a map. */
  function AsMap(es: seq<Entry>): (m: map<Name, nat>) {
    if es == [] then map[]
    else
      var e, m := es[|es| - 1], AsMap(es[..|es| - 1]);
      if e.inum == 0 then m else m[e.name := e.inum]
  }

  /** With unique names the map has exactly the live entries. */
  lemma {:induction false} AsMapIs(es: seq<Entry>, name: Name, x: nat)
    requires Unique(es)
    ensures Maps(es, name, x) <==> name in AsMap(es) && AsMap(es)[name] == x && x != 0
  {
    if es != [] {
      var rest, e := es[..|es| - 1], es[|es| - 1];
      AsMapIs(rest, name, x);
      if Maps(es, name, x) {
        var k :| 0 <= k < |es| && es[k] == Entry(x, name);
        if k < |es| - 1 { assert rest[k] == Entry(x, name); }
      }
      if Maps(rest, name, x) {
        var k :| 0 <= k < |rest| && rest[k] == Entry(x, name);
        assert es[k] == Entry(x, name);
      }
      if e.inum == x && e.name == name { assert es[|es| - 1] == Entry(x, name); }
    }
  }

  lemma {:induction false} AsMapLive(es: seq<Entry>)
    ensures forall name | name in AsMap(es) :: AsMap(es)[name] != 0
  {
    if es != [] { AsMapLive(es[..|es| - 1]); }
  }

  /** dirlink on maps: one more name. */
  lemma LinkedMap(es: seq<Entry>, r: seq<Entry>, name: Name, inum: nat)
    requires Unique(es) && Unique(r) && inum != 0 && (forall x: nat :: !Maps(es, name, x))
    requires forall n: Name, x: nat :: Maps(r, n, x) <==> Maps(es, n, x) || (n == name && x == inum)
    ensures name !in AsMap(es) && AsMap(r) == AsMap(es)[name := inum]
  {
    hide Maps, Unique;
    AsMapLive(es);
    AsMapLive(r);
    if name in AsMap(es) { AsMapIs(es, name, AsMap(es)[name]); }
    forall n: Name ensures n in AsMap(r) <==> n in AsMap(es) || n == name {
      if n in AsMap(r) { AsMapIs(r, n, AsMap(r)[n]); AsMapIs(es, n, AsMap(r)[n]); }
      if n in AsMap(es) { AsMapIs(es, n, AsMap(es)[n]); AsMapIs(r, n, AsMap(es)[n]); }
      if n == name { AsMapIs(r, n, inum); }
    }
    forall n: Name | n in AsMap(r) ensures AsMap(r)[n] == AsMap(es)[name := inum][n] {
      AsMapIs(r, n, AsMap(r)[n]);
      AsMapIs(es, n, AsMap(r)[n]);
      if n == name { AsMapIs(r, n, inum); }
    }
  }

  /** Writing one entry over an empty one, or at the end, adds one name and touches no other. */
  lemma Linked(es: seq<Entry>, r: seq<Entry>, k: nat, e: Entry)
    requires k <= |es| && r == (if k < |es| then es[k := e] else es + [e]) && Unique(es)
    requires (k < |es| ==> es[k].inum == 0)
             && e.inum != 0 && forall x: nat :: !Maps(es, e.name, x)
    ensures Unique(r)
    ensures forall name: Name, x: nat :: Maps(r, name, x) <==> Maps(es, name, x) || (name == e.name && x == e.inum)
  {
    forall j | 0 <= j < |es| && es[j].inum != 0 ensures es[j].name != e.name {
      assert !Maps(es, e.name, es[j].inum);
      assert es[j] == Entry(es[j].inum, es[j].name);
    }
    forall name: Name, x: nat ensures Maps(r, name, x) <==> Maps(es, name, x) || (name == e.name && x == e.inum) {
      if Maps(r, name, x) {
        var j :| 0 <= j < |r| && r[j] == Entry(x, name);
        if j != k { assert es[j] == Entry(x, name); }
      }
      if Maps(es, name, x) {
        var j :| 0 <= j < |es| && es[j] == Entry(x, name);
        assert r[j] == Entry(x, name);
      }
      if name == e.name && x == e.inum { assert r[k] == Entry(x, name); }
    }
  }

  /** The entries of directory i. */
  ghost function Dir(disk: seq<Block>, g: Book, i: nat, size: nat): (es: seq<Entry>)
    requires size % DIRENT == 0
    ensures |es| == size / DIRENT
  {
    Entries(F.Content(disk, g, i, size))
  }

  /** An entry read with readi is that of the directory. */
  lemma ReadEntry(disk: seq<Block>, g: Book, i: nat, size: nat, k: nat, b: seq<Byte>)
    requires size % DIRENT == 0 && k < size / DIRENT && |b| == DIRENT
             && forall j | 0 <= j < |b| :: b[j] == F.FByte(disk, g, i, k * DIRENT + j)
    ensures Dir(disk, g, i, size)[k] == Decode(b)
  {
    var c := F.Content(disk, g, i, size);
    hide F.FByte, Decode;
    assert c[k * DIRENT..k * DIRENT + DIRENT] == b;
  }

  lemma OverlaySlice(c: seq<Byte>, off: nat, b: seq<Byte>, at: nat)
    requires off <= |c| && |b| == DIRENT && at + DIRENT <= |F.Overlay(c, off, b)|
    requires at == off || at + DIRENT <= off || off + DIRENT <= at
    ensures F.Overlay(c, off, b)[at..at + DIRENT] ==
        if at == off then b else if at + DIRENT <= |c| then c[at..at + DIRENT] else []
  {
  }

  /** An entry written with writei. */
  lemma WriteEntry(disk: seq<Block>, m: seq<Block>, g: Book, r: Book, i: nat, size: nat, k: nat, b: seq<Byte>)
    requires size % DIRENT == 0 && k <= size / DIRENT && |b| == DIRENT && F.Overlaid(disk, m, g, r, i, k * DIRENT, b)
    ensures var es := Dir(disk, g, i, size);
            var size1 := if k * DIRENT + DIRENT > size then k * DIRENT + DIRENT else size;
            && size1 % DIRENT == 0
            && Dir(m, r, i, size1) == if k < |es| then es[k := Decode(b)] else es + [Decode(b)]
  {
    hide F.FByte, Decode, F.Overlaid;
    var es := Dir(disk, g, i, size);
    var size1 := if k * DIRENT + DIRENT > size then k * DIRENT + DIRENT else size;
    F.ContentWritten(disk, m, g, r, i, k * DIRENT, b, size, size1);
    var c, d := F.Content(disk, g, i, size), F.Content(m, r, i, size1);
    assert d == F.Overlay(c, k * DIRENT, b);
    hide F.Overlay, F.Content;
    var want := if k < |es| then es[k := Decode(b)] else es + [Decode(b)];
    forall j | 0 <= j < |want| ensures Entries(d)[j] == want[j] {
      OverlaySlice(c, k * DIRENT, b, j * DIRENT);
    }
  }

  lemma SizeBound(node: Inode, g: Book, i: nat)
    requires F.Full(node, g, i)
    ensures node.size <= MAXFILE * BSIZE
  {
  }

  lemma Offset(size: nat, k: nat)
    requires k * DIRENT < size && size % DIRENT == 0
    ensures k < size / DIRENT && k * DIRENT + DIRENT <= size && k * DIRENT % DIRENT == 0 && k * DIRENT / DIRENT == k
  {
  }

  /** readi of the k-th entry. */
  method ReadOne(fs: F.Fs, dp: nat, k: nat) returns (b: seq<Byte>)
    requires fs.Valid() && dp < fs.nodes.Length && dp !in fs.dying && F.Full(fs.nodes[dp], fs.g, dp)
    requires fs.nodes[dp].size % DIRENT == 0 && k * DIRENT < fs.nodes[dp].size
    modifies fs.disk, fs.nodes, fs`g, fs`dirty
    ensures fs.Valid() && fs.g == old(fs.g) && fs.disk[..] == old(fs.disk[..]) && fs.nodes[..] == old(fs.nodes[..])
    ensures fs.dirty == old(fs.dirty) && |b| == DIRENT
    ensures var es := Dir(fs.disk[..], fs.g, dp, fs.nodes[dp].size); k < |es| && es[k] == Decode(b)
  {
    hide Inv, F.Full, Decode, F.FByte, F.Content, Dir;
    SizeBound(fs.nodes[dp], fs.g, dp);
    Offset(fs.nodes[dp].size, k);
    var p;
    b, p := fs.Readi(dp, k * DIRENT, DIRENT);
    ReadEntry(fs.disk[..], fs.g, dp, fs.nodes[dp].size, k, b);
  }

  /** dirlookup: the inode number and offset of the first live entry with the name, or 0. */
  method DirLookup(fs: F.Fs, dp: nat, name: Name) returns (inum: nat, off: nat, panic: bool)
    requires fs.Valid() && dp < fs.nodes.Length && dp !in fs.dying && F.Full(fs.nodes[dp], fs.g, dp)
    requires fs.nodes[dp].size % DIRENT == 0
    modifies fs.disk, fs.nodes, fs`g, fs`dirty
    ensures !panic && fs.Valid() && fs.g == old(fs.g) && fs.disk[..] == old(fs.disk[..])
    ensures fs.nodes[..] == old(fs.nodes[..])
            && fs.dirty == old(fs.dirty)
    ensures var es := Dir(fs.disk[..], fs.g, dp, fs.nodes[dp].size);
            && (inum == 0 <==> forall x: nat :: !Maps(es, Cut(name), x))
            && (inum != 0 ==>
                  off % DIRENT == 0 && off / DIRENT < |es| && es[off / DIRENT] == Entry(inum, Cut(name))
                  && Maps(es, Cut(name), inum)
                  && forall j | 0 <= j < off / DIRENT :: es[j].inum == 0 || es[j].name != Cut(name))
            && (Unique(es) ==> inum == if Cut(name) in AsMap(es) then AsMap(es)[Cut(name)] else 0)
  {
    hide Inv, F.Full, Decode, F.FByte, F.Content, Dir, Unique, AsMap;
    SizeBound(fs.nodes[dp], fs.g, dp);
    ghost var size := fs.nodes[dp].size;
    ghost var es := Dir(fs.disk[..], fs.g, dp, size);
    panic, inum, off := false, 0, 0;
    var k := 0;
    while k * DIRENT < fs.nodes[dp].size
      invariant 0 <= k <= size / DIRENT && !panic
      invariant fs.Valid() && fs.g == old(fs.g) && fs.disk[..] == old(fs.disk[..]) && fs.nodes[..] == old(fs.nodes[..])
                && fs.dirty == old(fs.dirty)
      invariant forall j | 0 <= j < k :: es[j].inum == 0 || es[j].name != Cut(name)
      decreases size - k * DIRENT
    {
      Offset(size, k);
      var b := ReadOne(fs, dp, k);
      panic := |b| != DIRENT;
      if panic { return; }
      var e := Decode(b);
      DecodeName(b);
      if e.inum != 0 {
        var same := Namecmp(name, b[2..]);
        if same {
          Found(es, k, e);
          assert Maps(es, Cut(name), e.inum);
          if Unique(es) { AsMapIs(es, e.name, e.inum); }
          return e.inum, k * DIRENT, false;
        }
      }
      k := k + 1;
    }
    inum := 0;
    forall x: nat ensures !Maps(es, Cut(name), x) { NotFound(es, Cut(name), x); }
    if Unique(es) { NotInMap(es, Cut(name)); }
  }

  lemma DecodeName(b: seq<Byte>)
    requires |b| == DIRENT
    ensures Decode(b).name == Stored(b[2..])
  {
  }

  lemma Found(es: seq<Entry>, k: nat, e: Entry)
    requires k < |es| && es[k] == e && e.inum != 0
    ensures Maps(es, e.name, e.inum)
  {
    assert es[k] == Entry(e.inum, e.name);
  }

  lemma NotInMap(es: seq<Entry>, name: Name)
    requires Unique(es) && forall x: nat :: !Maps(es, name, x)
    ensures name !in AsMap(es)
  {
    AsMapLive(es);
    if name in AsMap(es) { AsMapIs(es, name, AsMap(es)[name]); }
  }

  lemma NotFound(es: seq<Entry>, name: Name, x: nat)
    requires forall j | 0 <= j < |es| :: es[j].inum == 0 || es[j].name != name
    ensures !Maps(es, name, x)
  {
  }

  lemma OthersKept(disk: seq<Block>, m: seq<Block>, g: Book, r: Book, i: nat, off: nat, data: seq<Byte>)
    requires F.Overlaid(disk, m, g, r, i, off, data)
    ensures forall j: nat, o: nat | j != i :: F.FByte(m, r, j, o) == F.FByte(disk, g, j, o)
  {
    hide F.FByte;
  }

  /** The first empty entry, or the end. */
  method FindEmpty(fs: F.Fs, dp: nat) returns (k: nat, panic: bool)
    requires fs.Valid() && dp < fs.nodes.Length && dp !in fs.dying && F.Full(fs.nodes[dp], fs.g, dp)
    requires fs.nodes[dp].size % DIRENT == 0
    modifies fs.disk, fs.nodes, fs`g, fs`dirty
    ensures !panic && fs.Valid() && fs.g == old(fs.g) && fs.disk[..] == old(fs.disk[..])
    ensures fs.nodes[..] == old(fs.nodes[..])
            && fs.dirty == old(fs.dirty)
    ensures var es := Dir(fs.disk[..], fs.g, dp, fs.nodes[dp].size);
            k <= |es| && (k < |es| ==> es[k].inum == 0) && forall j | 0 <= j < k :: es[j].inum != 0
  {
    hide Inv, F.Full, Decode, F.FByte, Dir;
    SizeBound(fs.nodes[dp], fs.g, dp);
    ghost var size := fs.nodes[dp].size;
    ghost var es := Dir(fs.disk[..], fs.g, dp, size);
    panic, k := false, 0;
    while k * DIRENT < fs.nodes[dp].size
      invariant 0 <= k <= size / DIRENT && !panic
      invariant fs.Valid() && fs.g == old(fs.g) && fs.disk[..] == old(fs.disk[..]) && fs.nodes[..] == old(fs.nodes[..])
                && fs.dirty == old(fs.dirty)
      invariant forall j | 0 <= j < k :: es[j].inum != 0
      decreases size - k * DIRENT
    {
      var b, p := fs.Readi(dp, k * DIRENT, DIRENT);
      panic := |b| != DIRENT;
      if panic { return; }
      ReadEntry(fs.disk[..], fs.g, dp, size, k, b);
      if Decode(b).inum == 0 { return; }
      k := k + 1;
    }
  }

  /** es is was with e in the first empty entry, or behind the last one. */
  ghost predicate InFirstEmpty(was: seq<Entry>, es: seq<Entry>, e: Entry) {
    exists k: nat :: k <= |was| && FilledAt(was, es, e, k)
  }

  ghost predicate FilledAt(was: seq<Entry>, es: seq<Entry>, e: Entry, k: nat)
    requires k <= |was|
  {
    && (k < |was| ==> was[k].inum == 0) && (forall j | 0 <= j < k :: was[j].inum != 0)
    && es == if k < |was| then was[k := e] else was + [e]
  }

  lemma EmptyFilled(was: seq<Entry>, es: seq<Entry>, k: nat, e: Entry)
    requires k <= |was| && FilledAt(was, es, e, k)
    ensures InFirstEmpty(was, es, e)
  {
  }

  /**
   * dirlink: -1 with nothing changed when the name is there; else 0 with one more name in the map, no other
   * name touched and no other file changed. panic says whether the disk is full or the directory too big.
   */
  method DirLink(fs: F.Fs, dp: nat, name: Name, inum: nat) returns (r: int, panic: bool)
    requires fs.Valid() && dp < fs.nodes.Length && dp !in fs.dying && F.Full(fs.nodes[dp], fs.g, dp)
    requires fs.nodes[dp].size % DIRENT == 0
    requires 0 < inum < 0x1_0000 && Unique(Dir(fs.disk[..], fs.g, dp, fs.nodes[dp].size))
    modifies fs.disk, fs.nodes, fs`g, fs`dirty
    ensures fs.Valid() && forall j | 0 <= j < fs.nodes.Length && j != dp :: fs.nodes[j] == old(fs.nodes[j])
    ensures panic ==> (forall c | c in fs.g.own :: fs.g.own[c] != Free) || old(fs.nodes[dp].size) == MAXFILE * BSIZE
    ensures !panic ==> r == 0 || r == -1
    ensures !panic && r == -1 ==>
              fs.g == old(fs.g) && fs.disk[..] == old(fs.disk[..]) && fs.nodes[..] == old(fs.nodes[..])
    ensures !panic ==> (r == -1 <==> Cut(name) in AsMap(old(Dir(fs.disk[..], fs.g, dp, fs.nodes[dp].size))))
    ensures !panic && r == 0 ==>
            && fs.nodes[dp].size % DIRENT == 0 && F.Full(fs.nodes[dp], fs.g, dp)
            && var es, was := Dir(fs.disk[..], fs.g, dp, fs.nodes[dp].size),
                      old(Dir(fs.disk[..], fs.g, dp, fs.nodes[dp].size));
               && Unique(es) && Cut(name) !in AsMap(was) && AsMap(es) == AsMap(was)[Cut(name) := inum]
               && InFirstEmpty(was, es, Entry(inum, Cut(name)))
    ensures F.Covers(old(fs.disk[..]), fs.disk[..], old(fs.dirty), fs.dirty)
    ensures !panic && r == 0 ==> F.Iblock(fs.sb, dp) in fs.dirty
    ensures !panic ==>
              forall j: nat, o: nat | j != dp ::
                F.FByte(fs.disk[..], fs.g, j, o) == old(F.FByte(fs.disk[..], fs.g, j, o))
  {
    hide Inv, F.Full, Decode, F.FByte, Dir, Unique, Maps, F.SlotsKept, F.Tidy, F.Overlaid, F.Spanned, AsMap, F.Covers,
      InFirstEmpty;
    F.CoversNone(fs.disk[..], fs.dirty);
    ghost var es, size := Dir(fs.disk[..], fs.g, dp, fs.nodes[dp].size), fs.nodes[dp].size;
    SizeBound(fs.nodes[dp], fs.g, dp);
    var found, off, k;
    found, off, panic := DirLookup(fs, dp, name);
    AsMapLive(es);
    if found != 0 { return -1, panic; }
    k, panic := FindEmpty(fs, dp);
    var b := Encode(inum, name);
    DecodeEncode(inum, name);
    var n;
    n, panic := fs.Writei(dp, k * DIRENT, b);
    r := 0;
    if panic { return; }
    if n != DIRENT { panic := true; return; }
    WriteEntry(old(fs.disk[..]), fs.disk[..], old(fs.g), fs.g, dp, size, k, b);
    Linked(es, Dir(fs.disk[..], fs.g, dp, fs.nodes[dp].size), k, Entry(inum, Cut(name)));
    LinkedMap(es, Dir(fs.disk[..], fs.g, dp, fs.nodes[dp].size), Cut(name), inum);
    EmptyFilled(es, Dir(fs.disk[..], fs.g, dp, fs.nodes[dp].size), k, Entry(inum, Cut(name)));
    OthersKept(old(fs.disk[..]), fs.disk[..], old(fs.g), fs.g, dp, k * DIRENT, b);
  }
}
