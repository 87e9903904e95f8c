/** Path names: skipelem and namex, against splitting at slashes and folding the directory maps. */
module Paths {
  import opened Basics
  import opened Blocks
  import opened BlockMap
  import opened Directory
  import F = Files

  const SLASH: int := 47

  /** A file system as path names see it: what each inode is, and the map of each directory. */
  datatype Node = Plain | Folder(entries: map<Name, nat>)

  type Tree = map<nat, Node>

  const ROOTINO := 1

  // ---- splitting ----

  /** The pieces of a path between slashes, empty ones included. */
  function Pieces(p: Name): (ps: seq<Name>)
    ensures |ps| > 0
  {
    if p == [] then [[]]
    else
      var rest := Pieces(p[1..]);
      if p[0] == SLASH then [[]] + rest else [[p[0]] + rest[0]] + rest[1..]
  }

  function NonEmpty(ps: seq<Name>): (r: seq<Name>) {
    if ps == [] then [] else if ps[0] == [] then NonEmpty(ps[1..]) else [ps[0]] + NonEmpty(ps[1..])
  }

  /** The components of a path. */
  function Components(p: Name): (cs: seq<Name>) { NonEmpty(Pieces(p)) }

  predicate NoSlash(s: Name) { forall i | 0 <= i < |s| :: s[i] != SLASH }

  lemma SlashFirst(p: Name)
    requires p != [] && p[0] == SLASH
    ensures Components(p) == Components(p[1..])
  {
    var rest := Pieces(p[1..]);
    assert ([[]] + rest)[1..] == rest;
  }

  /** The first component ends at the first slash or at the end. */
  lemma {:induction false} PiecesFirst(s: Name, t: Name)
    requires NoSlash(s) && (t == [] || t[0] == SLASH)
    ensures Pieces(s + t)[0] == s && Pieces(s + t)[1..] == if t == [] then [] else Pieces(t[1..])
  {
    if s == [] {
      assert s + t == t;
      if t != [] { assert ([[]] + Pieces(t[1..]))[1..] == Pieces(t[1..]); }
    } else {
      assert (s + t)[1..] == s[1..] + t && (s + t)[0] == s[0];
      PiecesFirst(s[1..], t);
      assert [s[0]] + s[1..] == s;
    }
  }

  lemma ComponentsFirst(s: Name, t: Name)
    requires s != [] && NoSlash(s) && (t == [] || t[0] == SLASH)
    ensures Components(s + t) == [s] + Components(t)
  {
    PiecesFirst(s, t);
    var ps := Pieces(s + t);
    assert ps == [ps[0]] + ps[1..];
    if t == [] {
      assert Pieces(t) == [[]] && NonEmpty([[]]) == NonEmpty([]);
    } else {
      SlashFirst(t);
    }
  }

  /** How far a run of characters goes. */
  method Skip(p: Name, i: nat, slashes: bool) returns (j: nat)
    requires i <= |p|
    ensures i <= j <= |p| && (forall k | i <= k < j :: (p[k] == SLASH) == slashes)
    ensures (j < |p| ==> (p[j] == SLASH) != slashes)
  {
    j := i;
    while j < |p| && (p[j] == SLASH) == slashes
      invariant i <= j <= |p| && forall k | i <= k < j :: (p[k] == SLASH) == slashes
    {
      j := j + 1;
    }
  }

  lemma {:induction false} SlashesSkipped(p: Name, i: nat)
    requires i <= |p| && forall k | 0 <= k < i :: p[k] == SLASH
    ensures Components(p) == Components(p[i..])
  {
    if i > 0 {
      SlashFirst(p);
      SlashesSkipped(p[1..], i - 1);
      assert p[1..][i - 1..] == p[i..];
    } else {
      assert p[0..] == p;
    }
  }

  lemma NoComponents()
    ensures Components([]) == []
  {
    assert Pieces([]) == [[]] && NonEmpty([[]]) == NonEmpty([]);
  }

  /** skipelem: the next component, cut, and the rest of the path without leading slashes; None when there is none. */
  method Skipelem(path: Name) returns (r: Option<Name>, name: Name)
    ensures r.None? <==> Components(path) == []
    ensures r.Some? ==>
              Components(path) != [] && name == Cut(Components(path)[0]) && Components(r.value) == Components(path)[1..]
    ensures r.Some? ==> (r.value == [] <==> |Components(path)| == 1) && |r.value| < |path|
  {
    hide Components;
    NoComponents();
    var i := Skip(path, 0, true);
    SlashesSkipped(path, i);
    name := [];
    if i == |path| {
      assert path[i..] == [];
      return None, name;
    }
    var j := Skip(path, i, false);
    var s, t := path[i..j], path[j..];
    assert path[i..] == s + t;
    ComponentsFirst(s, t);
    name := if |s| >= DIRSIZ then s[..DIRSIZ] else s;
    var k := Skip(path, j, true);
    SlashesSkipped(t, k - j);
    assert t[k - j..] == path[k..];
    if k < |path| { StartsComponent(path[k..]); }
    r := Some(path[k..]);
  }

  /** What starts with something else than a slash has a component. */
  lemma StartsComponent(p: Name)
    requires p != [] && p[0] != SLASH
    ensures Components(p) != []
  {
    var rest := Pieces(p[1..]);
    assert Pieces(p)[0] == [p[0]] + rest[0];
  }

  // ---- walking ----

  function Lookup(t: Tree, dir: nat, name: Name): (r: Option<nat>) {
    if dir in t && t[dir].Folder? && name in t[dir].entries then Some(t[dir].entries[name]) else None
  }

  /** Following components from an inode. */
  function Follow(t: Tree, from: nat, cs: seq<Name>): (r: Option<nat>)
    decreases |cs|
  {
    if cs == [] then Some(from)
    else match Lookup(t, from, Cut(cs[0])) case None => None case Some(n) => Follow(t, n, cs[1..])
  }

  predicate IsDir(t: Tree, i: nat) { i in t && t[i].Folder? }

  /** The directory that holds the last component. */
  function FollowParent(t: Tree, from: nat, cs: seq<Name>): (r: Option<nat>) {
    if cs == [] then None
    else match Follow(t, from, cs[..|cs| - 1]) case None => None case Some(d) => if IsDir(t, d) then Some(d) else None
  }

  function Start(path: Name, cwd: nat): (i: nat) { if path != [] && path[0] == SLASH then ROOTINO else cwd }

  /** Absolute paths start at the root, others at the current directory. */
  lemma StartIs(path: Name, cwd: nat)
    ensures [SLASH] <= path ==> Start(path, cwd) == ROOTINO && Components(path) == Components(path[1..])
    ensures !([SLASH] <= path) ==> Start(path, cwd) == cwd
  {
    if [SLASH] <= path { SlashFirst(path); }
  }

  lemma {:induction false} PiecesJoin(a: Name, b: Name)
    ensures Pieces(a + [SLASH] + b) == Pieces(a) + Pieces(b)
  {
    var p := a + [SLASH] + b;
    hide Pieces;
    PiecesStep(a);
    PiecesStep(p);
    if a == [] {
      assert p[0] == SLASH && p[1..] == b;
    } else {
      PiecesJoin(a[1..], b);
      var x, y := Pieces(a[1..]), Pieces(b);
      assert p[0] == a[0] && p[1..] == a[1..] + [SLASH] + b;
      assert (x + y)[0] == x[0] && (x + y)[1..] == x[1..] + y;
    }
  }

  lemma PiecesStep(p: Name)
    ensures Pieces([]) == [[]]
    ensures p != [] && p[0] == SLASH ==> Pieces(p) == [[]] + Pieces(p[1..])
    ensures p != [] && p[0] != SLASH ==> Pieces(p) == [[p[0]] + Pieces(p[1..])[0]] + Pieces(p[1..])[1..]
  {
  }

  lemma {:induction false} NonEmptyJoin(x: seq<Name>, y: seq<Name>)
    ensures NonEmpty(x + y) == NonEmpty(x) + NonEmpty(y)
  {
    if x == [] {
      assert x + y == y;
    } else {
      NonEmptyJoin(x[1..], y);
      assert (x + y)[0] == x[0] && (x + y)[1..] == x[1..] + y;
    }
  }

  /** The components of a/b are those of a and those of b. */
  lemma ComponentsJoin(a: Name, b: Name)
    ensures Components(a + [SLASH] + b) == Components(a) + Components(b)
  {
    PiecesJoin(a, b);
    NonEmptyJoin(Pieces(a), Pieces(b));
  }

  /** Names joined by slashes. */
  function Path(cs: seq<Name>): (p: Name) {
    if cs == [] then [] else cs[0] + [SLASH] + Path(cs[1..])
  }

  /** The components of names joined by slashes are the names. */
  lemma {:induction false} ComponentsOf(cs: seq<Name>)
    requires forall i | 0 <= i < |cs| :: cs[i] != [] && NoSlash(cs[i])
    ensures Components(Path(cs)) == cs
  {
    if cs == [] {
      NoComponents();
    } else {
      ComponentsOf(cs[1..]);
      ComponentsJoin(cs[0], Path(cs[1..]));
      ComponentsFirst(cs[0], []);
      NoComponents();
      assert cs[0] + [] == cs[0] && [cs[0]] + [] + cs[1..] == cs;
    }
  }

  /** Following a/b is following b from where a leads. */
  lemma FollowJoin(t: Tree, from: nat, a: Name, b: Name)
    ensures Follow(t, from, Components(a + [SLASH] + b)) ==
            match Follow(t, from, Components(a)) case None => None case Some(n) => Follow(t, n, Components(b))
  {
    ComponentsJoin(a, b);
    FollowBoth(t, from, Components(a), Components(b));
  }

  lemma {:induction false} FollowBoth(t: Tree, from: nat, x: seq<Name>, y: seq<Name>)
    ensures Follow(t, from, x + y) == match Follow(t, from, x) case None => None case Some(n) => Follow(t, n, y)
    decreases |x|
  {
    if x == [] {
      assert x + y == y;
    } else {
      assert (x + y)[0] == x[0] && (x + y)[1..] == x[1..] + y;
      if n :| Lookup(t, from, Cut(x[0])) == Some(n) { FollowBoth(t, n, x[1..], y); }
    }
  }

  lemma FollowStep(t: Tree, from: nat, cs: seq<Name>)
    requires cs != []
    ensures |cs| > 1 ==>
              FollowParent(t, from, cs) ==
              match Lookup(t, from, Cut(cs[0])) case None => None case Some(n) => FollowParent(t, n, cs[1..])
    ensures |cs| == 1 ==> FollowParent(t, from, cs) == if IsDir(t, from) then Some(from) else None
    ensures !IsDir(t, from) ==> Lookup(t, from, Cut(cs[0])) == None && FollowParent(t, from, cs) == None
  {
    if |cs| > 1 {
      assert cs[..|cs| - 1][0] == cs[0] && cs[..|cs| - 1][1..] == cs[1..][..|cs[1..]| - 1];
    } else {
      assert cs[..|cs| - 1] == [];
    }
  }

  // ---- the directories of a file system ----

  /**
   * Directory i can be searched: its blocks are there, it holds whole entries, no name twice, and inodes that
   * exist.
   */
  ghost predicate DirOk(disk: seq<Block>, nodes: seq<Inode>, g: Book, dying: set<nat>, i: nat) {
    && i < |nodes| && i !in dying && F.Full(nodes[i], g, i) && nodes[i].size % DIRENT == 0
    && var es := Dir(disk, g, i, nodes[i].size);
       Unique(es) && forall k | 0 <= k < |es| :: es[k].inum < |nodes|
  }

  ghost predicate DirsOk(disk: seq<Block>, nodes: seq<Inode>, g: Book, dying: set<nat>, dirs: set<nat>) {
    forall i | i in dirs :: DirOk(disk, nodes, g, dying, i)
  }

  /** The tree on a disk on which the inodes in dirs are directories. */
  ghost function TreeOf(disk: seq<Block>, nodes: seq<Inode>, g: Book, dirs: set<nat>): (t: Tree) {
    map i: nat | i < |nodes| ::
      if i in dirs && nodes[i].size % DIRENT == 0 then Folder(AsMap(Dir(disk, g, i, nodes[i].size))) else Plain
  }

  lemma IsDirIn(disk: seq<Block>, nodes: seq<Inode>, g: Book, dying: set<nat>, dirs: set<nat>, i: nat)
    requires DirsOk(disk, nodes, g, dying, dirs)
    ensures IsDir(TreeOf(disk, nodes, g, dirs), i) <==> i in dirs
  {
    if i in dirs { assert DirOk(disk, nodes, g, dying, i); }
  }

  /** What dirlookup finds is what the tree says. */
  lemma LookupIn(disk: seq<Block>, nodes: seq<Inode>, g: Book, dying: set<nat>, dirs: set<nat>, i: nat, name: Name,
                 inum: nat, k: nat)
    requires DirsOk(disk, nodes, g, dying, dirs) && i in dirs && DirOk(disk, nodes, g, dying, i)
    requires var es := Dir(disk, g, i, nodes[i].size);
             && inum == (if name in AsMap(es) then AsMap(es)[name] else 0)
             && (inum != 0 ==> k < |es| && es[k].inum == inum)
    ensures inum < |nodes| || inum == 0
    ensures Lookup(TreeOf(disk, nodes, g, dirs), i, name) == if inum == 0 then None else Some(inum)
  {
    AsMapLive(Dir(disk, g, i, nodes[i].size));
  }

  /**
   * namex: the inode a path leads to, or that of its parent with the last component, cut, in name. It follows
   * the components of the path through the directories on the disk, changing nothing; dirs are the inodes of
   * type T_DIR.
   */
  method Namex(fs: F.Fs, dirs: set<nat>, cwd: nat, path: Name, parent: bool) returns (r: Option<nat>, name: Name)
    requires fs.Valid() && DirsOk(fs.disk[..], fs.nodes[..], fs.g, fs.dying, dirs) && cwd < fs.nodes.Length
    requires ROOTINO < fs.nodes.Length
    modifies fs.disk, fs.nodes, fs`g, fs`dirty
    ensures fs.Valid() && fs.g == old(fs.g) && fs.disk[..] == old(fs.disk[..]) && fs.nodes[..] == old(fs.nodes[..])
            && fs.dirty == old(fs.dirty)
    ensures var t := TreeOf(fs.disk[..], fs.nodes[..], fs.g, dirs);
            && (!parent ==> r == Follow(t, Start(path, cwd), Components(path)))
            && (parent ==> r == FollowParent(t, Start(path, cwd), Components(path)))
    ensures var t := TreeOf(fs.disk[..], fs.nodes[..], fs.g, dirs);
            && ([SLASH] <= path && !parent ==> r == Follow(t, ROOTINO, Components(path[1..])))
            && ([SLASH] <= path && parent ==> r == FollowParent(t, ROOTINO, Components(path[1..])))
            && (!([SLASH] <= path) && !parent ==> r == Follow(t, cwd, Components(path)))
            && (!([SLASH] <= path) && parent ==> r == FollowParent(t, cwd, Components(path)))
    ensures parent && r.Some? ==> name == Cut(Components(path)[|Components(path)| - 1])
  {
    hide Inv, DirsOk, TreeOf, Components, Lookup, IsDir, FollowParent, Maps, AsMap, Dir, Cut;
    ghost var t := TreeOf(fs.disk[..], fs.nodes[..], fs.g, dirs);
    ghost var disk, nodes, dying := fs.disk[..], fs.nodes[..], fs.dying;
    var ip: nat := Start(path, cwd);
    StartIs(path, cwd);
    name := [];
    var p := path;
    ghost var all := Components(path);
    ghost var k := 0;
    assert all[0..] == all;
    while true
      invariant fs.Valid() && fs.g == old(fs.g) && fs.disk[..] == disk && fs.nodes[..] == nodes
      invariant fs.dirty == old(fs.dirty)
      invariant 0 <= k <= |all| && ip < fs.nodes.Length && Components(p) == all[k..] && (parent ==> k < |all| || k == 0)
      invariant !parent ==> Follow(t, Start(path, cwd), all) == Follow(t, ip, all[k..])
      invariant parent ==> FollowParent(t, Start(path, cwd), all) == FollowParent(t, ip, all[k..])
      decreases |p|
    {
      var rest, n := Skipelem(p);
      if rest.None? { break; }
      name := n;
      p := rest.value;
      FollowStep(t, ip, all[k..]);
      IsDirIn(disk, nodes, fs.g, dying, dirs, ip);
      assert all[k..][1..] == all[k + 1..];
      if ip !in dirs { return None, name; }
      if parent && p == [] { return Some(ip), name; }
      DirOkIn(disk, nodes, fs.g, dying, dirs, ip);
      var inum, off, panic := DirLookup(fs, ip, name);
      CutTwice(all[k]);
      LookupIn(disk, nodes, fs.g, dying, dirs, ip, name, inum, off / DIRENT);
      if inum == 0 { return None, name; }
      ip := inum;
      k := k + 1;
    }
    if parent { NoParent(t, ip); return None, name; }
    r := Some(ip);
  }

  lemma DirOkIn(disk: seq<Block>, nodes: seq<Inode>, g: Book, dying: set<nat>, dirs: set<nat>, i: nat)
    requires DirsOk(disk, nodes, g, dying, dirs) && i in dirs
    ensures DirOk(disk, nodes, g, dying, i)
  {
  }

  lemma CutTwice(s: Name)
    ensures Cut(Cut(s)) == Cut(s)
  {
  }

  lemma NoParent(t: Tree, i: nat)
    ensures FollowParent(t, i, []) == None
  {
  }
}
