/**
 * The user-level allocator of Kernighan and Ritchie: a circular, address-ordered free
 * list of blocks measured in header-sized units, over memory obtained from sbrk.
 */
module Umalloc {
  import opened Basics

  /** sizeof(Header) */
  const UNIT := 16

  datatype Header = Header(ptr: nat, size: nat)

  type Memory = map<nat, Header>

  /** The first byte after the block at a. */
  function End(h: Memory, a: nat): (e: nat)
    requires a in h
  {
    a + UNIT * h[a].size
  }

  /** The blocks of ring are linked in a circle. */
  ghost predicate Linked(h: Memory, ring: seq<nat>) {
    && |ring| > 0
    && (forall i | 0 <= i < |ring| :: ring[i] in h)
    && (forall i, j | 0 <= i < j < |ring| && j == i + 1 :: h[ring[i]].ptr == ring[j])
    && h[ring[|ring| - 1]].ptr == ring[0]
  }

  /** The list starts at the empty base block; the others follow by address without overlap. */
  ghost predicate Sorted(h: Memory, ring: seq<nat>, base: nat) {
    && Linked(h, ring)
    && ring[0] == base && h[base].size == 0 && base > 0
    && (forall i | 1 <= i < |ring| :: base + UNIT <= ring[i] && h[ring[i]].size >= 1)
    && (forall i, j | 1 <= i < j < |ring| :: End(h, ring[i]) <= ring[j])
  }

  /** No block ends where the next begins, except possibly the listed ones. */
  ghost predicate Gaps(h: Memory, ring: seq<nat>, except: set<nat>)
    requires Linked(h, ring)
  {
    forall i, j | 0 <= i < j < |ring| && j == i + 1 && i !in except :: End(h, ring[i]) != ring[j]
  }

  /** Circular, address-ordered, disjoint and fully coalesced. */
  ghost predicate FreeList(h: Memory, ring: seq<nat>, base: nat) {
    Sorted(h, ring, base) && Gaps(h, ring, {})
  }

  lemma Apart(h: Memory, ring: seq<nat>, base: nat)
    requires Sorted(h, ring, base)
    ensures forall i, j | 0 <= i < j < |ring| :: ring[i] < ring[j]
  {
    forall i, j | 0 <= i < j < |ring| ensures ring[i] < ring[j] {
      if i > 0 { assert End(h, ring[i]) <= ring[j]; }
    }
  }

  /** A block at bp fits between the t-th free block and the next. */
  ghost predicate FitsAfter(h: Memory, ring: seq<nat>, base: nat, t: nat, bp: nat) {
    && Sorted(h, ring, base) && t < |ring|
    && bp in h && h[bp].size >= 1 && base + UNIT <= bp && End(h, ring[t]) <= bp && ring[t] < bp
    && (t + 1 < |ring| ==> End(h, bp) <= ring[t + 1])
  }

  /** Put bp into the circle behind p. */
  function Link(h: Memory, p: nat, bp: nat): (r: Memory)
    requires p in h && bp in h
  {
    h[bp := Header(h[p].ptr, h[bp].size)][p := h[p].(ptr := bp)]
  }

  /** Merge the block at a with the one it points to. */
  function Absorb(h: Memory, a: nat): (r: Memory)
    requires a in h && h[a].ptr in h
  {
    var n := h[a].ptr;
    h[a := Header(h[n].ptr, h[a].size + h[n].size)]
  }

  ghost function RingLink(ring: seq<nat>, t: nat, bp: nat): (r: seq<nat>)
    requires t < |ring|
  {
    ring[..t + 1] + [bp] + ring[t + 1..]
  }

  ghost function RingAbsorb(ring: seq<nat>, i: nat): (r: seq<nat>)
    requires i + 1 < |ring|
  {
    ring[..i + 1] + ring[i + 2..]
  }

  lemma RingLinkAt(ring: seq<nat>, t: nat, bp: nat, i: nat)
    requires t < |ring| && i <= |ring|
    ensures |RingLink(ring, t, bp)| == |ring| + 1
    ensures RingLink(ring, t, bp)[i] == if i <= t then ring[i] else if i == t + 1 then bp else ring[i - 1]
  {
  }

  lemma RingAbsorbAt(ring: seq<nat>, i: nat, j: nat)
    requires i + 1 < |ring| && j < |ring| - 1
    ensures |RingAbsorb(ring, i)| == |ring| - 1
    ensures RingAbsorb(ring, i)[j] == if j <= i then ring[j] else ring[j + 1]
  {
  }

  lemma LinkKeeps(h: Memory, ring: seq<nat>, base: nat, t: nat, bp: nat, i: nat)
    requires FitsAfter(h, ring, base, t, bp) && i < |ring|
    ensures ring[i] != bp && ring[i] in h && ring[t] in h && (i != t ==> ring[i] != ring[t])
    ensures Link(h, ring[t], bp)[ring[i]] == if i == t then h[ring[i]].(ptr := bp) else h[ring[i]]
  {
    Apart(h, ring, base);
    if i > t { assert ring[t + 1] <= ring[i]; }
  }

  lemma LinkOne(h: Memory, ring: seq<nat>, base: nat, t: nat, bp: nat, i: nat)
    requires FitsAfter(h, ring, base, t, bp) && i <= |ring|
    ensures ring[t] in h && |RingLink(ring, t, bp)| == |ring| + 1
    ensures var k, r := Link(h, ring[t], bp), RingLink(ring, t, bp);
            && r[i] in k && (i > 0 ==> base + UNIT <= r[i] && k[r[i]].size >= 1)
            && (i == 0 ==> r[i] == base && k[r[i]].size == 0)
            && (i == |ring| ==> k[r[i]].ptr == base)
  {
    hide RingLink;
    LinkKeeps(h, ring, base, t, bp, t);
    RingLinkAt(ring, t, bp, i);
    if i != t + 1 { LinkKeeps(h, ring, base, t, bp, if i <= t then i else i - 1); }
  }

  lemma LinkPair(h: Memory, ring: seq<nat>, base: nat, t: nat, bp: nat, i: nat, j: nat)
    requires FitsAfter(h, ring, base, t, bp) && i < j <= |ring|
    ensures ring[t] in h && |RingLink(ring, t, bp)| == |ring| + 1
    ensures var k, r := Link(h, ring[t], bp), RingLink(ring, t, bp);
            && r[i] in k && (j == i + 1 ==> k[r[i]].ptr == r[j]) && (i > 0 ==> End(k, r[i]) <= r[j])
  {
    hide RingLink;
    LinkKeeps(h, ring, base, t, bp, t);
    RingLinkAt(ring, t, bp, i);
    RingLinkAt(ring, t, bp, j);
    if i != t + 1 { LinkKeeps(h, ring, base, t, bp, if i <= t then i else i - 1); }
    if j == t + 1 && 0 < i < t { assert End(h, ring[i]) <= ring[t]; }
    if j > t + 2 { assert End(h, ring[t + 1]) <= ring[j - 1]; }
  }

  lemma LinkSorted(h: Memory, ring: seq<nat>, base: nat, t: nat, bp: nat)
    requires FitsAfter(h, ring, base, t, bp)
    ensures Sorted(Link(h, ring[t], bp), RingLink(ring, t, bp), base)
  {
    hide RingLink, Link;
    LinkKeeps(h, ring, base, t, bp, t);
    LinkOne(h, ring, base, t, bp, 0);
    LinkOne(h, ring, base, t, bp, |ring|);
    var k, r := Link(h, ring[t], bp), RingLink(ring, t, bp);
    forall i | 0 <= i < |r| ensures r[i] in k && (i > 0 ==> base + UNIT <= r[i] && k[r[i]].size >= 1) {
      LinkOne(h, ring, base, t, bp, i);
    }
    forall i, j | 0 <= i < j < |r| ensures (j == i + 1 ==> k[r[i]].ptr == r[j]) && (i > 0 ==> End(k, r[i]) <= r[j]) {
      LinkPair(h, ring, base, t, bp, i, j);
    }
  }

  lemma AbsorbPair(h: Memory, ring: seq<nat>, base: nat, m: nat, i: nat, j: nat)
    requires Sorted(h, ring, base) && 1 <= m < |ring| - 1 && End(h, ring[m]) == ring[m + 1]
    requires i < j < |ring| - 1
    ensures |RingAbsorb(ring, m)| == |ring| - 1
    ensures var k, r := Absorb(h, ring[m]), RingAbsorb(ring, m);
            && r[i] in k && (j == i + 1 ==> k[r[i]].ptr == r[j]) && (i > 0 ==> End(k, r[i]) <= r[j])
  {
    hide RingAbsorb;
    Apart(h, ring, base);
    RingAbsorbAt(ring, m, i);
    RingAbsorbAt(ring, m, j);
  }

  lemma AbsorbOne(h: Memory, ring: seq<nat>, base: nat, m: nat, i: nat)
    requires Sorted(h, ring, base) && 1 <= m < |ring| - 1 && End(h, ring[m]) == ring[m + 1] && i < |ring| - 1
    ensures |RingAbsorb(ring, m)| == |ring| - 1
    ensures var k, r := Absorb(h, ring[m]), RingAbsorb(ring, m);
            && r[i] in k && (i > 0 ==> base + UNIT <= r[i] && k[r[i]].size >= 1)
            && (i == 0 ==> r[i] == base && k[r[i]].size == 0)
            && (i == |ring| - 2 ==> k[r[i]].ptr == base)
            && End(k, r[i]) == (if i < m then End(h, ring[i]) else End(h, ring[i + 1]))
  {
    hide RingAbsorb;
    Apart(h, ring, base);
    RingAbsorbAt(ring, m, i);
  }

  lemma AbsorbSorted(h: Memory, ring: seq<nat>, base: nat, m: nat)
    requires Sorted(h, ring, base) && 1 <= m < |ring| - 1 && End(h, ring[m]) == ring[m + 1]
    ensures Sorted(Absorb(h, ring[m]), RingAbsorb(ring, m), base)
  {
    hide RingAbsorb, Absorb;
    AbsorbOne(h, ring, base, m, 0);
    AbsorbOne(h, ring, base, m, |ring| - 2);
    var k, r := Absorb(h, ring[m]), RingAbsorb(ring, m);
    forall i | 0 <= i < |r| ensures r[i] in k && (i > 0 ==> base + UNIT <= r[i] && k[r[i]].size >= 1) {
      AbsorbOne(h, ring, base, m, i);
    }
    forall i, j | 0 <= i < j < |r| ensures (j == i + 1 ==> k[r[i]].ptr == r[j]) && (i > 0 ==> End(k, r[i]) <= r[j]) {
      AbsorbPair(h, ring, base, m, i, j);
    }
  }

  /** Byte x lies in the block of n units at a. */
  predicate Spans(a: nat, n: nat, x: nat) {
    a <= x < a + UNIT * n
  }

  ghost predicate InFree(h: Memory, ring: seq<nat>, x: nat) {
    exists i :: 1 <= i < |ring| && ring[i] in h && Spans(ring[i], h[ring[i]].size, x)
  }

  ghost predicate InLive(live: map<nat, nat>, x: nat) {
    exists a :: a in live && Spans(a, live[a], x)
  }

  /** Linking a block in adds exactly its bytes to the free ones. */
  lemma LinkBytes(h: Memory, ring: seq<nat>, base: nat, t: nat, bp: nat, x: nat)
    requires FitsAfter(h, ring, base, t, bp)
    ensures ring[t] in h
    ensures InFree(Link(h, ring[t], bp), RingLink(ring, t, bp), x) <==> InFree(h, ring, x) || Spans(bp, h[bp].size, x)
  {
    hide RingLink;
    LinkKeeps(h, ring, base, t, bp, t);
    var k, r := Link(h, ring[t], bp), RingLink(ring, t, bp);
    RingLinkAt(ring, t, bp, t + 1);
    if InFree(k, r, x) {
      var i :| 1 <= i < |r| && r[i] in k && Spans(r[i], k[r[i]].size, x);
      RingLinkAt(ring, t, bp, i);
      if i != t + 1 {
        LinkFree(h, ring, base, t, bp, if i <= t then i else i - 1, x);
      }
    }
    if InFree(h, ring, x) { LinkAdds(h, ring, base, t, bp, x); }
    if Spans(bp, h[bp].size, x) {
      assert Spans(r[t + 1], k[r[t + 1]].size, x);
    }
  }

  lemma LinkAdds(h: Memory, ring: seq<nat>, base: nat, t: nat, bp: nat, x: nat)
    requires FitsAfter(h, ring, base, t, bp) && InFree(h, ring, x)
    ensures ring[t] in h && InFree(Link(h, ring[t], bp), RingLink(ring, t, bp), x)
  {
    hide RingLink;
    var i :| 1 <= i < |ring| && ring[i] in h && Spans(ring[i], h[ring[i]].size, x);
    LinkKeeps(h, ring, base, t, bp, i);
    var k, r, j := Link(h, ring[t], bp), RingLink(ring, t, bp), if i <= t then i else i + 1;
    RingLinkAt(ring, t, bp, j);
    assert Spans(r[j], k[r[j]].size, x);
  }

  lemma LinkFree(h: Memory, ring: seq<nat>, base: nat, t: nat, bp: nat, i: nat, x: nat)
    requires FitsAfter(h, ring, base, t, bp) && 1 <= i < |ring|
    ensures ring[t] in h && ring[i] in Link(h, ring[t], bp)
    ensures Spans(ring[i], Link(h, ring[t], bp)[ring[i]].size, x) ==> InFree(h, ring, x)
  {
    LinkKeeps(h, ring, base, t, bp, i);
  }

  /** Merging two touching blocks frees no byte and loses none. */
  lemma AbsorbBytes(h: Memory, ring: seq<nat>, base: nat, m: nat, x: nat)
    requires Sorted(h, ring, base) && 1 <= m < |ring| - 1 && End(h, ring[m]) == ring[m + 1]
    ensures InFree(Absorb(h, ring[m]), RingAbsorb(ring, m), x) <==> InFree(h, ring, x)
  {
    hide RingAbsorb;
    Apart(h, ring, base);
    var k, r := Absorb(h, ring[m]), RingAbsorb(ring, m);
    RingAbsorbAt(ring, m, m);
    if InFree(k, r, x) {
      var i :| 1 <= i < |r| && r[i] in k && Spans(r[i], k[r[i]].size, x);
      RingAbsorbAt(ring, m, i);
      var j := if i < m || (i == m && x < ring[m + 1]) then i else i + 1;
      assert Spans(ring[j], h[ring[j]].size, x);
    }
    if i :| 1 <= i < |ring| && ring[i] in h && Spans(ring[i], h[ring[i]].size, x) {
      var j := if i <= m then i else i - 1;
      RingAbsorbAt(ring, m, j);
      assert Spans(r[j], k[r[j]].size, x);
    }
  }

  /** The headers after free has put the block at bp behind p. */
  function Freed(h: Memory, p: nat, bp: nat): (r: Memory)
    requires p in h && bp in h && h[p].ptr in h
  {
    var one := Link(h, p, bp);
    var two := if End(one, bp) == one[bp].ptr then Absorb(one, bp) else one;
    if End(two, p) == bp && two[p].ptr in two then Absorb(two, p) else two
  }

  /** The free list after free has put the block at bp behind its t-th block. */
  ghost function RingFreed(h: Memory, ring: seq<nat>, t: nat, bp: nat): (r: seq<nat>)
    requires t < |ring| && ring[t] in h && bp in h
  {
    var one := RingLink(ring, t, bp);
    var two := if t + 1 < |ring| && End(h, bp) == ring[t + 1] then RingAbsorb(one, t + 1) else one;
    if End(h, ring[t]) == bp then RingAbsorb(two, t) else two
  }

  lemma LinkGaps(h: Memory, ring: seq<nat>, base: nat, t: nat, bp: nat)
    requires FitsAfter(h, ring, base, t, bp) && Gaps(h, ring, {})
    ensures ring[t] in h && Linked(Link(h, ring[t], bp), RingLink(ring, t, bp))
    ensures Gaps(Link(h, ring[t], bp), RingLink(ring, t, bp), {t, t + 1})
  {
    hide RingLink;
    LinkSorted(h, ring, base, t, bp);
    LinkKeeps(h, ring, base, t, bp, t);
    var k, r := Link(h, ring[t], bp), RingLink(ring, t, bp);
    RingLinkAt(ring, t, bp, 0);
    forall i, j | 0 <= i < j < |r| && j == i + 1 && i !in {t, t + 1} ensures End(k, r[i]) != r[j] {
      RingLinkAt(ring, t, bp, i);
      RingLinkAt(ring, t, bp, j);
      LinkKeeps(h, ring, base, t, bp, if i <= t then i else i - 1);
    }
  }

  lemma AbsorbGaps(h: Memory, ring: seq<nat>, base: nat, m: nat, except: set<nat>)
    requires Sorted(h, ring, base) && 1 <= m < |ring| - 1 && End(h, ring[m]) == ring[m + 1]
    requires Gaps(h, ring, except) && except <= {m - 1, m}
    ensures Linked(Absorb(h, ring[m]), RingAbsorb(ring, m))
    ensures Gaps(Absorb(h, ring[m]), RingAbsorb(ring, m), except - {m})
  {
    hide RingAbsorb;
    AbsorbSorted(h, ring, base, m);
    var k, r := Absorb(h, ring[m]), RingAbsorb(ring, m);
    RingAbsorbAt(ring, m, 0);
    forall i, j | 0 <= i < j < |r| && j == i + 1 && i !in except - {m} ensures End(k, r[i]) != r[j] {
      RingAbsorbAt(ring, m, i);
      RingAbsorbAt(ring, m, j);
      AbsorbOne(h, ring, base, m, i);
    }
  }

  /** The block joins the next free block if it touches it. */
  lemma JoinUp(h: Memory, ring: seq<nat>, base: nat, t: nat, bp: nat) returns (h': Memory, ring': seq<nat>)
    requires FitsAfter(h, ring, base, t, bp) && Gaps(h, ring, {})
    ensures ring[t] in h && Sorted(h', ring', base) && Gaps(h', ring', {t})
    ensures var one := Link(h, ring[t], bp);
            && one[bp].ptr in one
            && h' == (if End(one, bp) == one[bp].ptr then Absorb(one, bp) else one)
            && h'[ring[t]] == one[ring[t]]
    ensures ring' ==
        if t + 1 < |ring| && End(h, bp) == ring[t + 1] then RingAbsorb(RingLink(ring, t, bp), t + 1)
        else RingLink(ring, t, bp)
    ensures t + 1 < |ring'| && ring'[t] == ring[t] && ring'[t + 1] == bp
    ensures forall x: nat :: InFree(h', ring', x) <==> InFree(h, ring, x) || Spans(bp, h[bp].size, x)
  {
    hide RingAbsorb, RingLink, InFree;
    LinkSorted(h, ring, base, t, bp);
    LinkKeeps(h, ring, base, t, bp, t);
    LinkGaps(h, ring, base, t, bp);
    RingLinkAt(ring, t, bp, t);
    RingLinkAt(ring, t, bp, t + 1);
    var one, r := Link(h, ring[t], bp), RingLink(ring, t, bp);
    assert End(one, bp) == End(h, bp) && one[bp].ptr == h[ring[t]].ptr;
    forall x: nat ensures InFree(one, r, x) <==> InFree(h, ring, x) || Spans(bp, h[bp].size, x) {
      LinkBytes(h, ring, base, t, bp, x);
    }
    if t + 1 < |ring| && End(h, bp) == ring[t + 1] {
      RingLinkAt(ring, t, bp, t + 2);
      h', ring' := Absorb(one, bp), RingAbsorb(r, t + 1);
      AbsorbSorted(one, r, base, t + 1);
      AbsorbGaps(one, r, base, t + 1, {t, t + 1});
      assert {t, t + 1} - {t + 1} == {t};
      RingAbsorbAt(r, t + 1, t);
      RingAbsorbAt(r, t + 1, t + 1);
      forall x: nat ensures InFree(h', ring', x) <==> InFree(one, r, x) {
        AbsorbBytes(one, r, base, t + 1, x);
      }
    } else {
      h', ring' := one, r;
      if t + 1 < |ring| { RingLinkAt(ring, t, bp, t + 2); }
      assert Gaps(h', ring', {t});
    }
  }

  /** free keeps the list in order and coalesced, and adds exactly the freed bytes to it. */
  lemma FreedList(h: Memory, ring: seq<nat>, base: nat, t: nat, bp: nat)
    requires FreeList(h, ring, base) && FitsAfter(h, ring, base, t, bp)
    ensures ring[t] in h && h[ring[t]].ptr in h
    ensures var h', ring' := Freed(h, ring[t], bp), RingFreed(h, ring, t, bp);
            && FreeList(h', ring', base) && ring[t] in ring'
            && forall x: nat :: InFree(h', ring', x) <==> InFree(h, ring, x) || Spans(bp, h[bp].size, x)
  {
    hide InFree, RingAbsorb, RingLink, Absorb;
    Apart(h, ring, base);
    var two, r := JoinUp(h, ring, base, t, bp);
    LinkKeeps(h, ring, base, t, bp, t);
    assert End(two, ring[t]) == End(h, ring[t]) && two[ring[t]].ptr == bp;
    if End(h, ring[t]) == bp {
      AbsorbSorted(two, r, base, t);
      AbsorbGaps(two, r, base, t, {t});
      assert {t} - {t} == {};
      RingAbsorbAt(r, t, t);
      forall x: nat ensures InFree(Absorb(two, ring[t]), RingAbsorb(r, t), x) <==> InFree(two, r, x) {
        AbsorbBytes(two, r, base, t, x);
      }
    } else {
      assert Gaps(two, r, {});
    }
  }

  /** Live blocks keep their headers, and every byte obtained is in exactly one block. */
  ghost predicate Accounts(h: Memory, ring: seq<nat>, base: nat, live: map<nat, nat>, core: set<nat>) {
    && (forall a | a in live :: a in h && h[a].size == live[a] && live[a] >= 1 && base + UNIT <= a)
    && (forall a, b, x: nat | a in live && b in live && a != b && Spans(a, live[a], x) :: !Spans(b, live[b], x))
    && (forall x: nat | InFree(h, ring, x) :: !InLive(live, x))
    && (forall x: nat :: x in core <==> InFree(h, ring, x) || InLive(live, x))
  }

  /** The place for bp is behind the last block below it; disjointness makes it fit there. */
  lemma PlaceFits(h: Memory, ring: seq<nat>, base: nat, live: map<nat, nat>, core: set<nat>, t: nat, bp: nat)
    requires FreeList(h, ring, base) && Accounts(h, ring, base, live, core)
    requires bp in live && t < |ring| && ring[t] < bp && (t + 1 < |ring| ==> bp < ring[t + 1])
    ensures FitsAfter(h, ring, base, t, bp)
  {
    assert Spans(bp, live[bp], bp) && InLive(live, bp);
    if t > 0 && bp < End(h, ring[t]) {
      assert Spans(ring[t], h[ring[t]].size, bp);
      assert InFree(h, ring, bp);
    }
    if t + 1 < |ring| && ring[t + 1] < End(h, bp) {
      var x := ring[t + 1];
      assert Spans(ring[t + 1], h[ring[t + 1]].size, x) && InFree(h, ring, x);
      assert Spans(bp, live[bp], x) && InLive(live, x);
    }
  }

  /** The exit test of free's search loop, at the free block p. */
  predicate Stops(h: Memory, p: nat, bp: nat)
    requires p in h
  {
    (bp > p && bp < h[p].ptr) || (p >= h[p].ptr && (bp > p || bp < h[p].ptr))
  }

  /** bp lies above the k-th free block and below the next. */
  ghost predicate IsPlace(ring: seq<nat>, bp: nat, k: nat) {
    k < |ring| && ring[k] < bp && (k + 1 < |ring| ==> bp < ring[k + 1])
  }

  /** The loop test holds exactly at the place for bp. */
  lemma StopsAtPlace(h: Memory, ring: seq<nat>, base: nat, bp: nat, k: nat)
    requires Sorted(h, ring, base) && base < bp && bp !in ring && k < |ring|
    ensures ring[k] in h && (Stops(h, ring[k], bp) <==> IsPlace(ring, bp, k))
    ensures h[ring[k]].ptr == ring[if k + 1 < |ring| then k + 1 else 0]
  {
    Apart(h, ring, base);
    if k + 1 < |ring| {
      assert h[ring[k]].ptr == ring[k + 1] && ring[k] < ring[k + 1];
    } else {
      assert h[ring[k]].ptr == base && (k > 0 ==> ring[0] < ring[k]);
    }
  }

  lemma Positive(h: Memory, ring: seq<nat>, base: nat, t: nat)
    requires Sorted(h, ring, base) && t < |ring|
    ensures ring[t] > 0
  {
  }

  lemma {:induction false} PlaceExists(h: Memory, ring: seq<nat>, base: nat, bp: nat, n: nat) returns (t: nat)
    requires Sorted(h, ring, base) && base < bp && bp !in ring && 0 < n <= |ring|
    ensures t < n && ring[t] < bp && (t + 1 < n ==> bp < ring[t + 1])
    decreases n
  {
    Apart(h, ring, base);
    if n == 1 || ring[n - 1] < bp {
      t := n - 1;
    } else {
      t := PlaceExists(h, ring, base, bp, n - 1);
    }
  }

  /** Freeing a live block moves its bytes from the live to the free ones. */
  lemma AccountsFreed(h: Memory, ring: seq<nat>, base: nat, live: map<nat, nat>, core: set<nat>, t: nat, bp: nat)
    requires FreeList(h, ring, base) && Accounts(h, ring, base, live, core) && bp in live
    requires FitsAfter(h, ring, base, t, bp)
    ensures ring[t] in h && h[ring[t]].ptr in h
    ensures Accounts(Freed(h, ring[t], bp), RingFreed(h, ring, t, bp), base, live - {bp}, core)
  {
    FreedList(h, ring, base, t, bp);
    var h', ring', live' := Freed(h, ring[t], bp), RingFreed(h, ring, t, bp), live - {bp};
    hide RingFreed, FreeList, Freed, FitsAfter;
    forall a | a in live' ensures a in h' && h'[a].size == live'[a] {
      FreedKeeps(h, ring, base, live, core, t, bp, a);
    }
    forall x: nat ensures InLive(live, x) <==> InLive(live', x) || Spans(bp, live[bp], x) {
      if a :| a in live && Spans(a, live[a], x) {
        assert a == bp || a in live';
      }
    }
    forall x: nat | InFree(h', ring', x) ensures !InLive(live', x) {
      assert forall a | a in live' && a != bp :: Spans(a, live[a], x) ==> InLive(live, x);
    }
  }

  /** free leaves the headers of other live blocks alone. */
  lemma FreedKeeps(h: Memory, ring: seq<nat>, base: nat, live: map<nat, nat>, core: set<nat>, t: nat, bp: nat, a: nat)
    requires FreeList(h, ring, base) && Accounts(h, ring, base, live, core) && bp in live
    requires FitsAfter(h, ring, base, t, bp) && a in live && a != bp
    ensures ring[t] in h && h[ring[t]].ptr in h
    ensures a in Freed(h, ring[t], bp) && Freed(h, ring[t], bp)[a] == h[a]
  {
    assert Spans(a, live[a], a) && InLive(live, a);
    if t > 0 { assert Spans(ring[t], h[ring[t]].size, ring[t]) && InFree(h, ring, ring[t]); }
    assert a != ring[t];
  }

  /** Byte x is the user's while the block of n units at a is live. */
  predicate Payload(a: nat, n: nat, x: nat) {
    a + UNIT <= x < a + UNIT * n
  }

  /** Every header lies at base or in memory obtained, and no byte of it is in the payload of a live block. */
  ghost predicate Clean(h: Memory, base: nat, live: map<nat, nat>, core: set<nat>) {
    && (forall a | a in h :: a == base || a in core)
    && (forall a, b, x: nat | a in h && b in live && Payload(b, live[b], x) :: !Spans(a, 1, x))
  }

  /** The block at a is the user's to write: what lay behind its header is no header any more. */
  function Handed(h: Memory, a: nat, n: nat): (r: Memory) {
    map k | k in h && !(a < k < a + UNIT * n) :: h[k]
  }

  /** Handing a block over takes no header of another block with it. */
  lemma HandedKeeps(h: Memory, ring: seq<nat>, base: nat, live: map<nat, nat>, core: set<nat>, a: nat)
    requires FreeList(h, ring, base) && Accounts(h, ring, base, live, core) && a in live
    ensures FreeList(Handed(h, a, live[a]), ring, base) && Accounts(Handed(h, a, live[a]), ring, base, live, core)
  {
    var r := Handed(h, a, live[a]);
    forall i | 0 <= i < |ring|
      ensures ring[i] in r && r[ring[i]] == h[ring[i]]
    {
      RingOutside(h, ring, base, live, core, a, i);
    }
    forall b | b in live ensures b in r && r[b] == h[b] { LiveOutside(h, ring, base, live, core, a, b); }
    forall x: nat ensures InFree(r, ring, x) <==> InFree(h, ring, x) {
      if i :| 1 <= i < |ring| && Spans(ring[i], h[ring[i]].size, x) { assert Spans(ring[i], r[ring[i]].size, x); }
    }
  }

  lemma RingOutside(h: Memory, ring: seq<nat>, base: nat, live: map<nat, nat>, core: set<nat>, a: nat, i: nat)
    requires FreeList(h, ring, base) && Accounts(h, ring, base, live, core) && a in live && i < |ring|
    ensures ring[i] in h && !(a < ring[i] < a + UNIT * live[a])
  {
    var x := ring[i];
    if i > 0 && a < x < a + UNIT * live[a] {
      assert Spans(ring[i], h[ring[i]].size, x) && InFree(h, ring, x);
      assert Spans(a, live[a], x) && InLive(live, x);
    }
  }

  lemma LiveOutside(h: Memory, ring: seq<nat>, base: nat, live: map<nat, nat>, core: set<nat>, a: nat, b: nat)
    requires Accounts(h, ring, base, live, core) && a in live && b in live
    ensures b in h && !(a < b < a + UNIT * live[a])
  {
    if a < b < a + UNIT * live[a] { assert Spans(a, live[a], b) && Spans(b, live[b], b); }
  }

  /** Handing out a block: its header may be new, and what lay in its payload goes. */
  lemma CleanTaken(h: Memory, h': Memory, ring: seq<nat>, base: nat, live: map<nat, nat>, core: set<nat>, a: nat,
                   n: nat)
    requires Clean(h, base, live, core) && h'.Keys <= h.Keys + {a} && a !in live
    requires Accounts(h', ring, base, live[a := n], core)
    ensures Clean(Handed(h', a, n), base, live[a := n], core)
  {
    var r, live' := Handed(h', a, n), live[a := n];
    assert Spans(a, live'[a], a);
    assert InLive(live', a);
    forall k, b, x: nat | k in r && b in live' && Payload(b, live'[b], x) ensures !Spans(k, 1, x) {
      assert k in h || k == a;
      if b != a && k == a { assert Spans(b, live'[b], x); }
    }
  }

  lemma CleanFreed(h: Memory, ring: seq<nat>, base: nat, live: map<nat, nat>, core: set<nat>, t: nat, bp: nat)
    requires Clean(h, base, live, core) && FitsAfter(h, ring, base, t, bp) && ring[t] in h && h[ring[t]].ptr in h
    ensures Clean(Freed(h, ring[t], bp), base, live - {bp}, core)
  {
    assert Freed(h, ring[t], bp).Keys == h.Keys;
  }

  lemma CleanGrown(h: Memory, ring: seq<nat>, base: nat, live: map<nat, nat>, core: set<nat>, a: nat, hd: Header)
    requires Clean(h, base, live, core) && Accounts(h, ring, base, live, core) && hd.size >= 1 && base + UNIT <= a
    requires Region(a, hd.size) !! core
    ensures a !in h && Clean(h[a := hd], base, live[a := hd.size], core + Region(a, hd.size))
  {
    var r, live' := h[a := hd], live[a := hd.size];
    forall x: nat | Spans(a, hd.size, x) ensures x in Region(a, hd.size) && x !in h {}
    assert Spans(a, hd.size, a);
    forall k, b, x: nat | k in r && b in live' && Payload(b, live'[b], x) ensures !Spans(k, 1, x) {
      if b != a && k == a {
        assert Spans(a, 1, x) ==> Spans(a, hd.size, x);
        assert Spans(b, live[b], x) && InLive(live, x);
      }
      if b == a && k != a { assert !Spans(a, hd.size, k); }
    }
  }

  class Allocator {
    const base: nat
    var mem: Memory
    var freep: nat

    ghost var ring: seq<nat>
    ghost var live: map<nat, nat>
    ghost var core: set<nat>

    /** Before the first malloc there is no list and no memory. */
    ghost predicate Valid()
      reads this
    {
      && base > 0
      && (freep == 0 ==> live == map[] && core == {} && ring == [])
      && (freep != 0 ==>
            && FreeList(mem, ring, base) && freep in ring
            && Accounts(mem, ring, base, live, core) && Clean(mem, base, live, core))
    }

    constructor (base: nat)
      requires base > 0
      ensures Valid() && this.base == base && freep == 0 && live == map[] && core == {}
    {
      this.base := base;
      mem, freep, ring, live, core := map[], 0, [], map[], {};
    }

    /** The search loop of free: the free block behind which bp belongs. */
    method FindPlace(bp: nat) returns (p: nat, ghost t: nat)
      requires Valid() && freep != 0 && bp in live
      ensures t < |ring| && p == ring[t] && FitsAfter(mem, ring, base, t, bp)
      ensures bp in mem && mem[bp].size == live[bp] && p in mem && p > 0
    {
      hide Accounts, Stops, Linked, Gaps, FitsAfter, Clean;
      NotFree(mem, ring, base, live, core, bp);
      LiveHeader(mem, ring, base, live, core, bp);
      ghost var place := PlaceExists(mem, ring, base, bp, |ring|);
      p := freep;
      ghost var k: nat :| k < |ring| && ring[k] == p;
      StopsAtPlace(mem, ring, base, bp, k);
      hide Sorted;
      while !Stops(mem, p, bp)
        invariant k < |ring| && p == ring[k] && p in mem
        invariant Stops(mem, p, bp) <==> IsPlace(ring, bp, k)
        decreases if k <= place then place - k else |ring| - k + place
      {
        StopsAtPlace(mem, ring, base, bp, k);
        p := mem[p].ptr;
        k := if k + 1 < |ring| then k + 1 else 0;
        StopsAtPlace(mem, ring, base, bp, k);
      }
      t := k;
      PlaceFits(mem, ring, base, live, core, t, bp);
      Positive(mem, ring, base, t);
    }

    /**
     * free. The freed bytes become free and nothing else changes hands; freep is the
     * block below, and the block that took the bytes in is that one or the next.
     */
    method Free(ap: nat) returns (ghost t: nat, ghost f: nat)
      requires Valid() && freep != 0 && ap >= UNIT && ap - UNIT in live
      modifies this
      ensures Valid() && freep != 0
      ensures live == old(live) - {ap - UNIT} && core == old(core)
      ensures t < |ring| && ring[t] == freep && (f == t || f == t + 1) && 1 <= f < |ring|
      ensures ring[f] in mem && mem[ring[f]].size >= old(live)[ap - UNIT] && freep < ap - UNIT
      ensures ring[f] <= ap - UNIT && ap - UNIT + UNIT * old(live)[ap - UNIT] <= End(mem, ring[f])
    {
      hide FreeList, Accounts, FitsAfter, Freed, RingFreed, Separate, Clean;
      var bp := ap - UNIT;
      var p;
      p, t := FindPlace(bp);
      f := if End(mem, p) == bp then t else t + 1;
      AccountsFreed(mem, ring, base, live, core, t, bp);
      FreedList(mem, ring, base, t, bp);
      CleanFreed(mem, ring, base, live, core, t, bp);
      FreedBlock(mem, ring, base, t, bp, f);
      FitsSeparate(mem, ring, base, t, bp);
      FitsBelow(mem, ring, base, t, bp);
      ring, live := RingFreed(mem, ring, t, bp), live - {bp};
      Splice(p, bp);
    }

    /**
     * morecore. The kernel's answer to sbrk is where the new memory starts, above base and
     * disjoint from all memory obtained before, or None when it refuses. It is what morecore takes it
     * for only if the size passes sbrk's int parameter unharmed.
     */
    method Morecore(nu: nat, answer: Option<nat>) returns (ok: bool, ghost t: nat, ghost f: nat)
      requires Valid() && freep != 0 && nu >= 1
      requires answer.Some? ==> base + UNIT <= answer.value && Region(answer.value, CoreUnits(nu)) !! core && Passes(nu)
      modifies this
      ensures Valid() && freep != 0 && live == old(live) && (ok <==> answer.Some?)
      ensures !ok ==> core == old(core) && mem == old(mem) && ring == old(ring) && freep == old(freep)
      ensures ok ==> core == old(core) + Region(answer.value, CoreUnits(nu))
      ensures ok ==> t < |ring| && ring[t] == freep && (f == t || f == t + 1) && 1 <= f < |ring|
      ensures ok ==> ring[f] in mem && mem[ring[f]].size >= nu
    {
      hide FreeList, Accounts, Clean;
      t, f := 0, 0;
      if answer.None? {
        return false, t, f;
      }
      var p, n := answer.value, CoreUnits(nu);
      var hd := Header(0, n);
      AccountsGrown(mem, ring, base, live, core, core + Region(p, n), p, hd);
      CleanGrown(mem, ring, base, live, core, p, hd);
      mem := mem[p := hd];
      live, core := live[p := n], core + Region(p, n);
      t, f := Free(p + UNIT);
      assert live == old(live);
      ok := true;
    }

    /** Hand out the whole k-th free block, or its last n units; the payload is the user's from then on. */
    method Take(prevp: nat, p: nat, n: nat, ghost k: nat) returns (ap: nat)
      requires Valid() && freep != 0 && 1 <= k < |ring| && ring[k - 1] == prevp && ring[k] == p
      requires prevp in mem && p in mem && 1 <= n <= mem[p].size
      modifies this
      ensures Valid() && freep != 0 && core == old(core)
      ensures ap >= UNIT && ap - UNIT !in old(live) && live == old(live)[ap - UNIT := n]
      ensures ap - UNIT == p + UNIT * (old(mem)[p].size - n) && freep == prevp
    {
      hide FreeList, Accounts, RingDrop, Clean, Handed;
      ghost var r, h := ring, mem;
      TakenWhole(mem, r, base, live, core, k);
      assert prevp in ring;
      var a := p + UNIT * (mem[p].size - n);
      freep, ap := prevp, a + UNIT;
      if mem[p].size == n {
        mem := mem[prevp := mem[prevp].(ptr := mem[p].ptr)];
        ring := RingDrop(r, k);
      } else {
        TakenPart(mem, r, base, live, core, k, n);
        mem := mem[p := mem[p].(size := mem[p].size - n)][a := Header(0, n)];
      }
      assert mem.Keys <= h.Keys + {a};
      CleanTaken(h, mem, ring, base, live, core, a, n);
      live := live[a := n];
      HandedKeeps(mem, ring, base, live, core, a);
      mem := Handed(mem, a, n);
    }

    /** malloc's first call: the circle of the empty base block alone. */
    method Init()
      requires Valid()
      modifies this`mem, this`freep, this`ring
      ensures Valid() && freep != 0
      ensures old(freep) != 0 ==> mem == old(mem) && freep == old(freep) && ring == old(ring)
      ensures old(freep) == 0 ==> ring == [base]
    {
      if freep == 0 {
        mem := map[base := Header(base, 0)];
        freep, ring := base, [base];
      }
    }

    /**
     * malloc: answer is what the kernel would say to sbrk. A block comes from the free
     * memory, at least as large as asked for and disjoint from every live block; None only
     * when no free block is large enough and the kernel refuses more. The kernel is asked only when no
     * free block is large enough. The walk that finds the block is over the list of h and walk, from
     * position start on: the free list as it was, or with what the kernel gave.
     */
    method Malloc(nbytes: nat, answer: Option<nat>)
      returns (r: Option<nat>, ghost h: Memory, ghost walk: seq<nat>, ghost start: nat)
      requires Valid() && nbytes < 0x1_0000_0000
      requires answer.Some? ==>
                 base + UNIT <= answer.value && Region(answer.value, CoreUnits(Units(nbytes))) !! core
      requires answer.Some? ==> AskFits(nbytes) || Larger(mem, ring, Units(nbytes))
      modifies this
      ensures Valid() && freep != 0
      ensures r.None? ==> live == old(live) && core == old(core) && answer.None?
      ensures r.None? ==> forall i | 0 <= i < |ring| :: ring[i] in mem && mem[ring[i]].size < Units(nbytes)
      ensures r.Some? ==>
                r.value >= UNIT && r.value - UNIT !in old(live) && live == old(live)[r.value - UNIT := Units(nbytes)]
      ensures core == old(core) || (answer.Some? && core == old(core) + Region(answer.value, CoreUnits(Units(nbytes))))
      ensures core != old(core) ==> !Larger(old(mem), old(ring), Units(nbytes))
      ensures core == old(core) && old(freep) != 0 ==>
                h == old(mem) && walk == old(ring) && start < |walk| && walk[start] == old(freep)
      ensures forall x: nat :: InFree(h, walk, x) <==> InFree(old(mem), old(ring), x) || (x in core && x !in old(core))
      ensures r.Some? ==> FirstFit(h, walk, start, Units(nbytes), r.value - UNIT, freep)
    {
      hide FreeList, Accounts, Region, Searching, Wrap, Steps, Clean, Passes, InFree, FirstFit, Larger;
      var n := Units(nbytes);
      AskFitsIff(nbytes);
      NoneFree(mem, ring);
      Init();
      NoneFree(mem, ring);
      NoneLarger(old(mem), old(ring), n);
      ghost var grown: bool, f: nat, s: nat := false, 0, 0;
      s :| s < |ring| && ring[s] == freep;
      ghost var k: nat := Wrap(s + 1, |ring|);
      SearchStarts(mem, ring, base, s, n, f, grown);
      var prevp := freep;
      var p := mem[prevp].ptr;
      while true
        invariant Valid() && freep != 0 && live == old(live)
        invariant s < |ring| && ring[s] == freep && k < |ring| && Searching(mem, ring, base, s, k, n, f, grown)
                  && Between(ring, k, prevp, p)
        invariant forall x: nat ::
                    InFree(mem, ring, x) <==> InFree(old(mem), old(ring), x) || (x in core && x !in old(core))
        invariant grown ==> !Larger(old(mem), old(ring), n) && core != old(core)
        invariant !grown && old(freep) != 0 ==> mem == old(mem) && ring == old(ring) && freep == old(freep)
        invariant if grown then answer.Some? && core == old(core) + Region(answer.value, CoreUnits(n))
                  else core == old(core)
        decreases !grown, |ring| - Steps(s, k, |ring|)
      {
        Listed(mem, ring, base, k);
        h, walk, start := mem, ring, s;
        if mem[p].size >= n {
          Found(mem, ring, base, s, k, n, f, grown);
          var ap := Take(prevp, p, n, k);
          r := Some(ap);
          return;
        }
        SearchGoesOn(mem, ring, base, s, k, n, f, grown);
        if p == freep {
          NoneLarger(mem, ring, n);
          var ok;
          ok, s, f := Morecore(n, answer);
          if !ok {
            r := None;
            return;
          }
          FreeGrown(h, walk, mem, ring, base, live, old(core), core);
          RegionSome(answer.value, CoreUnits(n));
          p, grown := freep, true;
          SearchStarts(mem, ring, base, s, n, f, grown);
          k := Wrap(s + 1, |ring|);
        } else {
          k := Wrap(k + 1, |ring|);
        }
        prevp := p;
        p := mem[p].ptr;
      }
    }

    /** The header writes of free. */
    method Splice(p: nat, bp: nat)
      requires Separate(mem, p, bp)
      modifies this`mem, this`freep
      ensures mem == Freed(old(mem), p, bp) && freep == p
    {
      var next := mem[p].ptr;
      if bp + UNIT * mem[bp].size == next {
        mem := mem[bp := Header(mem[next].ptr, mem[bp].size + mem[next].size)];
      } else {
        mem := mem[bp := mem[bp].(ptr := next)];
      }
      if p + UNIT * mem[p].size == bp {
        mem := mem[p := Header(mem[bp].ptr, mem[p].size + mem[bp].size)];
      } else {
        mem := mem[p := mem[p].(ptr := bp)];
      }
      freep := p;
    }
  }

  /** The freed block ends up at position t, when it joins the block below, or just behind it. */
  lemma FreedBlock(h: Memory, ring: seq<nat>, base: nat, t: nat, bp: nat, f: nat)
    requires FreeList(h, ring, base) && FitsAfter(h, ring, base, t, bp)
    requires f == if End(h, ring[t]) == bp then t else t + 1
    ensures ring[t] in h && h[ring[t]].ptr in h
    ensures var h', ring' := Freed(h, ring[t], bp), RingFreed(h, ring, t, bp);
            && 1 <= f < |ring'| && ring'[t] == ring[t] && ring'[f] in h' && h'[ring'[f]].size >= h[bp].size
            && ring'[f] <= bp && End(h, bp) <= End(h', ring'[f])
  {
    hide RingAbsorb, RingLink, InFree;
    Apart(h, ring, base);
    var two, r := JoinUp(h, ring, base, t, bp);
    LinkKeeps(h, ring, base, t, bp, t);
    if f == t {
      RingAbsorbAt(r, t, t);
    }
  }

  /** The block, the free block below it and the one above are told apart. */
  ghost predicate Separate(h: Memory, p: nat, bp: nat) {
    && p in h && bp in h && p != bp && h[p].ptr in h && h[p].ptr != bp
    && (End(h, bp) == h[p].ptr ==> h[p].ptr != p)
    && (End(h, p) == bp ==> p < bp)
  }

  lemma FitsBelow(h: Memory, ring: seq<nat>, base: nat, t: nat, bp: nat)
    requires FitsAfter(h, ring, base, t, bp)
    ensures ring[t] < bp
  {
  }

  lemma FitsSeparate(h: Memory, ring: seq<nat>, base: nat, t: nat, bp: nat)
    requires FreeList(h, ring, base) && FitsAfter(h, ring, base, t, bp)
    ensures Separate(h, ring[t], bp)
  {
    LinkKeeps(h, ring, base, t, bp, t);
    Apart(h, ring, base);
    if t + 1 < |ring| { LinkKeeps(h, ring, base, t, bp, t + 1); }
  }

  lemma LiveHeader(h: Memory, ring: seq<nat>, base: nat, live: map<nat, nat>, core: set<nat>, bp: nat)
    requires Accounts(h, ring, base, live, core) && bp in live
    ensures bp in h && h[bp].size == live[bp]
  {
  }

  /** A live block is not on the free list. */
  lemma NotFree(h: Memory, ring: seq<nat>, base: nat, live: map<nat, nat>, core: set<nat>, bp: nat)
    requires FreeList(h, ring, base) && Accounts(h, ring, base, live, core) && bp in live
    ensures bp !in ring && base < bp
  {
    assert Spans(bp, live[bp], bp) && InLive(live, bp);
    if i :| 0 <= i < |ring| && ring[i] == bp {
      assert i > 0 && Spans(ring[i], h[ring[i]].size, bp) && InFree(h, ring, bp);
    }
  }

  /** malloc's unit count: the bytes rounded up, and one unit for the header. */
  function Units(nbytes: nat): (n: nat)
    ensures n >= 1 && nbytes + UNIT <= UNIT * n < nbytes + 2 * UNIT
  {
    (nbytes + UNIT - 1) / UNIT + 1
  }

  /** The free list without its k-th block. */
  ghost function RingDrop(ring: seq<nat>, k: nat): (r: seq<nat>)
    requires 1 <= k < |ring|
  {
    ring[..k] + ring[k + 1..]
  }

  lemma RingDropAt(ring: seq<nat>, k: nat, i: nat)
    requires 1 <= k < |ring| && i < |ring| - 1
    ensures |RingDrop(ring, k)| == |ring| - 1
    ensures RingDrop(ring, k)[i] == if i < k then ring[i] else ring[i + 1]
  {
  }

  /** Position i of a circle of n, counted on past the end. */
  function Wrap(i: nat, n: nat): (k: nat)
    requires i < 2 * n
    ensures k < n
  {
    if i < n then i else i - n
  }

  lemma Turn(h: Memory, ring: seq<nat>, base: nat, k: nat)
    requires FreeList(h, ring, base) && k < |ring|
    ensures ring[k] in h && h[ring[k]].ptr == ring[Wrap(k + 1, |ring|)]
  {
  }

  lemma Listed(h: Memory, ring: seq<nat>, base: nat, k: nat)
    requires FreeList(h, ring, base) && k < |ring|
    ensures ring[k] in h && (k == 0 <==> h[ring[k]].size == 0)
    ensures k > 0 ==> ring[k - 1] in h
  {
  }

  /** How many blocks a walk that starts behind position s passes before it comes to i. */
  function Steps(s: nat, i: nat, n: nat): (d: nat)
    requires s < n && i < n
    ensures d < n
  {
    if i > s then i - s - 1 else n - s - 1 + i
  }

  lemma StepsOnce(s: nat, k: nat, n: nat)
    requires s < n && k < n
    ensures 0 <= Steps(s, k, n) < n && Steps(s, Wrap(s + 1, n), n) == 0
    ensures k != s ==> Steps(s, Wrap(k + 1, n), n) == Steps(s, k, n) + 1
  {
  }

  /** A walk that starts behind s comes first to the next block and last to s itself. */
  lemma StepsWithin(s: nat, k: nat, f: nat, n: nat)
    requires s < n && k < n && f < n && Steps(s, k, n) <= Steps(s, f, n) && k != f
    ensures k != s && Steps(s, Wrap(k + 1, n), n) <= Steps(s, f, n)
  {
  }

  /** The first d blocks of a walk that starts behind position s are too small. */
  ghost predicate Tried(h: Memory, ring: seq<nat>, s: nat, d: nat, n: nat)
    requires s < |ring|
  {
    forall i | 0 <= i < |ring| && Steps(s, i, |ring|) < d :: ring[i] in h && h[ring[i]].size < n
  }

  lemma TriedNone(h: Memory, ring: seq<nat>, s: nat, n: nat)
    requires s < |ring|
    ensures Tried(h, ring, s, Steps(s, Wrap(s + 1, |ring|), |ring|), n)
  {
  }

  lemma TriedNext(h: Memory, ring: seq<nat>, base: nat, s: nat, k: nat, n: nat)
    requires FreeList(h, ring, base) && s < |ring| && k < |ring| && k != s && Tried(h, ring, s, Steps(s, k, |ring|), n)
    requires ring[k] in h && h[ring[k]].size < n
    ensures Tried(h, ring, s, Steps(s, Wrap(k + 1, |ring|), |ring|), n)
  {
  }

  lemma TriedAll(h: Memory, ring: seq<nat>, base: nat, s: nat, n: nat)
    requires FreeList(h, ring, base) && s < |ring| && Tried(h, ring, s, Steps(s, s, |ring|), n)
    requires ring[s] in h && h[ring[s]].size < n
    ensures forall i | 0 <= i < |ring| :: ring[i] in h && h[ring[i]].size < n
  {
  }

  lemma SameBlock(h: Memory, ring: seq<nat>, base: nat, s: nat, k: nat)
    requires FreeList(h, ring, base) && s < |ring| && k < |ring|
    ensures ring[k] == ring[s] <==> k == s
  {
    Apart(h, ring, base);
  }

  /** prevp and p are neighbours of the circle, p at position k. */
  ghost predicate Between(ring: seq<nat>, k: nat, prevp: nat, p: nat)
    requires k < |ring|
  {
    ring[k] == p && prevp == ring[if k == 0 then |ring| - 1 else k - 1]
  }

  /**
   * malloc's search has come to position k: before morecore all blocks it has passed are too small, afterwards
   * the block at f is large enough and still ahead.
   */
  ghost predicate Searching(h: Memory, ring: seq<nat>, base: nat, s: nat, k: nat, n: nat, f: nat, grown: bool) {
    && FreeList(h, ring, base) && s < |ring| && k < |ring| && Tried(h, ring, s, Steps(s, k, |ring|), n)
    && (grown ==> f < |ring| && ring[f] in h && h[ring[f]].size >= n && Steps(s, k, |ring|) <= Steps(s, f, |ring|))
  }

  /**
   * The block at a is the last n units of the first block large enough on a walk that starts behind position s, and
   * prev is the block before that one.
   */
  ghost predicate FirstFit(h: Memory, ring: seq<nat>, s: nat, n: nat, a: nat, prev: nat) {
    s < |ring| && exists k :: FitsAt(h, ring, s, n, a, prev, k)
  }

  ghost predicate FitsAt(h: Memory, ring: seq<nat>, s: nat, n: nat, a: nat, prev: nat, k: nat)
    requires s < |ring|
  {
    && 1 <= k < |ring| && ring[k] in h && h[ring[k]].size >= n && Tried(h, ring, s, Steps(s, k, |ring|), n)
    && a == ring[k] + UNIT * (h[ring[k]].size - n) && prev == ring[k - 1]
  }

  lemma Found(h: Memory, ring: seq<nat>, base: nat, s: nat, k: nat, n: nat, f: nat, grown: bool)
    requires Searching(h, ring, base, s, k, n, f, grown) && 1 <= k && ring[k] in h && h[ring[k]].size >= n
    ensures FirstFit(h, ring, s, n, ring[k] + UNIT * (h[ring[k]].size - n), ring[k - 1])
  {
    hide Tried, Steps, FreeList;
    assert FitsAt(h, ring, s, n, ring[k] + UNIT * (h[ring[k]].size - n), ring[k - 1], k);
  }

  /** A list of the base block alone has no free byte. */
  lemma NoneFree(h: Memory, ring: seq<nat>)
    ensures |ring| <= 1 ==> forall x: nat :: !InFree(h, ring, x)
  {
  }

  lemma NoneLarger(h: Memory, ring: seq<nat>, n: nat)
    ensures Larger(h, ring, n) ==> ring != []
    ensures (forall i | 0 <= i < |ring| :: ring[i] in h && h[ring[i]].size < n) ==> !Larger(h, ring, n)
  {
  }

  lemma RegionSome(a: nat, n: nat)
    requires n >= 1
    ensures a in Region(a, n)
  {
  }

  /** With the live blocks as they were, the bytes that are new are free. */
  lemma FreeGrown(h: Memory, ring: seq<nat>, h': Memory, ring': seq<nat>, base: nat, live: map<nat, nat>,
                  core: set<nat>, core': set<nat>)
    requires Accounts(h, ring, base, live, core) && Accounts(h', ring', base, live, core') && core <= core'
    ensures forall x: nat :: InFree(h', ring', x) <==> InFree(h, ring, x) || (x in core' && x !in core)
  {
    hide InFree, InLive;
  }

  lemma SearchStarts(h: Memory, ring: seq<nat>, base: nat, s: nat, n: nat, f: nat, grown: bool)
    requires FreeList(h, ring, base) && s < |ring| && (grown ==> f < |ring| && ring[f] in h && h[ring[f]].size >= n)
    ensures var k := Wrap(s + 1, |ring|);
            && Searching(h, ring, base, s, k, n, f, grown) && ring[s] in h && Between(ring, k, ring[s], h[ring[s]].ptr)
  {
    hide FreeList;
    TriedNone(h, ring, s, n);
    Turn(h, ring, base, s);
    if grown { StepsOnce(s, f, |ring|); }
  }

  /** A block that is too small: the search goes on, or it has been all around and none is large enough. */
  lemma SearchGoesOn(h: Memory, ring: seq<nat>, base: nat, s: nat, k: nat, n: nat, f: nat, grown: bool)
    requires Searching(h, ring, base, s, k, n, f, grown) && ring[k] in h && h[ring[k]].size < n
    ensures ring[k] == ring[s] ==> !grown && forall i | 0 <= i < |ring| :: ring[i] in h && h[ring[i]].size < n
    ensures ring[k] != ring[s] ==>
            var k1 := Wrap(k + 1, |ring|);
            && Searching(h, ring, base, s, k1, n, f, grown) && Between(ring, k1, ring[k], h[ring[k]].ptr)
            && Steps(s, k, |ring|) < Steps(s, k1, |ring|) < |ring|
  {
    hide FreeList, Tried, Steps;
    SameBlock(h, ring, base, s, k);
    StepsOnce(s, k, |ring|);
    Turn(h, ring, base, k);
    if grown { StepsWithin(s, k, f, |ring|); }
    if k == s {
      TriedAll(h, ring, base, s, n);
    } else {
      TriedNext(h, ring, base, s, k, n);
    }
  }

  /** The request for a block of this many bytes reaches sbrk's int parameter unharmed. */
  predicate AskFits(nbytes: nat) {
    nbytes <= 0x7FFF_FFE0
  }

  /** What morecore asks sbrk for is what it counts as obtained. */
  predicate Passes(nu: nat) {
    ToInt(UNIT * CoreUnits(nu)) == UNIT * CoreUnits(nu)
  }

  /** Some free block has at least n units. */
  ghost predicate Larger(h: Memory, ring: seq<nat>, n: nat) {
    exists i :: 0 <= i < |ring| && ring[i] in h && h[ring[i]].size >= n
  }

  /** The bytes of n units at a. */
  ghost function Region(a: nat, n: nat): (r: set<nat>) {
    set x: nat | a <= x < a + UNIT * n && Spans(a, n, x)
  }

  /** morecore asks for at least 4096 units. */
  function CoreUnits(nu: nat): (n: nat) {
    if nu < 4096 then 4096 else nu
  }

  /** The headers after malloc has taken the whole k-th free block. */
  function Unlink(h: Memory, prev: nat, p: nat): (r: Memory)
    requires prev in h && p in h
  {
    h[prev := h[prev].(ptr := h[p].ptr)]
  }

  lemma DropPair(h: Memory, ring: seq<nat>, base: nat, k: nat, i: nat, j: nat)
    requires FreeList(h, ring, base) && 1 <= k < |ring| && i < j < |ring| - 1
    ensures |RingDrop(ring, k)| == |ring| - 1
    ensures var h', r := Unlink(h, ring[k - 1], ring[k]), RingDrop(ring, k);
            && r[i] in h' && (j == i + 1 ==> h'[r[i]].ptr == r[j] && End(h', r[i]) != r[j])
            && (i > 0 ==> End(h', r[i]) <= r[j])
  {
    hide RingDrop;
    Apart(h, ring, base);
    RingDropAt(ring, k, i);
    RingDropAt(ring, k, j);
    if i == k - 1 && i > 0 { assert End(h, ring[i]) <= ring[k]; }
  }

  lemma DropOne(h: Memory, ring: seq<nat>, base: nat, k: nat, i: nat)
    requires FreeList(h, ring, base) && 1 <= k < |ring| && i < |ring| - 1
    ensures |RingDrop(ring, k)| == |ring| - 1
    ensures var h', r := Unlink(h, ring[k - 1], ring[k]), RingDrop(ring, k);
            && r[i] in h' && (i > 0 ==> base + UNIT <= r[i] && h'[r[i]].size >= 1)
            && (i == 0 ==> r[i] == base && h'[r[i]].size == 0)
            && (i == |ring| - 2 ==> h'[r[i]].ptr == base)
  {
    hide RingDrop;
    Apart(h, ring, base);
    RingDropAt(ring, k, i);
  }

  /** Taking a whole free block keeps the list in order. */
  lemma DropList(h: Memory, ring: seq<nat>, base: nat, k: nat)
    requires FreeList(h, ring, base) && 1 <= k < |ring|
    ensures FreeList(Unlink(h, ring[k - 1], ring[k]), RingDrop(ring, k), base)
    ensures ring[k - 1] in RingDrop(ring, k)
  {
    hide RingDrop, Unlink;
    DropOne(h, ring, base, k, 0);
    DropOne(h, ring, base, k, |ring| - 2);
    RingDropAt(ring, k, k - 1);
    var h', r := Unlink(h, ring[k - 1], ring[k]), RingDrop(ring, k);
    assert r[k - 1] == ring[k - 1];
    forall i | 0 <= i < |r| ensures r[i] in h' && (i > 0 ==> base + UNIT <= r[i] && h'[r[i]].size >= 1) {
      DropOne(h, ring, base, k, i);
    }
    forall i, j | 0 <= i < j < |r|
      ensures (j == i + 1 ==> h'[r[i]].ptr == r[j] && End(h', r[i]) != r[j]) && (i > 0 ==> End(h', r[i]) <= r[j])
    {
      DropPair(h, ring, base, k, i, j);
    }
  }

  /** Taking a whole free block takes exactly its bytes off the free ones. */
  lemma DropBytes(h: Memory, ring: seq<nat>, base: nat, k: nat, x: nat)
    requires FreeList(h, ring, base) && 1 <= k < |ring|
    ensures InFree(Unlink(h, ring[k - 1], ring[k]), RingDrop(ring, k), x) <==>
            InFree(h, ring, x) && !Spans(ring[k], h[ring[k]].size, x)
  {
    hide RingDrop;
    Apart(h, ring, base);
    var h', r := Unlink(h, ring[k - 1], ring[k]), RingDrop(ring, k);
    RingDropAt(ring, k, 0);
    if i :| 1 <= i < |r| && r[i] in h' && Spans(r[i], h'[r[i]].size, x) {
      RingDropAt(ring, k, i);
      var j := if i < k then i else i + 1;
      assert Spans(ring[j], h[ring[j]].size, x);
    }
    if i :| 1 <= i < |ring| && ring[i] in h && Spans(ring[i], h[ring[i]].size, x) {
      if i != k {
        var j := if i < k then i else i - 1;
        RingDropAt(ring, k, j);
        assert Spans(r[j], h'[r[j]].size, x);
      }
    }
  }

  /** The headers after malloc has cut n units off the end of the block at p. */
  function Cut(h: Memory, p: nat, n: nat): (r: Memory)
    requires p in h && n < h[p].size
  {
    var rest := h[p].size - n;
    h[p := h[p].(size := rest)][p + UNIT * rest := Header(0, n)]
  }

  /** Cutting shortens the k-th block and leaves every other listed header alone. */
  lemma CutKeeps(h: Memory, ring: seq<nat>, base: nat, k: nat, n: nat, i: nat)
    requires FreeList(h, ring, base) && 1 <= k < |ring| && 1 <= n < h[ring[k]].size && i < |ring|
    ensures ring[i] != ring[k] + UNIT * (h[ring[k]].size - n)
    ensures var h' := Cut(h, ring[k], n);
            ring[i] in h' && h'[ring[i]] == if i == k then h[ring[i]].(size := h[ring[k]].size - n) else h[ring[i]]
  {
    Apart(h, ring, base);
    if i > k { assert End(h, ring[k]) <= ring[i]; }
  }

  /** Cutting the end off a free block keeps the list in order. */
  lemma CutList(h: Memory, ring: seq<nat>, base: nat, k: nat, n: nat)
    requires FreeList(h, ring, base) && 1 <= k < |ring| && 1 <= n < h[ring[k]].size
    ensures FreeList(Cut(h, ring[k], n), ring, base)
  {
    var h' := Cut(h, ring[k], n);
    hide Cut;
    CutKeeps(h, ring, base, k, n, 0);
    CutKeeps(h, ring, base, k, n, |ring| - 1);
    forall i | 0 <= i < |ring| ensures ring[i] in h' && (i > 0 ==> base + UNIT <= ring[i] && h'[ring[i]].size >= 1) {
      CutKeeps(h, ring, base, k, n, i);
    }
    forall i, j | 0 <= i < j < |ring|
      ensures (j == i + 1 ==> h'[ring[i]].ptr == ring[j] && End(h', ring[i]) != ring[j])
      ensures (i > 0 ==> End(h', ring[i]) <= ring[j])
    {
      CutKeeps(h, ring, base, k, n, i);
      if i > 0 { assert End(h, ring[i]) <= ring[j]; }
    }
  }

  lemma CutBytes(h: Memory, ring: seq<nat>, base: nat, k: nat, n: nat, x: nat)
    requires FreeList(h, ring, base) && 1 <= k < |ring| && 1 <= n < h[ring[k]].size
    ensures InFree(Cut(h, ring[k], n), ring, x) <==>
            InFree(h, ring, x) && !Spans(ring[k] + UNIT * (h[ring[k]].size - n), n, x)
  {
    Apart(h, ring, base);
    var a, h' := ring[k] + UNIT * (h[ring[k]].size - n), Cut(h, ring[k], n);
    forall i | 0 <= i < |ring| ensures ring[i] != a && (i > k ==> a + UNIT * n <= ring[i]) {
      if i > k { assert End(h, ring[k]) <= ring[i]; }
    }
    if i :| 1 <= i < |ring| && ring[i] in h' && Spans(ring[i], h'[ring[i]].size, x) {
      assert Spans(ring[i], h[ring[i]].size, x);
      if i < k { assert End(h, ring[i]) <= ring[k]; }
    }
    if i :| 1 <= i < |ring| && ring[i] in h && Spans(ring[i], h[ring[i]].size, x) {
      if !Spans(a, n, x) { assert Spans(ring[i], h'[ring[i]].size, x); }
    }
  }

  /** Handing out free bytes as a new live block keeps the accounts. */
  lemma AccountsTaken(h: Memory, h': Memory, ring: seq<nat>, ring': seq<nat>, base: nat,
                      live: map<nat, nat>, core: set<nat>, a: nat, n: nat)
    requires Accounts(h, ring, base, live, core) && a in h' && h'[a].size == n >= 1 && base + UNIT <= a
    requires forall b | b in live :: b in h' && h'[b].size == h[b].size
    requires forall x: nat | Spans(a, n, x) :: InFree(h, ring, x)
    requires forall x: nat :: InFree(h', ring', x) <==> InFree(h, ring, x) && !Spans(a, n, x)
    ensures a !in live && Accounts(h', ring', base, live[a := n], core)
  {
    assert Spans(a, n, a);
    LiveByte(live, a);
    forall x: nat ensures InLive(live[a := n], x) <==> InLive(live, x) || Spans(a, n, x) {
      LiveWith(live, a, n, x);
    }
    forall b, x: nat | b in live && Spans(b, live[b], x) ensures !Spans(a, n, x) {
      assert InLive(live, x);
    }
  }

  lemma LiveByte(live: map<nat, nat>, a: nat)
    ensures a in live && live[a] >= 1 ==> InLive(live, a)
  {
    if a in live && live[a] >= 1 {
      assert Spans(a, live[a], a);
    }
  }

  lemma LiveWith(live: map<nat, nat>, a: nat, n: nat, x: nat)
    requires a !in live
    ensures InLive(live[a := n], x) <==> InLive(live, x) || Spans(a, n, x)
  {
    var live' := live[a := n];
    if b :| b in live && Spans(b, live[b], x) {
      assert b in live' && Spans(b, live'[b], x);
    }
    if Spans(a, n, x) {
      assert a in live' && Spans(a, live'[a], x);
    }
  }

  lemma FreeByte(h: Memory, ring: seq<nat>, base: nat, a: nat)
    requires Sorted(h, ring, base) && a != base && a in ring
    ensures InFree(h, ring, a)
  {
    var i :| 0 <= i < |ring| && ring[i] == a;
    assert Spans(ring[i], h[ring[i]].size, a);
  }

  /** A header written outside the list does not touch the list. */
  lemma FrameList(h: Memory, ring: seq<nat>, base: nat, a: nat, hd: Header)
    requires FreeList(h, ring, base) && a !in ring
    ensures FreeList(h[a := hd], ring, base)
    ensures forall x: nat :: InFree(h[a := hd], ring, x) <==> InFree(h, ring, x)
  {
    var h' := h[a := hd];
    assert forall i | 0 <= i < |ring| :: h'[ring[i]] == h[ring[i]];
  }

  /** Memory new from the kernel becomes a live block. */
  lemma AccountsGrown(h: Memory, ring: seq<nat>, base: nat, live: map<nat, nat>, core: set<nat>, core': set<nat>,
                      a: nat, hd: Header)
    requires FreeList(h, ring, base) && Accounts(h, ring, base, live, core) && hd.size >= 1 && base + UNIT <= a
    requires forall x: nat | Spans(a, hd.size, x) :: x !in core
    requires forall x: nat :: x in core' <==> x in core || Spans(a, hd.size, x)
    ensures a !in live && FreeList(h[a := hd], ring, base)
    ensures Accounts(h[a := hd], ring, base, live[a := hd.size], core')
  {
    assert Spans(a, hd.size, a);
    LiveByte(live, a);
    if a in ring { FreeByte(h, ring, base, a); }
    FrameList(h, ring, base, a, hd);
    hide FreeList, InFree;
    forall x: nat ensures InLive(live[a := hd.size], x) <==> InLive(live, x) || Spans(a, hd.size, x) {
      LiveWith(live, a, hd.size, x);
    }
    forall b, x: nat | b in live && Spans(b, live[b], x) ensures !Spans(a, hd.size, x) {
      assert InLive(live, x);
    }
    var h', live' := h[a := hd], live[a := hd.size];
    assert forall b | b in live' :: b in h' && h'[b].size == live'[b] && live'[b] >= 1 && base + UNIT <= b;
    assert forall b, c, x: nat | b in live' && c in live' && b != c && Spans(b, live'[b], x) :: !Spans(c, live'[c], x);
    assert forall x: nat | InFree(h', ring, x) :: !InLive(live', x);
    assert forall x: nat :: x in core' <==> InFree(h', ring, x) || InLive(live', x);
  }

  lemma InBlock(h: Memory, ring: seq<nat>, base: nat, k: nat, a: nat, n: nat)
    requires Sorted(h, ring, base) && 1 <= k < |ring| && ring[k] <= a && a + UNIT * n <= End(h, ring[k])
    ensures forall x: nat | Spans(a, n, x) :: InFree(h, ring, x)
  {
    forall x: nat | Spans(a, n, x) ensures InFree(h, ring, x) {
      assert Spans(ring[k], h[ring[k]].size, x);
    }
  }

  /** A live header is not written by taking from the k-th free block. */
  lemma LiveElsewhere(h: Memory, ring: seq<nat>, base: nat, live: map<nat, nat>, core: set<nat>, k: nat, b: nat)
    requires FreeList(h, ring, base) && Accounts(h, ring, base, live, core) && b in live && k < |ring|
    ensures b != ring[k] && (k > 0 ==> !Spans(ring[k], h[ring[k]].size, b))
  {
    NotFree(h, ring, base, live, core, b);
    LiveByte(live, b);
    if k > 0 && Spans(ring[k], h[ring[k]].size, b) { assert InFree(h, ring, b); }
  }

  lemma TakenWhole(h: Memory, ring: seq<nat>, base: nat, live: map<nat, nat>, core: set<nat>, k: nat)
    requires FreeList(h, ring, base) && Accounts(h, ring, base, live, core) && 1 <= k < |ring|
    ensures var h', ring', n := Unlink(h, ring[k - 1], ring[k]), RingDrop(ring, k), h[ring[k]].size;
            && FreeList(h', ring', base) && ring[k - 1] in ring' && ring[k - 1] > 0 && ring[k] !in live
            && Accounts(h', ring', base, live[ring[k] := n], core)
  {
    DropList(h, ring, base, k);
    var h', ring', n := Unlink(h, ring[k - 1], ring[k]), RingDrop(ring, k), h[ring[k]].size;
    hide RingDrop;
    InBlock(h, ring, base, k, ring[k], n);
    forall x: nat ensures InFree(h', ring', x) <==> InFree(h, ring, x) && !Spans(ring[k], n, x) {
      DropBytes(h, ring, base, k, x);
    }
    AccountsTaken(h, h', ring, ring', base, live, core, ring[k], n);
  }

  lemma TakenPart(h: Memory, ring: seq<nat>, base: nat, live: map<nat, nat>, core: set<nat>, k: nat, n: nat)
    requires FreeList(h, ring, base) && Accounts(h, ring, base, live, core)
    requires 1 <= k < |ring| && 1 <= n < h[ring[k]].size
    ensures var h', a := Cut(h, ring[k], n), ring[k] + UNIT * (h[ring[k]].size - n);
            FreeList(h', ring, base) && a !in live && Accounts(h', ring, base, live[a := n], core)
  {
    CutList(h, ring, base, k, n);
    var h', a := Cut(h, ring[k], n), ring[k] + UNIT * (h[ring[k]].size - n);
    InBlock(h, ring, base, k, a, n);
    forall x: nat ensures InFree(h', ring, x) <==> InFree(h, ring, x) && !Spans(a, n, x) {
      CutBytes(h, ring, base, k, n, x);
    }
    forall b | b in live ensures b in h' && h'[b].size == h[b].size {
      LiveElsewhere(h, ring, base, live, core, k, b);
    }
    hide InFree, FreeList;
    AccountsTaken(h, h', ring, ring, base, live, core, a, n);
  }

  /** The conversion of a size to sbrk's int parameter. */
  function ToInt(x: nat): (r: int) {
    var m := x % 0x1_0000_0000;
    if m < 0x8000_0000 then m else m - 0x1_0000_0000
  }

  /**
   * morecore asks sbrk for the bytes it will count as obtained exactly when the request
   * is at most 0x7fffffe0 bytes; above that the int parameter gets another number.
   */
  lemma AskFitsIff(nbytes: nat)
    requires nbytes < 0x1_0000_0000
    ensures Passes(Units(nbytes)) <==> AskFits(nbytes)
  {
  }

  /** A request for 4294967295 bytes asks the kernel for 16 and counts 268435457 units. */
  lemma AskFails()
    ensures var nbytes := 0xFFFF_FFFF;
            ToInt(UNIT * CoreUnits(Units(nbytes))) == 16 && CoreUnits(Units(nbytes)) == 268435457 && !AskFits(nbytes)
  {
  }
}
