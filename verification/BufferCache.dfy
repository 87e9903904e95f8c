/**
 * The block buffer cache: a fixed array of buffers threaded on a doubly linked
 * list from most to least recently used, in front of one disk.
 */
module BufferCache {
  import opened Basics
  import opened Blocks
  import opened Counting
  import opened Params

  /** Index of the list head, which holds no block. */
  const HEAD := NBUF

  type Disk = seq<Block>

  datatype Buf = Buf(valid: bool, dev: nat, blockno: nat, locked: bool, refcnt: nat,
                     prev: nat, next: nat, data: Block)

  /** The list as the pointers thread it: the head, the buffers in order, the head again. */
  ghost function Ring(order: seq<nat>): (r: seq<nat>) {
    [HEAD] + order + [HEAD]
  }

  /** next and prev thread the buffers in the given order, in both directions. */
  ghost predicate Threaded(buf: seq<Buf>, order: seq<nat>) {
    && |buf| == NBUF + 1
    && Distinct(order) && (forall i | 0 <= i < |order| :: order[i] < NBUF)
    && var r := Ring(order);
       forall i | 0 <= i <= |order| :: buf[r[i]].next == r[i + 1] && buf[r[i + 1]].prev == r[i]
  }

  /** At most one buffer holds a given block of a real device (device 0 marks a buffer never used). */
  ghost predicate Unique(buf: seq<Buf>)
    requires |buf| == NBUF + 1
  {
    forall i, j | 0 <= i < j < NBUF ::
      buf[i].dev == 0 || buf[i].dev != buf[j].dev || buf[i].blockno != buf[j].blockno
  }

  /** A buffer without its place in the list. */
  function Core(b: Buf): (c: Buf) {
    b.(prev := 0, next := 0)
  }

  /** The buffers are the same up to list order, except possibly those in the set. */
  ghost predicate SameCores(x: seq<Buf>, y: seq<Buf>, except: set<nat>) {
    && |x| == |y| == NBUF + 1
    && forall i | 0 <= i < NBUF && i !in except :: Core(x[i]) == Core(y[i])
  }

  predicate Holds(b: Buf, dev: nat, blockno: nat) {
    b.dev == dev && b.blockno == blockno
  }

  /** order with the buffer at position p moved to the front. */
  ghost function MovedToFront(order: seq<nat>, p: nat): (r: seq<nat>)
    requires p < |order|
  {
    [order[p]] + (order[..p] + order[p + 1..])
  }

  lemma MovedToFrontKeeps(order: seq<nat>, p: nat)
    requires p < |order|
    ensures |MovedToFront(order, p)| == |order|
    ensures forall b | b in order :: b in MovedToFront(order, p)
  {
    forall b | b in order ensures b in MovedToFront(order, p) {
      var i :| 0 <= i < |order| && order[i] == b;
      assert MovedToFront(order, p)[if i < p then i + 1 else if i == p then 0 else i] == b;
    }
  }

  /** Writing the neighbours' pointers takes a buffer out of the list. */
  lemma Unlinked(buf: seq<Buf>, order: seq<nat>, p: nat, after: seq<Buf>)
    requires Threaded(buf, order) && p < |order|
    requires var b := buf[order[p]];
             b.next <= HEAD && b.prev <= HEAD &&
             var mid := buf[b.next := buf[b.next].(prev := b.prev)];
             after == mid[b.prev := mid[b.prev].(next := b.next)]
    ensures Threaded(after, order[..p] + order[p + 1..])
  {
    var rest := order[..p] + order[p + 1..];
    var r, s := Ring(order), Ring(rest);
    assert r[p + 1] == order[p];
    assert buf[r[p]].next == r[p + 1] && buf[r[p + 1]].next == r[p + 2] && buf[r[p + 1]].prev == r[p];
    forall i | 0 <= i <= |rest|
      ensures after[s[i]].next == s[i + 1] && after[s[i + 1]].prev == s[i]
    {
      if i < p {
        assert s[i] == r[i] && s[i + 1] == r[i + 1];
        assert buf[r[i]].next == r[i + 1];
      } else if i > p {
        assert s[i] == r[i + 1] && s[i + 1] == r[i + 2];
        assert buf[r[i + 1]].next == r[i + 2];
      } else {
        assert s[i] == r[p] && s[i + 1] == r[p + 2];
      }
    }
  }

  /** Inserting behind the head puts a buffer first in the list. */
  lemma Pushed(buf: seq<Buf>, order: seq<nat>, b: nat, after: seq<Buf>)
    requires Threaded(buf, order) && b < NBUF && b !in order && buf[HEAD].next <= HEAD
    requires var first := buf[HEAD].next;
             var one := buf[b := buf[b].(next := first, prev := HEAD)];
             var two := one[first := one[first].(prev := b)];
             after == two[HEAD := two[HEAD].(next := b)]
    ensures Threaded(after, [b] + order)
  {
    var r, s := Ring(order), Ring([b] + order);
    assert r[0] == HEAD && r[1] == buf[HEAD].next;
    forall i | 0 <= i <= |order| + 1
      ensures after[s[i]].next == s[i + 1] && after[s[i + 1]].prev == s[i]
    {
      if i >= 1 {
        assert s[i + 1] == r[i];
        if i >= 2 {
          assert s[i] == r[i - 1];
          assert buf[r[i - 1]].next == r[i] && buf[r[i]].prev == r[i - 1];
        }
      }
    }
  }

  /** A buffer on the list sits between the neighbours its pointers name. */
  lemma Neighbours(buf: seq<Buf>, order: seq<nat>, p: nat)
    requires Threaded(buf, order) && p < |order|
    ensures buf[order[p]].next == (if p + 1 < |order| then order[p + 1] else HEAD)
    ensures buf[order[p]].prev == (if p > 0 then order[p - 1] else HEAD)
    ensures buf[HEAD].next == order[0] && buf[HEAD].prev == order[|order| - 1]
  {
    var r := Ring(order);
    assert r[p + 1] == order[p] && r[0] == HEAD && r[1] == order[0];
    assert r[|order|] == order[|order| - 1] && r[|order| + 1] == HEAD;
    assert buf[r[p]].next == r[p + 1] && buf[r[p + 1]].next == r[p + 2];
    assert buf[r[0]].next == r[1] && buf[r[|order|]].next == r[|order| + 1];
  }

  lemma EmptyList(buf: seq<Buf>)
    requires |buf| == NBUF + 1 && buf[HEAD].next == buf[HEAD].prev == HEAD
    ensures Threaded(buf, [])
  {
  }

  lemma FirstInList(buf: seq<Buf>, order: seq<nat>)
    requires Threaded(buf, order)
    ensures |buf| == NBUF + 1 && buf[HEAD].next <= HEAD && buf[HEAD].next == if order == [] then HEAD else order[0]
  {
    var r := Ring(order);
    assert r[0] == HEAD && r[1] == (if order == [] then HEAD else order[0]) && buf[r[0]].next == r[1];
  }

  /** Only next and prev decide how the list is threaded. */
  lemma Relabelled(buf: seq<Buf>, order: seq<nat>, after: seq<Buf>)
    requires Threaded(buf, order) && |after| == NBUF + 1
    requires forall i | 0 <= i <= NBUF :: after[i].next == buf[i].next && after[i].prev == buf[i].prev
    ensures Threaded(after, order)
  {
  }

  /** Uniqueness and the lock discipline do not depend on the list. */
  lemma CoresDecide(x: seq<Buf>, y: seq<Buf>)
    requires SameCores(y, x, {}) && Unique(x)
    ensures Unique(y)
    ensures (forall i | 0 <= i < NBUF && x[i].locked :: x[i].refcnt >= 1) ==>
            forall i | 0 <= i < NBUF && y[i].locked :: y[i].refcnt >= 1
  {
    assert forall i | 0 <= i < NBUF :: Core(y[i]) == Core(x[i]);
  }

  /** e is d after one block write. */
  ghost predicate OneWrite(d: Disk, e: Disk) {
    |e| == |d| && exists b :: 0 <= b < |d| && e == d[b := e[b]]
  }

  /** Every disk is the one before it after one block write. */
  ghost predicate OneByOne(t: seq<Disk>) {
    forall i, j | 0 <= i < j < |t| && j == i + 1 :: OneWrite(t[i], t[j])
  }

  lemma OneMore(t: seq<Disk>, b: nat, data: Block)
    requires OneByOne(t) && t != [] && b < |t[|t| - 1]|
    ensures OneByOne(t + [t[|t| - 1][b := data]])
  {
    var e := t[|t| - 1][b := data];
    assert e == t[|t| - 1][b := e[b]];
  }

  class Bcache {
    const buf: array<Buf>
    var disk: Disk

    // The list order, and every disk content since boot, oldest first.
    ghost var order: seq<nat>
    ghost var trace: seq<Disk>

    ghost predicate Valid()
      reads this, buf
    {
      && buf.Length == NBUF + 1
      && |order| == NBUF
      && (forall b: nat | b < NBUF :: b in order)
      && Threaded(buf[..], order)
      && Unique(buf[..])
      && (forall i | 0 <= i < NBUF && buf[i].locked :: buf[i].refcnt >= 1)
      && trace != [] && trace[|trace| - 1] == disk && OneByOne(trace)
    }

    /** binit, over the zeroed buffers of a fresh boot. */
    constructor Binit(disk: Disk)
      ensures Valid() && fresh(buf)
      ensures this.disk == disk && trace == [disk]
      ensures forall i | 0 <= i < NBUF ::
                !buf[i].valid && !buf[i].locked && buf[i].refcnt == 0 && buf[i].dev == 0
    {
      hide Threaded, Ring;
      var zero: Block := seq(BSIZE, i => 0);
      var a := new Buf[NBUF + 1](i => Buf(false, 0, 0, false, 0, 0, 0, zero));
      a[HEAD] := a[HEAD].(prev := HEAD, next := HEAD);
      ghost var o: seq<nat> := [];
      EmptyList(a[..]);
      var b := 0;
      while b < NBUF
        invariant 0 <= b <= NBUF && |o| == b
        invariant forall k: nat :: k in o <==> k < b
        invariant Threaded(a[..], o)
        invariant forall i | 0 <= i < NBUF ::
                    !a[i].valid && !a[i].locked && a[i].refcnt == 0 && a[i].dev == 0
      {
        ghost var was := a[..];
        FirstInList(was, o);
        var first := a[HEAD].next;
        a[b] := a[b].(next := first, prev := HEAD);
        a[first] := a[first].(prev := b);
        a[HEAD] := a[HEAD].(next := b);
        Pushed(was, o, b, a[..]);
        o := [b] + o;
        b := b + 1;
      }
      buf := a;
      this.disk := disk;
      order := o;
      trace := [disk];
    }

    ghost predicate Cached(dev: nat, blockno: nat)
      reads this, buf
      requires Valid()
    {
      exists i :: 0 <= i < NBUF && Holds(buf[i], dev, blockno)
    }

    /** The first loop of bget: front to back, the buffer that holds the block. */
    method FindCached(dev: nat, blockno: nat) returns (r: Option<nat>)
      requires Valid()
      ensures r.Some? ==> r.value < NBUF && Holds(buf[r.value], dev, blockno)
      ensures r.Some? <==> Cached(dev, blockno)
    {
      Neighbours(buf[..], order, 0);
      var b := buf[HEAD].next;
      ghost var p := 0;
      while b != HEAD
        invariant 0 <= p <= NBUF
        invariant b == (if p < NBUF then order[p] else HEAD)
        invariant forall q | 0 <= q < p :: !Holds(buf[order[q]], dev, blockno)
        decreases NBUF - p
      {
        if Holds(buf[b], dev, blockno) {
          return Some(b);
        }
        Neighbours(buf[..], order, p);
        b := buf[b].next;
        p := p + 1;
      }
      forall i | 0 <= i < NBUF ensures !Holds(buf[i], dev, blockno) {
        assert i in order;
      }
      r := None;
    }

    /** The second loop of bget: back to front, the first unreferenced buffer. */
    method FindUnused() returns (r: Option<nat>)
      requires Valid()
      ensures r.Some? ==> r.value < NBUF && buf[r.value].refcnt == 0
      ensures r.Some? ==> forall p, q | 0 <= p < q < NBUF && order[p] == r.value :: buf[order[q]].refcnt > 0
      ensures r.None? <==> forall i | 0 <= i < NBUF :: buf[i].refcnt > 0
    {
      Neighbours(buf[..], order, 0);
      var b := buf[HEAD].prev;
      ghost var p := NBUF - 1;
      while b != HEAD
        invariant -1 <= p < NBUF
        invariant b == (if p >= 0 then order[p] else HEAD)
        invariant forall q | p < q < NBUF :: buf[order[q]].refcnt > 0
        decreases p
      {
        if buf[b].refcnt == 0 {
          return Some(b);
        }
        Neighbours(buf[..], order, p);
        b := buf[b].prev;
        p := p - 1;
      }
      forall i | 0 <= i < NBUF ensures buf[i].refcnt > 0 {
        assert i in order;
      }
      r := None;
    }

    /** Assign the fields of one buffer other than its list pointers. */
    method Rewrite(b: nat, value: Buf)
      requires Valid() && b < NBUF && value.next == buf[b].next && value.prev == buf[b].prev
      requires value.locked ==> value.refcnt >= 1
      requires value.dev == 0 || Holds(value, buf[b].dev, buf[b].blockno) || !Cached(value.dev, value.blockno)
      modifies buf
      ensures Valid() && buf[..] == old(buf[..])[b := value]
    {
      ghost var was := buf[..];
      buf[b] := value;
      Relabelled(was, order, buf[..]);
    }

    /**
     * bget. A hit takes one more reference; a miss recycles the least recently used unreferenced buffer; None is
     * the "no buffers" panic. The buffer's sleep lock is granted at once unless someone holds it; then the caller
     * waits for it with its reference taken.
     */
    method Bget(dev: nat, blockno: nat) returns (r: Option<nat>, granted: bool)
      requires Valid()
      modifies buf
      ensures Valid()
      ensures r.None? <==> !old(Cached(dev, blockno)) && forall i | 0 <= i < NBUF :: old(buf[i].refcnt) > 0
      ensures r.None? ==> buf[..] == old(buf[..])
      ensures r.Some? ==>
                var b := r.value;
                && b < NBUF
                && SameCores(buf[..], old(buf[..]), {b})
                && Holds(buf[b], dev, blockno) && buf[b].locked
                && (if old(Cached(dev, blockno)) then
                      && old(Holds(buf[b], dev, blockno)) && (granted <==> !old(buf[b].locked))
                      && buf[b] == old(buf[b]).(locked := true, refcnt := old(buf[b].refcnt) + 1)
                    else
                      && granted && old(buf[b].refcnt) == 0 && buf[b].refcnt == 1 && !buf[b].valid
                      && forall p, q | 0 <= p < q < NBUF && order[p] == b :: old(buf[order[q]].refcnt) > 0)
    {
      granted := true;
      r := FindCached(dev, blockno);
      if r.Some? {
        granted := !buf[r.value].locked;
        Rewrite(r.value, buf[r.value].(locked := true, refcnt := buf[r.value].refcnt + 1));
      } else {
        r := FindUnused();
        if r.Some? {
          Rewrite(r.value, buf[r.value].(dev := dev, blockno := blockno, valid := false, refcnt := 1, locked := true));
        }
      }
    }

    /** bread: bget, then, once the lock is granted, fill the buffer from disk unless it is valid already. */
    method Bread(dev: nat, blockno: nat) returns (r: Option<nat>, granted: bool)
      requires Valid() && blockno < |disk|
      modifies buf
      ensures Valid()
      ensures r.None? <==> !old(Cached(dev, blockno)) && forall i | 0 <= i < NBUF :: old(buf[i].refcnt) > 0
      ensures r.None? ==> buf[..] == old(buf[..])
      ensures r.Some? ==>
                var b := r.value;
                && b < NBUF
                && SameCores(buf[..], old(buf[..]), {b})
                && Holds(buf[b], dev, blockno) && buf[b].locked
                && (if old(Cached(dev, blockno)) then
                      && old(Holds(buf[b], dev, blockno)) && (granted <==> !old(buf[b].locked))
                      && buf[b].refcnt == old(buf[b].refcnt) + 1
                    else
                      granted && old(buf[b].refcnt) == 0 && buf[b].refcnt == 1)
      ensures r.Some? && granted ==>
                var b := r.value;
                && b < NBUF && buf[b].valid
                && buf[b].data ==
                    if old(Cached(dev, blockno)) && old(buf[b].valid) then old(buf[b].data) else disk[blockno]
      ensures r.Some? && !granted ==> r.value < NBUF && buf[r.value].data == old(buf[r.value].data)
      ensures r.Some? && !granted ==> r.value < NBUF && buf[r.value].valid == old(buf[r.value].valid)
    {
      r, granted := Bget(dev, blockno);
      if r.Some? && granted && !buf[r.value].valid {
        Rewrite(r.value, buf[r.value].(data := disk[blockno], valid := true));
      }
    }

    /** The rest of bread for a caller that waited, once the sleep lock is granted to it. */
    method Resume(b: nat)
      requires Valid() && b < NBUF && !buf[b].locked && buf[b].refcnt >= 1 && buf[b].blockno < |disk|
      modifies buf
      ensures Valid() && SameCores(buf[..], old(buf[..]), {b})
      ensures buf[b] == old(buf[b]).(locked := true, valid := true, data := buf[b].data)
      ensures buf[b].data == if old(buf[b].valid) then old(buf[b].data) else disk[buf[b].blockno]
    {
      Rewrite(b, buf[b].(locked := true));
      if !buf[b].valid {
        Rewrite(b, buf[b].(data := disk[buf[b].blockno], valid := true));
      }
    }

    /** bwrite: the buffer's data becomes the disk's content of its block. */
    method Bwrite(b: nat)
      requires Valid() && b < NBUF && buf[b].locked && buf[b].blockno < |disk|
      modifies this`disk, this`trace
      ensures Valid()
      ensures disk == old(disk)[buf[b].blockno := buf[b].data]
      ensures trace == old(trace) + [disk]
    {
      OneMore(trace, buf[b].blockno, buf[b].data);
      disk := disk[buf[b].blockno := buf[b].data];
      trace := trace + [disk];
    }

    /** Store into the data of a buffer whose lock is held. */
    method Store(b: nat, data: Block)
      requires Valid() && b < NBUF && buf[b].locked
      modifies buf
      ensures Valid()
      ensures SameCores(buf[..], old(buf[..]), {b})
      ensures buf[b] == old(buf[b]).(data := data)
    {
      Rewrite(b, buf[b].(data := data));
    }

    /** Take a buffer out of the list. */
    method Unlink(b: nat, ghost p: nat)
      requires buf.Length == NBUF + 1 && Threaded(buf[..], order) && p < |order| && order[p] == b
      modifies buf
      ensures Threaded(buf[..], order[..p] + order[p + 1..])
      ensures SameCores(buf[..], old(buf[..]), {})
    {
      ghost var was := buf[..];
      Neighbours(was, order, p);
      var next, prev := buf[b].next, buf[b].prev;
      buf[next] := buf[next].(prev := prev);
      buf[prev] := buf[prev].(next := next);
      Unlinked(was, order, p, buf[..]);
    }

    /** Put a buffer in the list behind the head. */
    method PushFront(b: nat, ghost rest: seq<nat>)
      requires buf.Length == NBUF + 1 && Threaded(buf[..], rest) && rest != [] && b < NBUF && b !in rest
      modifies buf
      ensures Threaded(buf[..], [b] + rest)
      ensures SameCores(buf[..], old(buf[..]), {})
    {
      ghost var was := buf[..];
      Neighbours(was, rest, 0);
      var first := buf[HEAD].next;
      buf[b] := buf[b].(next := first, prev := HEAD);
      buf[first] := buf[first].(prev := b);
      buf[HEAD] := buf[HEAD].(next := b);
      Pushed(was, rest, b, buf[..]);
    }

    /** Splice a buffer out of the list and back in behind the head. */
    method MoveToFront(b: nat)
      requires Valid() && b < NBUF
      modifies this`order, buf
      ensures Valid()
      ensures SameCores(buf[..], old(buf[..]), {})
      ensures exists p: nat :: p < NBUF && old(order)[p] == b && order == MovedToFront(old(order), p)
    {
      assert b in order;
      ghost var p: nat :| p < NBUF && order[p] == b;
      MovedToFrontKeeps(order, p);
      Unlink(b, p);
      PushFront(b, order[..p] + order[p + 1..]);
      order := MovedToFront(order, p);
      CoresDecide(old(buf[..]), buf[..]);
    }

    /** brelse: drop the lock and the reference; the last one out moves the buffer to the front. */
    method Brelse(b: nat)
      requires Valid() && b < NBUF && buf[b].locked
      modifies this`order, buf
      ensures Valid()
      ensures SameCores(buf[..], old(buf[..]), {b})
      ensures Core(buf[b]) == Core(old(buf[b])).(locked := false, refcnt := old(buf[b].refcnt) - 1)
      ensures if buf[b].refcnt > 0 then order == old(order)
              else exists p: nat :: p < NBUF && old(order)[p] == b && order == MovedToFront(old(order), p)
    {
      Rewrite(b, buf[b].(locked := false, refcnt := buf[b].refcnt - 1));
      if buf[b].refcnt == 0 {
        MoveToFront(b);
      }
    }

    /** bpin */
    method Bpin(b: nat)
      requires Valid() && b < NBUF
      modifies buf
      ensures Valid()
      ensures SameCores(buf[..], old(buf[..]), {b})
      ensures buf[b] == old(buf[b]).(refcnt := old(buf[b].refcnt) + 1)
    {
      Rewrite(b, buf[b].(refcnt := buf[b].refcnt + 1));
    }

    /** bunpin, by a caller that holds the buffer and its own pin. */
    method Bunpin(b: nat)
      requires Valid() && b < NBUF && buf[b].refcnt >= 1 && (buf[b].locked ==> buf[b].refcnt >= 2)
      modifies buf
      ensures Valid()
      ensures SameCores(buf[..], old(buf[..]), {b})
      ensures buf[b] == old(buf[b]).(refcnt := old(buf[b].refcnt) - 1)
    {
      Rewrite(b, buf[b].(refcnt := buf[b].refcnt - 1));
    }
  }
}
