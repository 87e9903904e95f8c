/**
 * What the on-disk redo log means: the disk that a completed recovery leaves, and
 * why a crash inside recovery, or inside a commit, changes nothing about it.
 */
module Recovery {
  import opened Blocks
  import opened BufferCache
  import opened Params

  /** log.start and log.size from the superblock, and the number of disk blocks. */
  datatype Layout = Layout(start: nat, size: nat, total: nat) {
    predicate Valid() {
      1 <= size && start + size <= total
    }

    predicate InLog(b: nat) {
      start <= b < start + size
    }
  }

  /** The log block that holds the k-th logged block. */
  function Slot(l: Layout, k: nat): (b: nat) {
    l.start + k + 1
  }

  /** n of the on-disk header. */
  function Count(l: Layout, d: Disk): (n: nat)
    requires l.Valid() && |d| == l.total
  {
    GetWord(d[l.start], 0)
  }

  /** block[k] of the on-disk header. */
  function Target(l: Layout, d: Disk, k: nat): (b: nat)
    requires l.Valid() && |d| == l.total && k < LOGSIZE
  {
    GetWord(d[l.start], 1 + k)
  }

  /** A header that recovery can act on: it fits the log and names home blocks only. */
  predicate LogOk(l: Layout, d: Disk) {
    && l.Valid() && |d| == l.total
    && Count(l, d) <= LOGSIZE && Count(l, d) < l.size
    && forall k: nat | k < Count(l, d) :: Target(l, d, k) < l.total && !l.InLog(Target(l, d, k))
  }

  /** The disk after install_trans has copied the first k logged blocks home. */
  function Installed(l: Layout, d: Disk, k: nat): (r: Disk)
    requires LogOk(l, d) && k <= Count(l, d)
    ensures |r| == l.total
    ensures forall b: nat | b < l.total && l.InLog(b) :: r[b] == d[b]
  {
    if k == 0 then d else Installed(l, d, k - 1)[Target(l, d, k - 1) := d[Slot(l, k - 1)]]
  }

  /** The disks install_trans writes while copying the first k blocks home. */
  function Installs(l: Layout, d: Disk, k: nat): (t: seq<Disk>)
    requires LogOk(l, d) && k <= Count(l, d)
    ensures |t| == k
  {
    if k == 0 then [] else Installs(l, d, k - 1) + [Installed(l, d, k)]
  }

  lemma {:induction false} InstallsAt(l: Layout, d: Disk, k: nat, i: nat)
    requires LogOk(l, d) && i < k <= Count(l, d)
    ensures Installs(l, d, k)[i] == Installed(l, d, i + 1)
  {
    if i < k - 1 {
      InstallsAt(l, d, k - 1, i);
    }
  }

  lemma InstallsNone(l: Layout, d: Disk)
    requires LogOk(l, d)
    ensures Installed(l, d, 0) == d && Installs(l, d, 0) == []
  {
  }

  /** The next copy: the slot still holds what it held when installing began. */
  lemma InstallsNext(l: Layout, d: Disk, k: nat, e: Disk)
    requires LogOk(l, d) && k < Count(l, d)
    requires var was := Installed(l, d, k); e == was[Target(l, d, k) := was[Slot(l, k)]]
    ensures e == Installed(l, d, k + 1) && Installs(l, d, k + 1) == Installs(l, d, k) + [e]
  {
    assert l.InLog(Slot(l, k));
  }

  /** The disk with n of the header set to 0. */
  function Erased(l: Layout, d: Disk): (r: Disk)
    requires l.Valid() && |d| == l.total
  {
    d[l.start := PutWord(d[l.start], 0, 0)]
  }

  /** The disk a completed recovery leaves. */
  function Recovered(l: Layout, d: Disk): (r: Disk)
    requires LogOk(l, d)
  {
    Erased(l, Installed(l, d, Count(l, d)))
  }

  /** The last of the first k header entries that names block b, or -1. */
  function LastFor(l: Layout, d: Disk, k: nat, b: nat): (j: int)
    requires LogOk(l, d) && k <= Count(l, d)
    ensures -1 <= j < k
    ensures j >= 0 ==> Target(l, d, j) == b
    ensures forall i: nat | j < i < k :: Target(l, d, i) != b
  {
    if k == 0 then -1
    else if Target(l, d, k - 1) == b then k - 1
    else LastFor(l, d, k - 1, b)
  }

  /** After k copies each block holds its last logged version, or what it held before. */
  lemma {:induction false} InstalledAt(l: Layout, d: Disk, k: nat, b: nat)
    requires LogOk(l, d) && k <= Count(l, d) && b < l.total
    ensures var j := LastFor(l, d, k, b);
            Installed(l, d, k)[b] == if j >= 0 then d[Slot(l, j)] else d[b]
  {
    if k > 0 {
      InstalledAt(l, d, k - 1, b);
    }
  }

  /** Copying home changes neither the header nor the log blocks, so the log stays usable. */
  lemma {:induction false} InstalledLogOk(l: Layout, d: Disk, k: nat)
    requires LogOk(l, d) && k <= Count(l, d)
    ensures LogOk(l, Installed(l, d, k)) && Count(l, Installed(l, d, k)) == Count(l, d)
    ensures forall i: nat | i < Count(l, d) :: Target(l, Installed(l, d, k), i) == Target(l, d, i)
  {
    var e := Installed(l, d, k);
    assert l.InLog(l.start) && e[l.start] == d[l.start];
    assert forall i: nat | i < Count(l, d) :: Target(l, e, i) == Target(l, d, i);
  }

  lemma {:induction false} LastForAgrees(l: Layout, d: Disk, e: Disk, k: nat, b: nat)
    requires LogOk(l, d) && LogOk(l, e) && k <= Count(l, d) && k <= Count(l, e)
    requires forall i: nat | i < k :: Target(l, e, i) == Target(l, d, i)
    ensures LastFor(l, d, k, b) == LastFor(l, e, k, b)
  {
    if k > 0 {
      LastForAgrees(l, d, e, k - 1, b);
    }
  }

  /** A crash after any number of copies: recovering again ends in the same disk. */
  lemma {:induction false} RecoverAfterCopies(l: Layout, d: Disk, k: nat)
    requires LogOk(l, d) && k <= Count(l, d)
    ensures LogOk(l, Installed(l, d, k)) && Recovered(l, Installed(l, d, k)) == Recovered(l, d)
  {
    var e, n := Installed(l, d, k), Count(l, d);
    InstalledLogOk(l, d, k);
    forall b | 0 <= b < l.total
      ensures Installed(l, e, n)[b] == Installed(l, d, n)[b]
    {
      InstalledAt(l, d, n, b);
      InstalledAt(l, e, n, b);
      InstalledAt(l, d, k, b);
      LastForAgrees(l, d, e, n, b);
    }
    assert Installed(l, e, n) == Installed(l, d, n);
  }

  /** A crash after the header was erased: recovering again changes nothing. */
  lemma {:induction false} RecoverAfterErase(l: Layout, d: Disk)
    requires LogOk(l, d)
    ensures LogOk(l, Recovered(l, d)) && Count(l, Recovered(l, d)) == 0
    ensures Recovered(l, Recovered(l, d)) == Recovered(l, d)
  {
    var h := Installed(l, d, Count(l, d))[l.start];
    PutAgain(h, 0, 0);
    assert Recovered(l, d)[l.start] == PutWord(h, 0, 0);
  }

  /** e is the disk at some moment of a recovery that started from d. */
  ghost predicate RecoveryPoint(l: Layout, d: Disk, e: Disk)
    requires LogOk(l, d)
  {
    e == Recovered(l, d) || exists k: nat :: k <= Count(l, d) && e == Installed(l, d, k)
  }

  lemma RecoveryPointKeeps(l: Layout, d: Disk, e: Disk)
    requires LogOk(l, d) && RecoveryPoint(l, d, e)
    ensures LogOk(l, e) && Recovered(l, e) == Recovered(l, d)
  {
    if e == Recovered(l, d) {
      RecoverAfterErase(l, d);
    } else {
      var k: nat :| k <= Count(l, d) && e == Installed(l, d, k);
      RecoverAfterCopies(l, d, k);
    }
  }

  /** Each disk is a moment of the recovery started from the one before: repeated crashes. */
  ghost predicate CrashChain(l: Layout, ds: seq<Disk>)
    requires |ds| >= 1 && LogOk(l, ds[0])
  {
    |ds| == 1 || (RecoveryPoint(l, ds[0], ds[1]) && LogOk(l, ds[1]) && CrashChain(l, ds[1..]))
  }

  /** However often recovery crashes, the recovery that completes leaves the same disk. */
  lemma {:induction false} RepeatedCrashes(l: Layout, ds: seq<Disk>)
    requires |ds| >= 1 && LogOk(l, ds[0]) && CrashChain(l, ds)
    ensures var last := ds[|ds| - 1]; LogOk(l, last) && Recovered(l, last) == Recovered(l, ds[0])
  {
    if |ds| > 1 {
      RecoveryPointKeeps(l, ds[0], ds[1]);
      RepeatedCrashes(l, ds[1..]);
    }
  }
}
