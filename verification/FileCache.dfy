/**
 The open-file cache (ngx_open_file_cache.c) without vnode events.

 The operating system's answers to one call are a parameter.  Leases stand for the cleanup
 handlers that requests keep in their pools.
 */
module FileCache {
  import opened Wrappers
  import opened Words
  import opened RbLinks
  import opened NameIndex
  import opened CacheState

  /** stat() on the name. */
  datatype Stat = Missing(err: nat) | Found(uniq: nat, info: nat, isDir: bool)

  /** open() on the name and fstat() on the descriptor. */
  datatype OpenReply = CannotOpen(err: nat) | CannotStat | Opened(uniq: nat, info: nat, isDir: bool)

  datatype System = System(stat: Stat, open: OpenReply)

  /** The caller's side of ngx_open_file_info_t. */
  datatype Want = Want(uniq: nat, valid: int, minUses: nat, errors: bool, symlinks: nat, testDir: bool)

  /** The fields that ngx_open_and_stat_file fills in. */
  datatype Got = Got(fd: Option<nat>, uniq: nat, info: nat, isDir: bool, err: nat)

  datatype Answer = Handed(lease: nat, fd: nat, info: nat) | Directory(info: nat) | Error(err: nat)

  /** What a look at the file system shows, given the descriptor held so far. */
  datatype Seen = SameFile(info: nat) | NewFile(uniq: nat, info: nat) | Dir(uniq: nat, info: nat) | Failure(err: nat)

  function Look(held: bool, uniq: nat, testDir: bool, sys: System): Seen {
    if (held || testDir) && sys.stat.Missing? then Failure(sys.stat.err)
    else if held && sys.stat.uniq == uniq then SameFile(sys.stat.info)
    else if !held && testDir && sys.stat.isDir then Dir(sys.stat.uniq, sys.stat.info)
    else match sys.open
      case CannotOpen(e) => Failure(e)
      case CannotStat => Failure(0)
      case Opened(u, i, d) => if d then Dir(u, i) else NewFile(u, i)
  }

  /** The fields filled in after a look; `f` is the descriptor that a new file got. */
  predicate Reported(seen: Seen, fd: Option<nat>, uniq: nat, f: nat, got: Got) {
    match seen
    case SameFile(i) => fd.Some? && got == Got(fd, uniq, i, false, 0)
    case NewFile(u, i) => got == Got(Some(f), u, i, false, 0) && (fd.Some? ==> u != uniq)
    case Dir(u, i) => got == Got(None, u, i, true, 0)
    case Failure(e) => got.fd.None? && !got.isDir && got.err == e
  }

  /**
   The file system does not reuse the identity of a file held open: it is not a directory's, and
   it does not come back between stat() and open().
   */
  predicate Plausible(uniq: nat, sys: System) {
    sys.stat.Found? ==>
      if sys.stat.uniq == uniq then !sys.stat.isDir
      else sys.open.Opened? && !sys.open.isDir ==> sys.open.uniq != uniq
  }

  /** What open() leads to when it is reached; `f` is the descriptor it would get. */
  function FromOpen(uniq: nat, open: OpenReply, f: nat): Got {
    match open
    case CannotOpen(e) => Got(None, uniq, 0, false, e)
    case CannotStat => Got(None, uniq, 0, false, 0)
    case Opened(u, i, d) => if d then Got(None, u, i, true, 0) else Got(Some(f), u, i, false, 0)
  }

  /** Is open() reached? */
  predicate ReachesOpen(fd: Option<nat>, uniq: nat, testDir: bool, sys: System) {
    if fd.Some? then sys.stat.Found? && sys.stat.uniq != uniq
    else testDir ==> sys.stat.Found? && !sys.stat.isDir
  }

  /** The fields that ngx_open_and_stat_file fills in, plausible or not. */
  function Report(fd: Option<nat>, uniq: nat, testDir: bool, sys: System, f: nat): Got {
    if ReachesOpen(fd, uniq, testDir, sys) then FromOpen(uniq, sys.open, f)
    else if sys.stat.Missing? then Got(None, uniq, 0, false, sys.stat.err)
    else Got(fd, sys.stat.uniq, sys.stat.info, sys.stat.isDir, 0)
  }

  lemma PlausibleReport(fd: Option<nat>, uniq: nat, testDir: bool, sys: System, f: nat)
    requires fd.Some? ==> Plausible(uniq, sys)
    ensures Reported(Look(fd.Some?, uniq, testDir, sys), fd, uniq, f, Report(fd, uniq, testDir, sys, f))
  {
  }

  /** Lines 295-332: is the entry kept and its fields renewed? */
  predicate Renews(e: Entry, got: Got) {
    if got.isDir then e.isDir || e.err != 0
    else if got.err == 0 then e.isDir || e.err != 0 || got.uniq == e.uniq
    else e.err != 0 || e.isDir
  }

  /** Lines 397-428: the entry with what was seen stored in it. */
  function Stored(e: Entry, of: Want, got: Got, t: int): Entry {
    var s := e.(fd := got.fd, err := got.err, symlinks := of.symlinks, created := t, accessed := t);
    if got.err == 0 then s.(uniq := got.uniq, info := got.info, isDir := got.isDir, close := false) else s
  }

  // -------------------------------------------------- what the assumption is needed for

  /**
   Descriptors are accounted for: each one issued and not closed is in exactly one entry, no entry
   has a closed one, and leased descriptors are those of their entries.
   */
  ghost predicate Accounted(entries: Entries, leases: map<nat, Lease>, closed: set<nat>, issued: nat) {
    && (forall f | f in closed :: f < issued)
    && (forall f: nat | f < issued && f !in closed :: HeldBySome(entries, f))
    && (forall m | m in entries && entries[m].fd.Some? :: entries[m].fd.value < issued && entries[m].fd.value !in closed)
    && (forall m, k | m in entries && k in entries && entries[m].fd.Some? && entries[m].fd == entries[k].fd :: m == k)
    && (forall l | l in leases :: leases[l].file in entries && entries[leases[l].file].fd == Some(leases[l].fd))
  }

  ghost predicate HeldBySome(entries: Entries, f: nat) { exists m | m in entries :: entries[m].fd == Some(f) }

  /** The invariant accounts for all descriptors. */
  lemma InvAccounts(st: State, busy: set<Node>, now: int)
    requires Inv(st, busy, {}, now)
    ensures Accounted(st.entries, st.leases, st.closed, st.issued)
  {
    forall f: nat | f < st.issued && f !in st.closed ensures HeldBySome(st.entries, f) {
      assert st.entries[st.owner[f]].fd == Some(f);
    }
    forall m | m in st.entries && st.entries[m].fd.Some?
      ensures st.entries[m].fd.value < st.issued && st.entries[m].fd.value !in st.closed
    {
      assert Owns(st.owner, m, st.entries[m].fd.value);
    }
    forall m, k | m in st.entries && k in st.entries && st.entries[m].fd.Some? && st.entries[m].fd == st.entries[k].fd ensures m == k {
      assert Owns(st.owner, m, st.entries[m].fd.value) && Owns(st.owner, k, st.entries[k].fd.value);
    }
  }

  /** The entries after lines 295-428 for entry `n`; `k` is the new entry, if one is made, before its fields are stored. */
  function Rechecked(entries: Entries, n: Node, k: Node, blank: Entry, of: Want, got: Got, t: int): Entries
    requires n in entries
  {
    var e := entries[n];
    if Renews(e, got) || e.count == 0 then entries[n := Stored(e, of, got, t)]
    else entries[n := e.(close := true)][k := Stored(blank, of, got, t)]
  }

  /** The descriptors closed on the way, by lines 333-338 and by a look that ended in a directory. */
  function ClosedBy(e: Entry, got: Got, sys: System, f: nat): set<nat> {
    (if !Renews(e, got) && e.count == 0 && e.fd.Some? then {e.fd.value} else {}) +
    (if ReachesOpen(e.fd, e.uniq, false, sys) && !sys.open.CannotOpen? && got.fd.None? then {f} else {})
  }

  function IssuedBy(e: Entry, sys: System): nat {
    if ReachesOpen(e.fd, e.uniq, false, sys) && !sys.open.CannotOpen? then 1 else 0
  }

  /** The outcome of checking entry `n`, all told. */
  ghost predicate CheckedWell(st: State, n: Node, k: Node, blank: Entry, of: Want, sys: System, t: int)
    requires n in st.entries
  {
    var e, f := st.entries[n], st.issued;
    var got := Report(e.fd, e.uniq, false, sys, f);
    Accounted(Rechecked(st.entries, n, k, blank, of, got, t), st.leases, st.closed + ClosedBy(e, got, sys, f), f + IssuedBy(e, sys))
  }

  /**
   Checking an entry that holds a descriptor against the file system, where that does not fail or
   fails with an error to cache, keeps descriptors accounted for exactly when the file system's
   answers are plausible.
   */
  lemma RecheckExact(st: State, now: int, n: Node, k: Node, blank: Entry, of: Want, sys: System, t: int)
    requires Inv(st, {n}, {}, now) && n in st.entries && st.entries[n].fd.Some? && k !in st.entries
    requires Look(true, st.entries[n].uniq, false, sys) != Failure(0)
    ensures CheckedWell(st, n, k, blank, of, sys, t) <==> Plausible(st.entries[n].uniq, sys)
  {
    hide Inv, CheckedWell;
    InvAccounts(st, {n}, now);
    EntryFacts(st, {n}, {}, now, n);
    NoLeaseUnused(st, now, n);
    if sys.stat.Found? && sys.stat.uniq == st.entries[n].uniq {
      CheckedByStat(st, n, k, blank, of, sys, t);
    } else {
      CheckedByOpen(st, n, k, blank, of, sys, t);
    }
  }

  /** What checking an entry starts from. */
  ghost predicate Checking(st: State, n: Node, k: Node) {
    && n in st.entries && st.entries[n].fd.Some? && IsFile(st.entries[n]) && k !in st.entries
    && Accounted(st.entries, st.leases, st.closed, st.issued)
    && (st.entries[n].count == 0 ==> forall l | l in st.leases :: st.leases[l].file != n)
    && st.entries[n].fd.value < st.issued && st.entries[n].fd.value !in st.closed
    && (forall m | m in st.entries && st.entries[m].fd == st.entries[n].fd :: m == n)
  }

  /** stat() shows the number of the file held: well unless it is a directory. */
  lemma CheckedByStat(st: State, n: Node, k: Node, blank: Entry, of: Want, sys: System, t: int)
    requires Checking(st, n, k) && sys.stat.Found? && sys.stat.uniq == st.entries[n].uniq
    ensures CheckedWell(st, n, k, blank, of, sys, t) <==> !sys.stat.isDir
  {
    hide Accounted;
    var e, f := st.entries[n], st.issued;
    var got := Report(e.fd, e.uniq, false, sys, f);
    var es := Rechecked(st.entries, n, k, blank, of, got, t);
    var closed := st.closed + ClosedBy(e, got, sys, f);
    assert IssuedBy(e, sys) == 0;
    if !sys.stat.isDir {
      assert closed == st.closed;
      KeptAccounts(st.entries, st.leases, closed, f, n, es[n]);
    } else if e.count == 0 {
      ClosedStays(es, st.leases, closed, f, n);
    } else {
      TwoHold(es, st.leases, closed, f, n, k);
    }
  }

  /** Otherwise: well unless open() shows the number of the file held. */
  lemma CheckedByOpen(st: State, n: Node, k: Node, blank: Entry, of: Want, sys: System, t: int)
    requires Checking(st, n, k) && !(sys.stat.Found? && sys.stat.uniq == st.entries[n].uniq)
    requires Look(true, st.entries[n].uniq, false, sys) != Failure(0)
    ensures CheckedWell(st, n, k, blank, of, sys, t) <==>
      !(sys.stat.Found? && sys.open.Opened? && !sys.open.isDir && sys.open.uniq == st.entries[n].uniq)
  {
    hide Accounted;
    var e, f := st.entries[n], st.issued;
    var got := Report(e.fd, e.uniq, false, sys, f);
    var es := Rechecked(st.entries, n, k, blank, of, got, t);
    var closed, issued := st.closed + ClosedBy(e, got, sys, f), f + IssuedBy(e, sys);
    if Renews(e, got) {
      Lost(st.entries, es, st.leases, closed, issued, n);
    } else if e.count == 0 {
      NotClosedYet(st);
      assert es == st.entries[n := es[n]];
      Replaced(st.entries, st.leases, st.closed, f, n, es[n], closed, issued);
    } else {
      NotClosedYet(st);
      assert es == st.entries[n := es[n]][k := es[k]];
      Orphaned(st.entries, st.leases, st.closed, f, n, es[n], k, es[k], closed, issued);
    }
  }

  lemma NotClosedYet(st: State)
    requires Accounted(st.entries, st.leases, st.closed, st.issued)
    ensures st.issued !in st.closed
  {
  }

  lemma NoLeaseUnused(st: State, now: int, n: Node)
    requires Inv(st, {n}, {}, now) && n in st.entries
    ensures st.entries[n].count == 0 ==> forall l | l in st.leases :: st.leases[l].file != n
    ensures st.entries[n].fd.Some? ==> st.entries[n].fd.value < st.issued && st.entries[n].fd.value !in st.closed
    ensures st.entries[n].fd.Some? ==> forall m | m in st.entries && st.entries[m].fd == st.entries[n].fd :: m == n
  {
    assert |Holders(st.leases, n)| == st.entries[n].count;
    if st.entries[n].count == 0 { NoHolder(st.leases, n); }
    InvAccounts(st, {n}, now);
  }

  /** What opening a file may have added: one descriptor, closed again or the new one. */
  predicate Opens(g: Option<nat>, f: nat, extra: set<nat>, issued: nat) {
    (issued == f && g == None && extra == {}) || (issued == f + 1 && ((g == Some(f) && extra == {}) || (g == None && extra == {f})))
  }

  /** The descriptor of an unused entry is closed and another one, or none, takes its place. */
  lemma Replaced(entries: Entries, leases: map<nat, Lease>, closed: set<nat>, f: nat, n: Node, e: Entry, closed': set<nat>, issued': nat)
    requires Accounted(entries, leases, closed, f) && n in entries && entries[n].fd.Some? && forall l | l in leases :: leases[l].file != n
    requires Opens(e.fd, f, closed' - closed - {entries[n].fd.value}, issued') && closed + {entries[n].fd.value} <= closed'
    ensures Accounted(entries[n := e], leases, closed', issued')
  {
    var es, former := entries[n := e], entries[n].fd.value;
    var extra := closed' - closed - {former};
    forall x: nat | x < issued' && x !in closed' ensures HeldBySome(es, x) {
      if x < f {
        assert HeldBySome(entries, x);
        var m: Node :| m in entries && entries[m].fd == Some(x);
        assert es[m].fd == Some(x);
      } else {
        assert x !in extra;
        assert es[n].fd == Some(x);
      }
    }
    forall x | x in closed' ensures x < issued' {
      assert x in closed || x == former || x in extra;
    }
    forall m | m in es && es[m].fd.Some? ensures es[m].fd.value < issued' && es[m].fd.value !in closed' {
      var x := es[m].fd.value;
      assert x in closed' ==> x in closed || x == former || x in extra;
    }
  }

  /** The entry keeps its descriptor for its users, and the new entry has another one, or none. */
  lemma Orphaned(entries: Entries, leases: map<nat, Lease>, closed: set<nat>, f: nat, n: Node, e: Entry, k: Node, d: Entry, closed': set<nat>, issued': nat)
    requires Accounted(entries, leases, closed, f) && n in entries && k !in entries && e.fd == entries[n].fd
    requires Opens(d.fd, f, closed' - closed, issued') && closed <= closed'
    ensures Accounted(entries[n := e][k := d], leases, closed', issued')
  {
    var es, extra := entries[n := e][k := d], closed' - closed;
    forall x: nat | x < issued' && x !in closed' ensures HeldBySome(es, x) {
      if x < f {
        assert HeldBySome(entries, x);
        var m: Node :| m in entries && entries[m].fd == Some(x);
        assert es[m].fd == Some(x);
      } else {
        assert x !in extra;
        assert es[k].fd == Some(x);
      }
    }
    forall x | x in closed' ensures x < issued' { assert x in closed || x in extra; }
    forall m | m in es && es[m].fd.Some? ensures es[m].fd.value < issued' && es[m].fd.value !in closed' {
      var x := es[m].fd.value;
      assert x in closed' ==> x in closed || x in extra;
    }
  }

  /** A closed descriptor stays in the entry. */
  lemma ClosedStays(es: Entries, leases: map<nat, Lease>, closed: set<nat>, issued: nat, n: Node)
    requires n in es && es[n].fd.Some? && es[n].fd.value in closed
    ensures !Accounted(es, leases, closed, issued)
  {
  }

  /** Two entries have the descriptor. */
  lemma TwoHold(es: Entries, leases: map<nat, Lease>, closed: set<nat>, issued: nat, n: Node, k: Node)
    requires n in es && k in es && n != k && es[n].fd.Some? && es[n].fd == es[k].fd
    ensures !Accounted(es, leases, closed, issued)
  {
  }

  /** The old descriptor is neither in an entry nor closed. */
  lemma Lost(entries: Entries, es: Entries, leases: map<nat, Lease>, closed: set<nat>, issued: nat, n: Node)
    requires n in entries && n in es && es == entries[n := es[n]] && entries[n].fd.Some? && es[n].fd != entries[n].fd
    requires entries[n].fd.value < issued && entries[n].fd.value !in closed
    requires forall m | m in entries && entries[m].fd == entries[n].fd :: m == n
    ensures !Accounted(es, leases, closed, issued)
  {
    assert !HeldBySome(es, entries[n].fd.value);
  }

  lemma KeptAccounts(entries: Entries, leases: map<nat, Lease>, closed: set<nat>, issued: nat, n: Node, e: Entry)
    requires Accounted(entries, leases, closed, issued) && n in entries && e.fd == entries[n].fd
    ensures Accounted(entries[n := e], leases, closed, issued)
  {
    var es := entries[n := e];
    forall f: nat | f < issued && f !in closed ensures HeldBySome(es, f) {
      var m: Node :| m in entries && entries[m].fd == Some(f);
      assert es[m].fd == Some(f);
    }
  }

  /** The entry answers without a look at the file system. */
  predicate Hit(e: Entry, of: Want, t: int) {
    && !(e.fd.None? && IsFile(e))
    && (of.uniq == 0 || of.uniq == e.uniq) && t - e.created < of.valid && of.symlinks == e.symlinks
  }

  datatype Request = Ask(name: string, of: Want, sys: System, wait: nat, memory: bool) | Done(lease: nat, wait: nat)

  /** Descriptor `f` is open, not closed, and the one that its only owner `n` keeps. */
  ghost predicate InUse(st: State, f: nat, n: Node) {
    && f in st.owner && f !in st.closed && n in st.entries
    && (forall m | m in st.entries :: st.entries[m].fd == Some(f) <==> m == n)
  }

  lemma LeasedStaysOpen(st: State, now: int, id: nat)
    requires Inv(st, {}, {}, now) && id in st.leases
    ensures InUse(st, st.leases[id].fd, st.leases[id].file)
  {
    var f, n := st.leases[id].fd, st.leases[id].file;
    assert Owns(st.owner, n, f);
    forall m | m in st.entries && st.entries[m].fd == Some(f) ensures m == n { assert Owns(st.owner, m, f); }
  }

  /** What the invariant says between operations, in the cache's own terms. */
  lemma BetweenOperations(st: State, now: int)
    requires Inv(st, {}, {}, now)
    ensures |st.queue| == |st.indexed| == st.current && (set n | n in st.queue) == st.indexed
    ensures forall n | n in st.entries && (st.entries[n].err != 0 || st.entries[n].isDir) :: st.entries[n].count == 0 && st.entries[n].fd.None?
    ensures forall n | n in st.entries && n !in st.indexed :: st.entries[n].close && st.entries[n].count > 0
    ensures st.queue != [] ==> forall n | n in st.queue :: Last(st.queue) in st.entries && n in st.entries && st.entries[Last(st.queue)].accessed <= st.entries[n].accessed
    ensures forall f: nat | f < st.issued :: f in st.closed <==> f !in st.owner
  {
    assert (set n | n in st.queue) == st.indexed;
    DistinctSize(st.queue);
  }

  function Last<T>(q: seq<T>): T
    requires q != []
  {
    q[|q| - 1]
  }

  lemma {:induction false} DistinctSize(q: seq<Node>)
    requires forall i, j | 0 <= i < j < |q| :: q[i] != q[j]
    ensures |set n | n in q| == |q|
  {
    if q != [] {
      var p := q[..|q| - 1];
      DistinctSize(p);
      assert (set n | n in q) == (set n | n in p) + {Last(q)};
      assert Last(q) !in p;
    }
  }

  /** Not used for longer than `inactive`. */
  predicate Stale(entries: map<Node, Entry>, n: Node, now: int, inactive: int) {
    n in entries && now - entries[n].accessed > inactive
  }

  /** What a valid entry reports. */
  function Remembered(e: Entry): Got { Got(e.fd, e.uniq, e.info, e.isDir, e.err) }

  function Recalled(e: Entry): Seen {
    if e.err != 0 then Failure(e.err) else if e.isDir then Dir(e.uniq, e.info) else SameFile(e.info)
  }

  /** The answer that fits what is seen: the descriptor held, a new one, a directory or an error. */
  ghost predicate Replied(r: Answer, seen: Seen, held: Option<nat>, f: nat, id: nat) {
    match seen
    case SameFile(i) => held.Some? && r == Handed(id, held.value, i)
    case NewFile(_, i) => r == Handed(id, f, i)
    case Dir(_, i) => r == Directory(i)
    case Failure(e) => r == Error(e)
  }

  /** Leases already held are kept; an answer with a descriptor adds one. */
  ghost predicate Grown(r: Answer, leases: map<nat, Lease>, leases': map<nat, Lease>, id: nat) {
    if r.Handed? then r.lease == id && id in leases' && leases' == leases[id := leases'[id]] else leases' == leases
  }

  /** The answer for what was got, with a lease on entry `n` if it is a file. */
  ghost predicate Answered(r: Answer, got: Got, id: nat, n: Node, of: Want, leases: map<nat, Lease>, leases': map<nat, Lease>) {
    if got.err != 0 then r == Error(got.err) && leases' == leases
    else if got.isDir then r == Directory(got.info) && leases' == leases
    else got.fd.Some? && r == Handed(id, got.fd.value, got.info) && leases' == leases[id := Lease(n, got.fd.value, of.minUses)]
  }

  /**
   The last `k` entries are gone from the queue and the others are as before.  All but one taken
   by force when `n` is 0, the least recently used, were stale.
   */
  ghost predicate Trimmed(entries: map<Node, Entry>, queue: seq<Node>, entries': map<Node, Entry>, queue': seq<Node>,
                          n: nat, k: nat, now: int, inactive: int)
  {
    && k <= |queue| && queue' == queue[..|queue| - k]
    && (forall m | m in queue' :: m in entries' && m in entries && entries'[m] == entries[m])
    && (forall i | |queue| - k <= i < |queue| && (n == 0 ==> i < |queue| - 1) :: Stale(entries, queue[i], now, inactive))
  }

  lemma TrimNone(entries: map<Node, Entry>, queue: seq<Node>, n: nat, now: int, inactive: int)
    requires forall m | m in queue :: m in entries
    ensures Trimmed(entries, queue, entries, queue, n, 0, now, inactive)
  {
  }

  lemma TrimmedTail(entries: map<Node, Entry>, queue: seq<Node>, entries': map<Node, Entry>, queue': seq<Node>,
                    n: nat, k: nat, now: int, inactive: int)
    requires Trimmed(entries, queue, entries', queue', n, k, now, inactive)
    ensures queue' != [] ==> queue'[|queue'| - 1] in entries'
    ensures |queue'| == |queue| - k
  {
    if queue' != [] { assert queue'[|queue'| - 1] in queue'; }
  }

  lemma NotStale(entries: map<Node, Entry>, n: Node, now: int, inactive: int)
    requires n in entries
    ensures Stale(entries, n, now, inactive) <==> now - entries[n].accessed > inactive
  {
  }

  lemma TrimStep(entries: map<Node, Entry>, queue: seq<Node>, entries': map<Node, Entry>, queue': seq<Node>,
                 entries'': map<Node, Entry>, queue'': seq<Node>, n: nat, k: nat, now: int, inactive: int)
    requires Trimmed(entries, queue, entries', queue', n, k, now, inactive) && queue' != []
    requires queue'[|queue'| - 1] in entries' && (n + k > 0 ==> now - entries'[queue'[|queue'| - 1]].accessed > inactive)
    requires queue'' == queue'[..|queue'| - 1]
    requires forall m | m in queue'' :: m in entries'' && m in entries' && entries''[m] == entries'[m]
    ensures Trimmed(entries, queue, entries'', queue'', n, k + 1, now, inactive)
  {
    assert queue'[|queue'| - 1] in queue';
    assert forall m | m in queue'' :: m in queue';
  }

  class Cache {
    const index: Index
    const max: nat
    const inactive: int
    var entries: map<Node, Entry>
    /** most recently used first */
    var queue: seq<Node>
    var current: nat
    var leases: map<nat, Lease>
    var nextLease: nat
    /** descriptors issued so far by the operating system */
    var issued: nat
    /** ngx_time() */
    var now: int
    ghost var owner: map<nat, Node>
    ghost var closed: set<nat>

    ghost function View(): State
      reads this, index.tree
    {
      State(entries, index.tree.nodes, queue, current, leases, owner, closed, issued)
    }

    ghost predicate Holding(busy: set<Node>, loose: set<nat>)
      reads this, index, index.tree, index.tree.sentinel, index.tree.nodes
    {
      && index.Valid() && Inv(View(), busy, loose, now) && current <= max
      && forall l | l in leases :: l < nextLease
    }

    /** What holds between operations. */
    ghost predicate Valid()
      reads this, index, index.tree, index.tree.sentinel, index.tree.nodes
    {
      Holding({}, {})
    }

    /** An answer with a descriptor has a lease on the entry of that name, now first in the queue. */
    ghost predicate Recorded(r: Answer, name: string, of: Want)
      reads this, index, index.tree
    {
      r.Handed? ==>
        && r.lease in leases && leases[r.lease].fd == r.fd && leases[r.lease].minUses == of.minUses
        && queue != [] && queue[0] == leases[r.lease].file && queue[0].name == name && queue[0] in index.tree.nodes
    }

    /** ngx_open_file_cache_init */
    constructor (sentinel: Node, hash: string -> Word, max: nat, inactive: int, now: int)
      modifies sentinel`color
      ensures Valid() && entries == map[] && leases == map[] && this.max == max && this.inactive == inactive && this.now == now
      ensures fresh(index) && fresh(index.tree) && index.tree.sentinel == sentinel
    {
      hide Inv, Index.Valid;
      index := new Index(sentinel, hash);
      this.max, this.inactive, this.now := max, inactive, now;
      entries, queue, current, leases, nextLease, issued := map[], [], 0, map[], 0, 0;
      owner, closed := map[], {};
      new;
      EmptyInv(View(), now);
    }

    /** ngx_close_file on a descriptor that is open and that no request uses. */
    method CloseFile(fd: nat)
      requires fd in owner && fd !in closed && forall l | l in leases :: leases[l].fd != fd
      modifies this`owner, this`closed
      ensures owner == old(owner) - {fd} && closed == old(closed) + {fd}
    {
      owner := owner - {fd};
      closed := closed + {fd};
    }

    /** Closes a descriptor that no entry has. */
    method CloseLoose(fd: nat, ghost busy: set<Node>)
      requires Holding(busy, {fd})
      modifies this`closed
      ensures Holding(busy, {})
      ensures fd !in owner && fd !in old(closed) && closed == old(closed) + {fd}
    {
      hide Inv;
      DiscardInv(View(), busy, {fd}, now, fd);
      closed := closed + {fd};
      assert {fd} - {fd} == {};
    }

    /** ngx_open_and_stat_file */
    method OpenAndStat(fd: Option<nat>, uniq: nat, testDir: bool, sys: System, ghost busy: set<Node>) returns (ok: bool, got: Got)
      requires Holding(busy, {})
      modifies this`issued, this`closed
      ensures ok <==> !Look(fd.Some?, uniq, testDir, sys).Failure?
      ensures got == Report(fd, uniq, testDir, sys, old(issued))
      ensures var opens := ReachesOpen(fd, uniq, testDir, sys) && !sys.open.CannotOpen?;
        && issued == old(issued) + (if opens then 1 else 0)
        && closed == old(closed) + (if opens && got.fd.None? then {old(issued)} else {})
      ensures Holding(busy, if Look(fd.Some?, uniq, testDir, sys).NewFile? then {old(issued)} else {})
    {
      hide Inv;
      if fd.Some? {
        if sys.stat.Missing? {
          return false, Got(None, uniq, 0, false, sys.stat.err);
        }
        if sys.stat.uniq == uniq {
          return true, Got(fd, uniq, sys.stat.info, sys.stat.isDir, 0);
        }
      } else if testDir {
        if sys.stat.Missing? {
          return false, Got(None, uniq, 0, false, sys.stat.err);
        }
        if sys.stat.isDir {
          return true, Got(None, sys.stat.uniq, sys.stat.info, true, 0);
        }
      }
      if sys.open.CannotOpen? {
        return false, Got(None, uniq, 0, false, sys.open.err);
      }
      var f := issued;
      IssueInv(View(), busy, {}, now);
      issued := issued + 1;
      assert {} + {f} == {f};
      if sys.open.CannotStat? {
        CloseLoose(f, busy);
        return false, Got(None, uniq, 0, false, 0);
      }
      if sys.open.isDir {
        CloseLoose(f, busy);
        return true, Got(None, sys.open.uniq, sys.open.info, true, 0);
      }
      return true, Got(Some(f), sys.open.uniq, sys.open.info, false, 0);
    }

    // ------------------------------------------------------------------ entries

    /** Takes an entry that is off the queue out of the tree. */
    method Unindex(n: Node, ghost busy: set<Node>, ghost loose: set<nat>)
      requires Holding(busy, loose) && n in busy && n in index.tree.nodes
      modifies this`current, index.tree`root, index.tree`nodes, index.tree`shape, index.tree.sentinel`parent, index.tree.sentinel`color,
               index.tree.nodes`left, index.tree.nodes`right, index.tree.nodes`parent, index.tree.nodes`color, index.tree.nodes`key
      ensures Holding(busy, loose)
      ensures index.tree.nodes == old(index.tree.nodes) - {n} && current == old(current) - 1
    {
      hide Inv, Index.Valid;
      UnindexInv(View(), busy, loose, now, n);
      index.Remove(n);
      current := current - 1;
    }

    /** Frees an entry that is out of the tree and has no descriptor. */
    method FreeEntry(n: Node, ghost busy: set<Node>, ghost loose: set<nat>)
      requires Holding(busy, loose) && n in busy && n !in index.tree.nodes && n in entries && entries[n].fd.None?
      modifies this`entries
      ensures Holding(busy - {n}, loose) && entries == old(entries) - {n}
    {
      hide Inv;
      ForgetInv(View(), busy, loose, now, n);
      entries := entries - {n};
    }

    /** Closes the descriptor of an entry that nobody uses. */
    method CloseEntry(n: Node, ghost busy: set<Node>, ghost loose: set<nat>)
      requires Holding(busy, loose) && n in entries && entries[n].fd.Some? && entries[n].count == 0
      modifies this`entries, this`owner, this`closed
      ensures Holding(busy, loose) && entries == old(entries)[n := old(entries[n]).(fd := None)]
    {
      hide Inv;
      CloseInv(View(), busy, loose, now, n, entries[n].fd.value);
      CloseFile(entries[n].fd.value);
      entries := entries[n := entries[n].(fd := None)];
    }

    /** Moves an entry that was just used to the front of the queue. */
    method Touch(n: Node, ghost loose: set<nat>)
      requires Holding({}, loose) && n in queue && n in entries
      modifies this`entries, this`queue
      ensures Holding({}, loose)
      ensures entries == old(entries)[n := old(entries[n]).(accessed := now)] && queue == [n] + Drop(old(queue), n)
    {
      hide Inv, Index.Valid;
      EntryFacts(View(), {}, loose, now, n);
      DequeueInv(View(), {}, loose, now, n);
      queue := Drop(queue, n);
      assert {} + {n} == {n};
      EditInv(View(), {n}, loose, now, n, entries[n].(accessed := now));
      entries := entries[n := entries[n].(accessed := now)];
      EnqueueInv(View(), {n}, loose, now, n);
      queue := [n] + queue;
      assert {n} - {n} == {};
    }

    /** ngx_close_cached_file */
    method CloseCached(n: Node, minUses: nat, ghost loose: set<nat>)
      requires n in entries && IsFile(entries[n])
      requires if entries[n].close then Holding({n}, loose) && n !in index.tree.nodes
               else Holding({}, loose) && n in queue
      modifies this`entries, this`queue, this`owner, this`closed
      ensures Holding({}, loose)
      ensures queue == if old(entries[n].close) then old(queue) else [n] + Drop(old(queue), n)
      ensures forall m | m in old(entries) && m != n :: m in entries && entries[m] == old(entries)[m]
      ensures n in entries <==> !old(entries[n].close) || old(entries[n].count) > 0
      ensures n in entries && !old(entries[n].close) ==>
        entries[n] == old(entries[n]).(accessed := now, fd := if old(entries[n].uses) >= minUses || old(entries[n].count) > 0 then old(entries[n].fd) else None)
      ensures n in entries && old(entries[n].close) ==> entries[n] == old(entries[n])
    {
      hide Inv;
      var e := entries[n];
      ghost var busy := if e.close then {n} else {};
      if !e.close {
        Touch(n, loose);
        if e.uses >= minUses || e.count > 0 {
          return;
        }
      }
      if e.count > 0 {
        SettleInv(View(), {n}, loose, now, n);
        assert {n} - {n} == {};
        return;
      }
      if e.fd.Some? {
        CloseEntry(n, busy, loose);
      }
      if !e.close {
        return;
      }
      FreeEntry(n, {n}, loose);
      assert {n} - {n} == {};
    }

    /** Takes the least recently used entry out of the cache. */
    method Evict(ghost loose: set<nat>)
      requires Holding({}, loose) && queue != []
      modifies this`entries, this`queue, this`current, this`owner, this`closed,
               index.tree`root, index.tree`nodes, index.tree`shape, index.tree.sentinel`parent, index.tree.sentinel`color,
               index.tree.nodes`left, index.tree.nodes`right, index.tree.nodes`parent, index.tree.nodes`color, index.tree.nodes`key
      ensures Holding({}, loose)
      ensures queue == old(queue)[..|old(queue)| - 1] && current == old(current) - 1
      ensures index.tree.nodes == old(index.tree.nodes) - {old(queue)[|old(queue)| - 1]}
      ensures forall n | n in queue :: n in entries && n in old(entries) && entries[n] == old(entries)[n]
    {
      hide Inv, Index.Valid;
      var file := queue[|queue| - 1];
      QueueFacts(View(), {}, loose, now);
      EntryFacts(View(), {}, loose, now, file);
      assert file in queue;
      DropLast(queue);
      DequeueInv(View(), {}, loose, now, file);
      assert {} + {file} == {file};
      queue := queue[..|queue| - 1];
      QueueFacts(View(), {file}, loose, now);
      Unindex(file, {file}, loose);
      LetGo(file, loose);
    }

    /** Lines 1129-1140: the fate of an entry just taken out of the tree. */
    method LetGo(file: Node, ghost loose: set<nat>)
      requires Holding({file}, loose) && file !in index.tree.nodes && file in entries
      modifies this`entries, this`queue, this`owner, this`closed
      ensures Holding({}, loose) && queue == old(queue)
      ensures forall m | m in old(entries) && m != file :: m in entries && entries[m] == old(entries)[m]
    {
      hide Inv, Index.Valid;
      EntryFacts(View(), {file}, loose, now, file);
      var e := entries[file];
      if e.err == 0 && !e.isDir {
        EditInv(View(), {file}, loose, now, file, e.(close := true));
        entries := entries[file := e.(close := true)];
        CloseCached(file, 0, loose);
      } else {
        FreeEntry(file, {file}, loose);
        assert {file} - {file} == {};
      }
    }

    /**
     ngx_expire_old_cached_files: from the cold end, one entry by force if `n` is 0, and entries
     that were not used for long, two at most.
     */
    method Expire(n: nat, ghost loose: set<nat>) returns (ghost k: nat)
      requires Holding({}, loose)
      modifies this`entries, this`queue, this`current, this`owner, this`closed,
               index.tree`root, index.tree`nodes, index.tree`shape, index.tree.sentinel`parent, index.tree.sentinel`color,
               index.tree.nodes`left, index.tree.nodes`right, index.tree.nodes`parent, index.tree.nodes`color, index.tree.nodes`key
      ensures Holding({}, loose) && index.tree.nodes <= old(index.tree.nodes)
      ensures n + k <= (if n < 3 then 3 else n) && current == old(current) - k
      ensures Trimmed(old(entries), old(queue), entries, queue, n, k, now, inactive)
      ensures n == 0 && old(queue) != [] ==> k >= 1
      ensures n + k < 3 && queue != [] ==> !Stale(entries, queue[|queue| - 1], now, inactive)
    {
      hide Inv, Index.Valid, Drop, Trimmed, Stale;
      ghost var es, q := entries, queue;
      var j := n;
      k := 0;
      QueueFacts(View(), {}, loose, now);
      TrimNone(entries, queue, n, now, inactive);
      while j < 3
        invariant Holding({}, loose) && index.tree.nodes <= old(index.tree.nodes)
        invariant j == n + k && (k > 0 ==> j <= 3) && current == old(current) - k
        invariant Trimmed(es, q, entries, queue, n, k, now, inactive)
      {
        TrimmedTail(es, q, entries, queue, n, k, now, inactive);
        if queue == [] {
          return;
        }
        var file := queue[|queue| - 1];
        if j != 0 && now - entries[file].accessed <= inactive {
          NotStale(entries, file, now, inactive);
          return;
        }
        j := j + 1;
        ghost var es1, q1 := entries, queue;
        Evict(loose);
        TrimStep(es, q, es1, q1, entries, queue, n, k, now, inactive);
        k := k + 1;
      }
    }

    /** ngx_open_file_cleanup: the request that holds lease `id` is done. */
    method Cleanup(id: nat, t: int)
      requires Valid() && id in leases && now <= t
      modifies this`entries, this`queue, this`current, this`owner, this`closed, this`leases, this`now,
               index.tree`root, index.tree`nodes, index.tree`shape, index.tree.sentinel`parent, index.tree.sentinel`color,
               index.tree.nodes`left, index.tree.nodes`right, index.tree.nodes`parent, index.tree.nodes`color, index.tree.nodes`key
      ensures Valid() && now == t && leases == old(leases) - {id} && index.tree.nodes <= old(index.tree.nodes)
    {
      hide Inv, Index.Valid, Drop;
      LaterInv(View(), {}, {}, now, t);
      now := t;
      var n, minUses := leases[id].file, leases[id].minUses;
      ReturnInv(View(), {}, now, id);
      EntryFacts(View(), {}, {}, now, n);
      entries := entries[n := entries[n].(count := entries[n].count - 1)];
      leases := leases - {id};
      CloseCached(n, minUses, {});
      ghost var k := Expire(1, {});
    }

    // ------------------------------------------------------------------ opening

    /** From `found` on: the entry goes to the front of the queue, and a file's use is recorded. */
    method Finish(n: Node, of: Want, got: Got) returns (r: Answer)
      requires Holding({n}, {}) && n in index.tree.nodes && n in entries && entries[n].accessed == now && Settled(entries[n], true)
      requires got.err == entries[n].err && (got.err == 0 ==> got.isDir == entries[n].isDir && got.info == entries[n].info)
      requires IsFile(entries[n]) ==> got.fd.Some? && got.fd == entries[n].fd
      modifies this`entries, this`queue, this`leases, this`nextLease
      ensures Valid() && queue == [n] + old(queue)
      ensures forall m | m in old(entries) && m != n :: m in entries && entries[m] == old(entries)[m]
      ensures n in entries && entries[n].(count := 0) == old(entries[n]).(count := 0)
      ensures Answered(r, got, old(nextLease), n, of, old(leases), leases)
    {
      hide Inv, Index.Valid;
      if got.err == 0 && !got.isDir {
        LeaseInv(View(), {n}, {}, now, nextLease, n, got.fd.value, of.minUses);
        entries := entries[n := entries[n].(count := entries[n].count + 1)];
        leases := leases[nextLease := Lease(n, got.fd.value, of.minUses)];
        nextLease := nextLease + 1;
        r := Handed(nextLease - 1, got.fd.value, got.info);
      } else if got.err == 0 {
        r := Directory(got.info);
      } else {
        r := Error(got.err);
      }
      EnqueueInv(View(), {n}, {}, now, n);
      queue := [n] + queue;
      assert {n} - {n} == {};
    }

    /** From `update` on: the entry takes over what was seen. */
    method Update(n: Node, of: Want, got: Got, ghost loose: set<nat>) returns (r: Answer)
      requires Holding({n}, loose) && n in index.tree.nodes && n in entries
      requires (got.err == 0 && !got.isDir) || entries[n].count == 0
      requires got.fd.Some? <==> got.err == 0 && !got.isDir
      requires if got.fd == entries[n].fd then loose == {} else entries[n].fd.None? && loose == {got.fd.value}
      modifies this`entries, this`queue, this`leases, this`nextLease, this`owner
      ensures Valid() && queue == [n] + old(queue)
      ensures forall m | m in old(entries) && m != n :: m in entries && entries[m] == old(entries)[m]
      ensures n in entries && entries[n].(count := 0) == Stored(old(entries[n]), of, got, now).(count := 0)
      ensures Answered(r, got, old(nextLease), n, of, old(leases), leases)
    {
      hide Inv, Index.Valid;
      var e := Stored(entries[n], of, got, now);
      EntryFacts(View(), {n}, loose, now, n);
      if got.fd == entries[n].fd {
        EditInv(View(), {n}, loose, now, n, e);
      } else {
        AdoptInv(View(), {n}, loose, now, n, got.fd.value, e);
        assert loose - {got.fd.value} == {};
        owner := owner[got.fd.value := n];
      }
      entries := entries[n := e];
      r := Finish(n, of, got);
    }

    /** From `create` on: a new entry for a name that is not in the tree. */
    method Create(name: string, of: Want, got: Got, memory: bool, ghost loose: set<nat>) returns (r: Answer, ghost n: Node?)
      requires Holding({}, loose) && max >= 1 && forall m | m in index.tree.nodes :: m.name != name
      requires got.fd.Some? <==> got.err == 0 && !got.isDir
      requires loose == if got.fd.Some? then {got.fd.value} else {}
      modifies this`entries, this`queue, this`current, this`owner, this`closed, this`leases, this`nextLease,
               index.tree`root, index.tree`nodes, index.tree`shape, index.tree.sentinel`parent, index.tree.sentinel`color,
               index.tree.nodes`left, index.tree.nodes`right, index.tree.nodes`parent, index.tree.nodes`color, index.tree.nodes`key
      ensures Valid() && (n == null <==> !memory)
      ensures fresh(index.tree.nodes - old(index.tree.nodes))
      ensures n == null ==> r.Error? && leases == old(leases)
      ensures n != null ==> n.name == name && n in index.tree.nodes && queue != [] && queue[0] == n
      ensures n != null ==> n !in old(entries) && Answered(r, got, old(nextLease), n, of, old(leases), leases)
      ensures old(current) < max && memory ==> current == old(current) + 1 && queue[1..] == old(queue)
    {
      hide Inv, Index.Valid;
      if current >= max {
        QueueNotEmpty(View(), loose, now);
        ghost var k := Expire(0, loose);
      }
      if !memory {
        if got.fd.Some? {
          CloseLoose(got.fd.value, {});
        }
        return Error(got.err), null;
      }
      var file := new Node(name);
      AddEntry(file, got.err, loose);
      r := Update(file, of, got, loose);
      n := file;
    }

    /** Lines 364-391: a new entry in the tree; the fields not stored yet hold anything. */
    method AddEntry(file: Node, err: nat, ghost loose: set<nat>)
      requires Holding({}, loose) && current < max && file !in entries && file != index.tree.sentinel
      requires forall m | m in index.tree.nodes :: m.name != file.name
      modifies this`entries, this`current, index.tree`root, index.tree`nodes, index.tree`shape,
               index.tree.nodes`left, index.tree.nodes`right, index.tree.nodes`parent, index.tree.nodes`color,
               file`key, file`left, file`right, file`parent, file`color
      ensures Holding({file}, loose) && index.tree.nodes == old(index.tree.nodes) + {file} && current == old(current) + 1
      ensures file in entries && entries == old(entries)[file := entries[file]] && entries[file].count == 0 && entries[file].fd == None
    {
      hide Inv, Index.Valid;
      var junk: bool := *;
      var e := Entry(None, err, junk, 0, 0, 0, 0, 0, 1, 0, junk);
      CreateInv(View(), {}, loose, now, file, e);
      QueueFacts(View(), {}, loose, now);
      assert {} + {file} == {file};
      index.Add(file);
      current := current + 1;
      entries := entries[file := e];
    }

    /** From `failed` on, for an entry of the tree that is off the queue. */
    method Fail(n: Node)
      requires Holding({n}, {}) && n in index.tree.nodes && n in entries
      modifies this`entries, this`current, this`owner, this`closed,
               index.tree`root, index.tree`nodes, index.tree`shape, index.tree.sentinel`parent, index.tree.sentinel`color,
               index.tree.nodes`left, index.tree.nodes`right, index.tree.nodes`parent, index.tree.nodes`color, index.tree.nodes`key
      ensures Valid() && index.tree.nodes == old(index.tree.nodes) - {n}
      ensures n in entries <==> old(entries[n].count) > 0
    {
      hide Inv, Index.Valid;
      EntryFacts(View(), {n}, {}, now, n);
      Unindex(n, {n}, {});
      var e := entries[n];
      assert {n} - {n} == {};
      if e.count == 0 {
        if e.fd.Some? {
          CloseEntry(n, {n}, {});
        }
        FreeEntry(n, {n}, {});
      } else {
        Orphan(n, {});
      }
    }

    /** Marks an entry in use, out of the tree, to be closed by its last user. */
    method Orphan(n: Node, ghost loose: set<nat>)
      requires Holding({n}, loose) && n !in index.tree.nodes && n in entries && entries[n].count > 0
      modifies this`entries
      ensures Holding({}, loose) && entries == old(entries)[n := old(entries[n]).(close := true)]
    {
      hide Inv, Index.Valid;
      EntryFacts(View(), {n}, loose, now, n);
      var e := entries[n].(close := true);
      EditInv(View(), {n}, loose, now, n, e);
      entries := entries[n := e];
      SettleInv(View(), {n}, loose, now, n);
      assert {n} - {n} == {};
    }

    /**
     Lines 295-350: the entry is off the queue and the look at the file system gave `got`.  An
     entry whose file changed while it is in use is left to its users, and a new one is made.
     */
    method Renew(n: Node, of: Want, got: Got, memory: bool, ghost loose: set<nat>) returns (r: Answer, ghost n': Node?)
      requires Holding({n}, loose) && n in index.tree.nodes && n in entries && max >= 1
      requires got.fd.Some? <==> got.err == 0 && !got.isDir
      requires if got.fd.Some? && got.fd == entries[n].fd then loose == {} && got.uniq == entries[n].uniq && IsFile(entries[n])
               else (got.fd.Some? ==> loose == {got.fd.value} && (entries[n].fd.Some? ==> got.uniq != entries[n].uniq)) && (got.fd.None? ==> loose == {})
      requires IsFile(entries[n]) ==> entries[n].fd.Some?
      modifies this`entries, this`queue, this`current, this`owner, this`closed, this`leases, this`nextLease,
               index.tree`root, index.tree`nodes, index.tree`shape, index.tree.sentinel`parent, index.tree.sentinel`color,
               index.tree.nodes`left, index.tree.nodes`right, index.tree.nodes`parent, index.tree.nodes`color, index.tree.nodes`key
      ensures Valid() && (n' == null ==> !memory)
      ensures fresh(index.tree.nodes - old(index.tree.nodes))
      ensures n' == null ==> r.Error? && leases == old(leases)
      ensures n' != null ==> n'.name == n.name && n' in index.tree.nodes && queue != [] && queue[0] == n'
      ensures n' != null ==> Answered(r, got, old(nextLease), n', of, old(leases), leases)
      ensures Renews(old(entries[n]), got) || old(entries[n].count) == 0 ==>
        n' == n && n in entries && entries[n].(count := 0) == Stored(old(entries[n]), of, got, now).(count := 0)
      ensures !Renews(old(entries[n]), got) && old(entries[n].count) > 0 ==> n' != n
    {
      hide Inv, Index.Valid, Answered;
      EntryFacts(View(), {n}, loose, now, n);
      var e := entries[n];
      if Renews(e, got) {
        r := Update(n, of, got, loose);
        n' := n;
      } else if e.count == 0 {
        CloseEntry(n, {n}, loose);
        r := Update(n, of, got, loose);
        n' := n;
      } else {
        r, n' := Supersede(n, of, got, memory, loose);
      }
    }

    /** Lines 343-349: the entry is left to its users, and a new one takes its name. */
    method Supersede(n: Node, of: Want, got: Got, memory: bool, ghost loose: set<nat>) returns (r: Answer, ghost n': Node?)
      requires Holding({n}, loose) && n in index.tree.nodes && n in entries && max >= 1 && entries[n].count > 0
      requires got.fd.Some? <==> got.err == 0 && !got.isDir
      requires loose == if got.fd.Some? then {got.fd.value} else {}
      modifies this`entries, this`queue, this`current, this`owner, this`closed, this`leases, this`nextLease,
               index.tree`root, index.tree`nodes, index.tree`shape, index.tree.sentinel`parent, index.tree.sentinel`color,
               index.tree.nodes`left, index.tree.nodes`right, index.tree.nodes`parent, index.tree.nodes`color, index.tree.nodes`key
      ensures Valid() && (n' == null ==> !memory) && n' != n
      ensures fresh(index.tree.nodes - old(index.tree.nodes))
      ensures n' == null ==> r.Error? && leases == old(leases)
      ensures n' != null ==> n'.name == n.name && n' in index.tree.nodes && queue != [] && queue[0] == n'
      ensures n' != null ==> Answered(r, got, old(nextLease), n', of, old(leases), leases)
    {
      hide Inv, Index.Valid, Answered;
      OnlyName(n);
      Unindex(n, {n}, loose);
      Orphan(n, loose);
      r, n' := Create(n.name, of, got, memory, loose);
    }

    lemma OnlyName(n: Node)
      requires index.Valid() && n in index.tree.nodes
      ensures forall m | m in index.tree.nodes && m != n :: m.name != n.name
    {
      forall m | m in index.tree.nodes && m != n ensures m.name != n.name {
        if m.name == n.name { index.UniqueNames(m, n); }
      }
    }

    /** Lines 230-269: a valid entry answers at once. */
    method AnswerHit(n: Node, of: Want) returns (r: Answer)
      requires Holding({n}, {}) && n in index.tree.nodes && n in entries && Hit(entries[n], of, now) && Settled(entries[n], true)
      modifies this`entries, this`queue, this`leases, this`nextLease
      ensures Valid() && queue == [n] + old(queue)
      ensures Answered(r, Remembered(old(entries[n])), old(nextLease), n, of, old(leases), leases)
    {
      hide Inv, Index.Valid;
      EntryFacts(View(), {n}, {}, now, n);
      var e := entries[n].(accessed := now);
      EditInv(View(), {n}, {}, now, n, e);
      entries := entries[n := e];
      r := Finish(n, of, Remembered(e));
    }

    /** Counts a use and takes the entry off the queue. */
    method TakeOff(n: Node)
      requires Valid() && n in index.tree.nodes && n in entries
      modifies this`entries, this`queue
      ensures Holding({n}, {}) && entries == old(entries)[n := old(entries[n]).(uses := old(entries[n].uses) + 1)]
      ensures Settled(entries[n], true)
    {
      hide Inv, Index.Valid;
      EntryFacts(View(), {}, {}, now, n);
      var e := entries[n].(uses := entries[n].uses + 1);
      EditInv(View(), {}, {}, now, n, e);
      entries := entries[n := e];
      DequeueInv(View(), {}, {}, now, n);
      queue := Drop(queue, n);
      assert {} + {n} == {n};
    }

    /** Lines 217-228 and 271-350: the entry, off the queue, is checked against the file system. */
    method Recheck(n: Node, of: Want, sys: System, memory: bool) returns (r: Answer)
      requires Holding({n}, {}) && n in index.tree.nodes && n in entries && max >= 1
      requires entries[n].fd.Some? ==> Plausible(entries[n].uniq, sys)
      modifies this`entries, this`queue, this`current, this`owner, this`closed, this`leases, this`nextLease, this`issued,
               index.tree`root, index.tree`nodes, index.tree`shape, index.tree.sentinel`parent, index.tree.sentinel`color,
               index.tree.nodes`left, index.tree.nodes`right, index.tree.nodes`parent, index.tree.nodes`color, index.tree.nodes`key
      ensures Valid() && Recorded(r, n.name, of) && Grown(r, old(leases), leases, old(nextLease))
      ensures fresh(index.tree.nodes - old(index.tree.nodes))
      ensures memory || !r.Error? ==>
        Replied(r, Look(old(entries[n].fd).Some?, old(entries[n].uniq), of.testDir || old(entries[n].isDir), sys),
                old(entries[n].fd), old(issued), old(nextLease))
    {
      hide Inv, Index.Valid, Look, Plausible, Report, Renews, Stored;
      var e := entries[n];
      EntryFacts(View(), {n}, {}, now, n);
      StoredFd(View(), {n}, {}, now, n);
      ghost var f := issued;
      PlausibleReport(e.fd, e.uniq, of.testDir || e.isDir, sys, f);
      var ok, got := OpenAndStat(e.fd, e.uniq, of.testDir || e.isDir, sys, {n});
      if !ok && (got.err == 0 || !of.errors) {
        Fail(n);
        return Error(got.err);
      }
      if e.fd.None? && IsFile(e) {
        r := Update(n, of, got, if got.fd.Some? then {f} else {});
      } else {
        ghost var n';
        r, n' := Renew(n, of, got, memory, if got.fd.Some? && got.fd != e.fd then {f} else {});
      }
    }

    /** The part of ngx_open_cached_file for a name in the tree. */
    method OpenFound(n: Node, of: Want, sys: System, memory: bool) returns (r: Answer)
      requires Valid() && n in index.tree.nodes && n in entries && max >= 1
      requires entries[n].fd.Some? && !Hit(entries[n], of, now) ==> Plausible(entries[n].uniq, sys)
      modifies this`entries, this`queue, this`current, this`owner, this`closed, this`leases, this`nextLease, this`issued,
               index.tree`root, index.tree`nodes, index.tree`shape, index.tree.sentinel`parent, index.tree.sentinel`color,
               index.tree.nodes`left, index.tree.nodes`right, index.tree.nodes`parent, index.tree.nodes`color, index.tree.nodes`key
      ensures Valid() && Recorded(r, n.name, of) && Grown(r, old(leases), leases, old(nextLease))
      ensures fresh(index.tree.nodes - old(index.tree.nodes))
      ensures Hit(old(entries[n]), of, now) ==> Replied(r, Recalled(old(entries[n])), old(entries[n].fd), old(issued), old(nextLease))
      ensures !Hit(old(entries[n]), of, now) && (memory || !r.Error?) ==>
        Replied(r, Look(old(entries[n].fd).Some?, old(entries[n].uniq), of.testDir || old(entries[n].isDir), sys),
                old(entries[n].fd), old(issued), old(nextLease))
    {
      hide Inv, Index.Valid, Look, Plausible;
      TakeOff(n);
      if Hit(entries[n], of, now) {
        EntryFacts(View(), {n}, {}, now, n);
        r := AnswerHit(n, of);
      } else {
        r := Recheck(n, of, sys, memory);
      }
    }

    /**
     ngx_open_cached_file.  A name whose entry is valid is answered from the cache, any other by a
     look at the file system; leases already held are left alone.
     */
    method Open(name: string, of: Want, sys: System, t: int, memory: bool) returns (r: Answer, ghost n: Node?)
      requires Valid() && now <= t && max >= 1
      requires forall m | m in index.tree.nodes && m.name == name :: (m in entries &&
        (entries[m].fd.Some? && !Hit(entries[m], of, t) ==> Plausible(entries[m].uniq, sys)))
      modifies this`entries, this`queue, this`current, this`owner, this`closed, this`leases, this`nextLease, this`issued, this`now,
               index.tree`root, index.tree`nodes, index.tree`shape, index.tree.sentinel`parent, index.tree.sentinel`color,
               index.tree.nodes`left, index.tree.nodes`right, index.tree.nodes`parent, index.tree.nodes`color, index.tree.nodes`key
      ensures Valid() && now == t && Recorded(r, name, of) && Grown(r, old(leases), leases, old(nextLease))
      ensures fresh(index.tree.nodes - old(index.tree.nodes))
      ensures n == null <==> forall m | m in old(index.tree.nodes) :: m.name != name
      ensures n != null ==> n in old(index.tree.nodes) && n.name == name && n in old(entries)
      ensures n == null && (memory || !r.Error?) ==>
        Replied(r, Look(false, of.uniq, of.testDir, sys), None, old(issued), old(nextLease))
      ensures n != null && Hit(old(entries)[n], of, t) ==>
        Replied(r, Recalled(old(entries)[n]), old(entries)[n].fd, old(issued), old(nextLease))
      ensures n != null && !Hit(old(entries)[n], of, t) && (memory || !r.Error?) ==>
        Replied(r, Look(old(entries)[n].fd.Some?, old(entries)[n].uniq, of.testDir || old(entries)[n].isDir, sys),
                old(entries)[n].fd, old(issued), old(nextLease))
    {
      hide Inv, Index.Valid, Look, Plausible, Report;
      LaterInv(View(), {}, {}, now, t);
      now := t;
      var file := index.Find(name);
      n := file;
      if file != null {
        r := OpenFound(file, of, sys, memory);
        return;
      }
      PlausibleReport(None, of.uniq, of.testDir, sys, issued);
      var ok, got := OpenAndStat(None, of.uniq, of.testDir, sys, {});
      if !ok && (got.err == 0 || !of.errors) {
        return Error(got.err), n;
      }
      ghost var made;
      r, made := Create(name, of, got, memory, if got.fd.Some? then {got.fd.value} else {});
    }

    /**
     Every run of requests and cleanups, with any answers of the operating system: a descriptor
     handed to a request is open and belongs to its entry until that request's cleanup.
     */
    method Serve(script: seq<Request>) returns (held: map<nat, nat>)
      requires Valid() && max >= 1 && leases == map[]
      modifies this`entries, this`queue, this`current, this`owner, this`closed, this`leases, this`nextLease, this`issued, this`now,
               index.tree`root, index.tree`nodes, index.tree`shape, index.tree.sentinel`parent, index.tree.sentinel`color,
               index.tree.nodes`left, index.tree.nodes`right, index.tree.nodes`parent, index.tree.nodes`color, index.tree.nodes`key
      ensures Valid() && held.Keys == leases.Keys
      ensures forall id | id in held :: leases[id].fd == held[id] && InUse(View(), held[id], leases[id].file)
    {
      hide Inv, Index.Valid, Plausible, InUse;
      held := map[];
      for i := 0 to |script|
        invariant Valid() && fresh(index.tree.nodes - old(index.tree.nodes))
        invariant held.Keys == leases.Keys && forall id | id in held :: leases[id].fd == held[id]
      {
        match script[i] {
          case Ask(name, of, sys, wait, memory) =>
            var n := index.Find(name);
            QueueFacts(View(), {}, {}, now);
            if n != null { OnlyName(n); }
            if n == null || entries[n].fd.None? || Hit(entries[n], of, now + wait) || Plausible(entries[n].uniq, sys) {
              var r, n' := Open(name, of, sys, now + wait, memory);
              if r.Handed? {
                held := held[r.lease := r.fd];
              }
            }
          case Done(id, wait) =>
            if id in leases {
              Cleanup(id, now + wait);
              held := held - {id};
            }
        }
      }
      forall id | id in held ensures InUse(View(), held[id], leases[id].file) {
        LeasedStaysOpen(View(), now, id);
      }
    }
  }

  lemma QueueNotEmpty(st: State, loose: set<nat>, now: int)
    requires Inv(st, {}, loose, now) && st.current > 0
    ensures st.queue != []
  {
    assert st.queue == [] ==> st.indexed == {};
  }
}
