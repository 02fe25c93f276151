/**
 The data of the open-file cache and the invariant over its entries, its queue, the leases that
 requests hold and the descriptors it opened.

 An entry is named by its tree node.  A descriptor is a token: each successful open gives a new
 one, so that closing one twice, or losing one, can be told.
 */
module CacheState {
  import opened Wrappers
  import opened RbLinks

  datatype Entry = Entry(fd: Option<nat>, err: nat, isDir: bool, uniq: nat, info: nat, symlinks: nat,
                         created: int, accessed: int, uses: nat, count: nat, close: bool)

  /** What a request keeps until its pool is destroyed. */
  datatype Lease = Lease(file: Node, fd: nat, minUses: nat)

  datatype State = State(entries: map<Node, Entry>, indexed: set<Node>, queue: seq<Node>, current: nat,
                         leases: map<nat, Lease>, owner: map<nat, Node>, closed: set<nat>, issued: nat)

  /** A regular file that is cached; the other entries are cached errors and directories. */
  predicate IsFile(e: Entry) { e.err == 0 && !e.isDir }

  ghost predicate EntryOk(e: Entry) {
    && (!IsFile(e) ==> e.fd.None? && e.count == 0)
    && (e.count > 0 ==> e.fd.Some?)
  }

  /** An entry outside the tree is an orphan: a file kept only for those who use it. */
  ghost predicate Settled(e: Entry, indexed: bool) {
    if indexed then e.err == 0 ==> !e.close else IsFile(e) && e.close && e.count > 0
  }

  type Entries = map<Node, Entry>

  ghost predicate EntriesOk(entries: Entries, indexed: set<Node>, busy: set<Node>) {
    && indexed <= entries.Keys && busy <= entries.Keys
    && (forall n | n in entries :: EntryOk(entries[n]))
    && (forall n | n in entries && n !in busy :: Settled(entries[n], n in indexed))
  }

  /** Every open descriptor has exactly one owner, an entry that holds it. */
  ghost predicate OwnersOk(entries: Entries, owner: map<nat, Node>) {
    && (forall f | f in owner :: owner[f] in entries && entries[owner[f]].fd == Some(f))
    && (forall n | n in entries && entries[n].fd.Some? :: Owns(owner, n, entries[n].fd.value))
  }

  predicate Owns(owner: map<nat, Node>, n: Node, f: nat) { f in owner && owner[f] == n }

  /** A descriptor issued so far is open and owned, closed, or `loose`: opened but not stored yet. */
  ghost predicate FdsOk(owner: map<nat, Node>, closed: set<nat>, loose: set<nat>, issued: nat) {
    && owner.Keys !! closed && owner.Keys !! loose && closed !! loose
    && (forall f: nat :: f < issued <==> f in owner || f in closed || f in loose)
  }

  ghost function Holders(leases: map<nat, Lease>, n: Node): set<nat> {
    set l | l in leases && leases[l].file == n
  }

  /** A leased descriptor is the one its entry still has, and entries count their leases. */
  ghost predicate LeasesOk(entries: Entries, leases: map<nat, Lease>) {
    && (forall l | l in leases :: leases[l].file in entries && entries[leases[l].file].fd == Some(leases[l].fd))
    && (forall n | n in entries :: |Holders(leases, n)| == entries[n].count)
  }

  /** The queue holds the entries of the tree that are not being worked on, once each. */
  ghost predicate ListsOk(indexed: set<Node>, queue: seq<Node>, busy: set<Node>, current: nat) {
    && (forall i, j | 0 <= i < j < |queue| :: queue[i] != queue[j])
    && (forall n | n in queue :: n in indexed && n !in busy)
    && (forall n | n in indexed && n !in busy :: n in queue)
    && current == |indexed|
  }

  /** Most recently used first. */
  ghost predicate ByAccess(entries: Entries, queue: seq<Node>, now: int) {
    && (forall i | 0 <= i < |queue| :: queue[i] in entries && entries[queue[i]].accessed <= now)
    && (forall i, j | 0 <= i < j < |queue| :: entries[queue[j]].accessed <= entries[queue[i]].accessed)
  }

  /** The invariant while the entries in `busy` are being worked on. */
  ghost predicate Inv(st: State, busy: set<Node>, loose: set<nat>, now: int) {
    && EntriesOk(st.entries, st.indexed, busy)
    && OwnersOk(st.entries, st.owner) && FdsOk(st.owner, st.closed, loose, st.issued)
    && LeasesOk(st.entries, st.leases)
    && ListsOk(st.indexed, st.queue, busy, st.current) && ByAccess(st.entries, st.queue, now)
  }

  // ------------------------------------------------------------------ one entry changes

  lemma OwnersSame(entries: Entries, owner: map<nat, Node>, n: Node, e: Entry)
    requires OwnersOk(entries, owner) && n in entries && e.fd == entries[n].fd
    ensures OwnersOk(entries[n := e], owner)
  {
    var es := entries[n := e];
    forall m | m in es && es[m].fd.Some? ensures Owns(owner, m, es[m].fd.value) {
      assert Owns(owner, m, entries[m].fd.value);
    }
  }

  lemma LeasesSame(entries: Entries, leases: map<nat, Lease>, n: Node, e: Entry)
    requires LeasesOk(entries, leases) && n in entries && e.fd == entries[n].fd && e.count == entries[n].count
    ensures LeasesOk(entries[n := e], leases)
  {
    var es := entries[n := e];
    forall m | m in es ensures |Holders(leases, m)| == es[m].count { assert |Holders(leases, m)| == entries[m].count; }
  }

  lemma AccessSame(entries: Entries, queue: seq<Node>, now: int, n: Node, e: Entry)
    requires ByAccess(entries, queue, now) && n in entries && (n in queue ==> e.accessed == entries[n].accessed)
    ensures ByAccess(entries[n := e], queue, now)
  {
    var es := entries[n := e];
    forall i | 0 <= i < |queue| ensures queue[i] in es && es[queue[i]].accessed == entries[queue[i]].accessed {
      assert queue[i] in queue;
    }
  }

  function SetEntry(st: State, n: Node, e: Entry): State { st.(entries := st.entries[n := e]) }

  /** An entry changes without touching descriptor, use count or place in the queue. */
  lemma EditInv(st: State, busy: set<Node>, loose: set<nat>, now: int, n: Node, e: Entry)
    requires Inv(st, busy, loose, now) && n in st.entries
    requires e.fd == st.entries[n].fd && e.count == st.entries[n].count && EntryOk(e)
    requires n in busy || (e.accessed == st.entries[n].accessed && Settled(e, n in st.indexed))
    ensures Inv(SetEntry(st, n, e), busy, loose, now)
  {
    hide OwnersOk, FdsOk, LeasesOk, ByAccess;
    OwnersSame(st.entries, st.owner, n, e);
    LeasesSame(st.entries, st.leases, n, e);
    AccessSame(st.entries, st.queue, now, n, e);
  }

  // ---------------------------------------------------------------------- the queue

  /** `q` without `n`. */
  function Drop(q: seq<Node>, n: Node): (r: seq<Node>)
    ensures forall m | m in r :: m in q && m != n
    ensures forall m | m in q && m != n :: m in r
  {
    if q == [] then [] else if q[0] == n then Drop(q[1..], n) else [q[0]] + Drop(q[1..], n)
  }

  ghost predicate Distinct(q: seq<Node>) { forall i, j | 0 <= i < j < |q| :: q[i] != q[j] }

  lemma DistinctTail(q: seq<Node>)
    requires q != [] && Distinct(q)
    ensures Distinct(q[1..]) && q[0] !in q[1..]
  {
  }

  lemma {:induction false} DropDistinct(q: seq<Node>, n: Node)
    requires Distinct(q)
    ensures Distinct(Drop(q, n))
  {
    if q != [] {
      DistinctTail(q);
      DropDistinct(q[1..], n);
      var r := Drop(q[1..], n);
      if q[0] != n { assert forall i | 0 < i <= |r| :: ([q[0]] + r)[i] == r[i - 1] && r[i - 1] in r; }
    }
  }

  lemma {:induction false} DropAccess(entries: Entries, q: seq<Node>, now: int, n: Node)
    requires ByAccess(entries, q, now)
    ensures ByAccess(entries, Drop(q, n), now)
  {
    if q != [] {
      var p := q[1..];
      assert ByAccess(entries, p, now) by { assert forall i | 0 <= i < |p| :: p[i] == q[i + 1]; }
      DropAccess(entries, p, now, n);
      var r := Drop(p, n);
      if q[0] != n {
        forall x | x in p ensures x in entries && entries[x].accessed <= entries[q[0]].accessed {
          var k :| 0 <= k < |p| && p[k] == x;
          assert q[k + 1] == x;
        }
        AccessFront(entries, r, now, q[0]);
      }
    }
  }

  lemma AccessFront(entries: Entries, q: seq<Node>, now: int, n: Node)
    requires ByAccess(entries, q, now) && n in entries && entries[n].accessed <= now
    requires forall x | x in q :: x in entries && entries[x].accessed <= entries[n].accessed
    ensures ByAccess(entries, [n] + q, now)
  {
    var r := [n] + q;
    forall i | 0 < i < |r| ensures r[i] == q[i - 1] && r[i] in q { }
  }

  lemma {:induction false} DropLast(q: seq<Node>)
    requires Distinct(q) && q != []
    ensures Drop(q, q[|q| - 1]) == q[..|q| - 1]
  {
    if |q| > 1 {
      var p := q[1..];
      DistinctTail(q);
      DropLast(p);
      assert p[|p| - 1] == q[|q| - 1] && p[|p| - 1] in p;
      assert q[..|q| - 1] == [q[0]] + p[..|p| - 1];
    }
  }

  function Queued(st: State, q: seq<Node>): State { st.(queue := q) }

  lemma DequeueInv(st: State, busy: set<Node>, loose: set<nat>, now: int, n: Node)
    requires Inv(st, busy, loose, now) && n in st.queue
    ensures Inv(Queued(st, Drop(st.queue, n)), busy + {n}, loose, now)
  {
    hide OwnersOk, FdsOk, LeasesOk, ByAccess, Drop;
    assert Distinct(st.queue);
    DropDistinct(st.queue, n);
    DropAccess(st.entries, st.queue, now, n);
  }

  /** The entry used now goes to the front of the queue. */
  lemma EnqueueInv(st: State, busy: set<Node>, loose: set<nat>, now: int, n: Node)
    requires Inv(st, busy, loose, now) && n in busy && n in st.indexed && Settled(st.entries[n], true) && st.entries[n].accessed == now
    ensures Inv(Queued(st, [n] + st.queue), busy - {n}, loose, now)
  {
    hide OwnersOk, FdsOk, LeasesOk, ByAccess;
    assert n !in st.queue;
    AllPast(st.entries, st.queue, now);
    AccessFront(st.entries, st.queue, now, n);
    assert Distinct(st.queue);
    FrontDistinct(st.queue, n);
    assert Distinct([n] + st.queue);
  }

  lemma FrontDistinct(q: seq<Node>, n: Node)
    requires Distinct(q) && n !in q
    ensures Distinct([n] + q)
  {
  }

  lemma AllPast(entries: Entries, queue: seq<Node>, now: int)
    requires ByAccess(entries, queue, now)
    ensures forall x | x in queue :: x in entries && entries[x].accessed <= now
  {
  }

  // ------------------------------------------------------------- leases and descriptors

  lemma NoHolder(leases: map<nat, Lease>, n: Node)
    requires |Holders(leases, n)| == 0
    ensures forall l | l in leases :: leases[l].file != n
  {
    forall l | l in leases ensures leases[l].file != n {
      assert l !in Holders(leases, n);
    }
  }

  /** An entry without leases loses its descriptor, which is closed. */
  function Closed(st: State, n: Node, f: nat): State
    requires n in st.entries
  {
    st.(entries := st.entries[n := st.entries[n].(fd := None)], owner := st.owner - {f}, closed := st.closed + {f})
  }

  lemma CloseInv(st: State, busy: set<Node>, loose: set<nat>, now: int, n: Node, f: nat)
    requires Inv(st, busy, loose, now) && n in st.entries && st.entries[n].fd == Some(f) && st.entries[n].count == 0
    ensures Inv(Closed(st, n, f), busy, loose, now)
    ensures f in st.owner && f !in st.closed && forall l | l in st.leases :: st.leases[l].fd != f
  {
    hide ByAccess, OwnersOk, LeasesOk, Holders;
    var e := st.entries[n].(fd := None);
    AccessSame(st.entries, st.queue, now, n, e);
    Unleased(st.entries, st.leases, st.owner, n, f);
    LeasesAfterClose(st.entries, st.leases, n);
    OwnersAfterClose(st.entries, st.owner, n, f);
  }

  /** The descriptor of an entry that nobody uses is leased to nobody. */
  lemma Unleased(entries: Entries, leases: map<nat, Lease>, owner: map<nat, Node>, n: Node, f: nat)
    requires OwnersOk(entries, owner) && LeasesOk(entries, leases) && n in entries && entries[n].fd == Some(f) && entries[n].count == 0
    ensures f in owner && forall l | l in leases :: leases[l].fd != f && leases[l].file != n
  {
    assert Owns(owner, n, f);
    assert |Holders(leases, n)| == 0;
    NoHolder(leases, n);
    forall l | l in leases ensures leases[l].fd != f {
      assert Owns(owner, leases[l].file, leases[l].fd);
    }
  }

  lemma LeasesAfterClose(entries: Entries, leases: map<nat, Lease>, n: Node)
    requires LeasesOk(entries, leases) && n in entries && entries[n].count == 0 && forall l | l in leases :: leases[l].file != n
    ensures LeasesOk(entries[n := entries[n].(fd := None)], leases)
  {
    var es := entries[n := entries[n].(fd := None)];
    forall m | m in es ensures |Holders(leases, m)| == es[m].count { assert |Holders(leases, m)| == entries[m].count; }
  }

  lemma OwnersAfterClose(entries: Entries, owner: map<nat, Node>, n: Node, f: nat)
    requires OwnersOk(entries, owner) && n in entries && entries[n].fd == Some(f)
    ensures OwnersOk(entries[n := entries[n].(fd := None)], owner - {f})
  {
    var es, os := entries[n := entries[n].(fd := None)], owner - {f};
    assert Owns(owner, n, f);
    forall m | m in es && es[m].fd.Some? ensures Owns(os, m, es[m].fd.value) {
      assert Owns(owner, m, entries[m].fd.value);
    }
  }

  /** A loose descriptor is stored in an entry that has none. */
  function Adopted(st: State, n: Node, f: nat, e: Entry): State {
    st.(entries := st.entries[n := e], owner := st.owner[f := n])
  }

  lemma AdoptInv(st: State, busy: set<Node>, loose: set<nat>, now: int, n: Node, f: nat, e: Entry)
    requires Inv(st, busy, loose, now) && n in busy && n in st.entries && f in loose
    requires st.entries[n].fd.None? && e.fd == Some(f) && e.count == st.entries[n].count && EntryOk(e)
    ensures Inv(Adopted(st, n, f, e), busy, loose - {f}, now)
  {
    hide ByAccess, OwnersOk, LeasesOk;
    AccessSame(st.entries, st.queue, now, n, e);
    OwnersAfterAdopt(st.entries, st.owner, n, f, e);
    LeasesAfterAdopt(st.entries, st.leases, n, e);
  }

  lemma OwnersAfterAdopt(entries: Entries, owner: map<nat, Node>, n: Node, f: nat, e: Entry)
    requires OwnersOk(entries, owner) && n in entries && entries[n].fd.None? && e.fd == Some(f) && f !in owner
    ensures OwnersOk(entries[n := e], owner[f := n])
  {
    var es, os := entries[n := e], owner[f := n];
    forall m | m in es && es[m].fd.Some? ensures Owns(os, m, es[m].fd.value) {
      if m != n { assert Owns(owner, m, entries[m].fd.value); }
    }
  }

  lemma LeasesAfterAdopt(entries: Entries, leases: map<nat, Lease>, n: Node, e: Entry)
    requires LeasesOk(entries, leases) && n in entries && entries[n].fd.None? && e.count == entries[n].count
    ensures LeasesOk(entries[n := e], leases)
  {
    hide Holders;
    var es := entries[n := e];
    forall m | m in es ensures |Holders(leases, m)| == es[m].count { assert |Holders(leases, m)| == entries[m].count; }
  }

  function Issued(st: State): State { st.(issued := st.issued + 1) }

  lemma IssueInv(st: State, busy: set<Node>, loose: set<nat>, now: int)
    requires Inv(st, busy, loose, now)
    ensures Inv(Issued(st), busy, loose + {st.issued}, now)
  {
    hide ByAccess, OwnersOk, LeasesOk, ListsOk, EntriesOk;
  }

  function Discarded(st: State, f: nat): State { st.(closed := st.closed + {f}) }

  lemma DiscardInv(st: State, busy: set<Node>, loose: set<nat>, now: int, f: nat)
    requires Inv(st, busy, loose, now) && f in loose
    ensures Inv(Discarded(st, f), busy, loose - {f}, now) && f !in st.owner && f !in st.closed
  {
    hide ByAccess, OwnersOk, LeasesOk, ListsOk, EntriesOk;
  }

  function Leased(st: State, id: nat, n: Node, f: nat, minUses: nat): State
    requires n in st.entries
  {
    st.(entries := st.entries[n := st.entries[n].(count := st.entries[n].count + 1)], leases := st.leases[id := Lease(n, f, minUses)])
  }

  lemma LeaseInv(st: State, busy: set<Node>, loose: set<nat>, now: int, id: nat, n: Node, f: nat, minUses: nat)
    requires Inv(st, busy, loose, now) && n in st.entries && IsFile(st.entries[n]) && st.entries[n].fd == Some(f) && id !in st.leases
    ensures Inv(Leased(st, id, n, f, minUses), busy, loose, now)
  {
    hide ByAccess, OwnersOk, FdsOk, LeasesOk;
    var e := st.entries[n].(count := st.entries[n].count + 1);
    AccessSame(st.entries, st.queue, now, n, e);
    OwnersSame(st.entries, st.owner, n, e);
    LeasesAfterLease(st.entries, st.leases, id, Lease(n, f, minUses));
  }

  lemma MoreHolders(leases: map<nat, Lease>, id: nat, l: Lease, m: Node)
    requires id !in leases
    ensures |Holders(leases[id := l], m)| == |Holders(leases, m)| + if l.file == m then 1 else 0
  {
    var ls := leases[id := l];
    assert id !in Holders(leases, m);
    if l.file == m {
      assert Holders(ls, m) == Holders(leases, m) + {id};
    } else {
      assert Holders(ls, m) == Holders(leases, m);
    }
  }

  lemma FewerHolders(leases: map<nat, Lease>, id: nat, m: Node)
    requires id in leases
    ensures |Holders(leases - {id}, m)| == |Holders(leases, m)| - if leases[id].file == m then 1 else 0
  {
    var ls := leases - {id};
    if leases[id].file == m {
      assert Holders(ls, m) == Holders(leases, m) - {id} && id in Holders(leases, m);
    } else {
      assert Holders(ls, m) == Holders(leases, m);
    }
  }

  lemma SomeHolder(leases: map<nat, Lease>, id: nat)
    requires id in leases
    ensures |Holders(leases, leases[id].file)| > 0
  {
    assert id in Holders(leases, leases[id].file);
  }

  lemma LeasesAfterReturn(entries: Entries, leases: map<nat, Lease>, id: nat)
    requires LeasesOk(entries, leases) && id in leases && entries[leases[id].file].count > 0
    ensures var n := leases[id].file; LeasesOk(entries[n := entries[n].(count := entries[n].count - 1)], leases - {id})
  {
    hide Holders;
    var n := leases[id].file;
    var es, ls := entries[n := entries[n].(count := entries[n].count - 1)], leases - {id};
    forall m | m in es ensures |Holders(ls, m)| == es[m].count {
      assert |Holders(leases, m)| == entries[m].count;
      FewerHolders(leases, id, m);
    }
  }

  lemma LeasesAfterLease(entries: Entries, leases: map<nat, Lease>, id: nat, l: Lease)
    requires LeasesOk(entries, leases) && id !in leases && l.file in entries && entries[l.file].fd == Some(l.fd)
    ensures LeasesOk(entries[l.file := entries[l.file].(count := entries[l.file].count + 1)], leases[id := l])
  {
    hide Holders;
    var n := l.file;
    var es, ls := entries[n := entries[n].(count := entries[n].count + 1)], leases[id := l];
    forall m | m in es ensures |Holders(ls, m)| == es[m].count {
      assert |Holders(leases, m)| == entries[m].count;
      MoreHolders(leases, id, l, m);
    }
  }

  function Returned(st: State, id: nat): State
    requires id in st.leases && st.leases[id].file in st.entries && st.entries[st.leases[id].file].count > 0
  {
    var n := st.leases[id].file;
    st.(entries := st.entries[n := st.entries[n].(count := st.entries[n].count - 1)], leases := st.leases - {id})
  }

  /** A lease ends; an orphan may then have none left. */
  lemma ReturnInv(st: State, loose: set<nat>, now: int, id: nat)
    requires Inv(st, {}, loose, now) && id in st.leases
    ensures st.leases[id].file in st.entries && st.entries[st.leases[id].file].count > 0
    ensures st.entries[st.leases[id].file].fd == Some(st.leases[id].fd)
    ensures Inv(Returned(st, id), if st.leases[id].file in st.indexed then {} else {st.leases[id].file}, loose, now)
  {
    hide ByAccess, OwnersOk, FdsOk, Holders;
    var n := st.leases[id].file;
    SomeHolder(st.leases, id);
    assert |Holders(st.leases, n)| == st.entries[n].count;
    var e := st.entries[n].(count := st.entries[n].count - 1);
    AccessSame(st.entries, st.queue, now, n, e);
    OwnersSame(st.entries, st.owner, n, e);
    LeasesAfterReturn(st.entries, st.leases, id);
  }

  // ------------------------------------------------------------------ life of an entry

  function Unindexed(st: State, n: Node): State
    requires st.current > 0
  {
    st.(indexed := st.indexed - {n}, current := st.current - 1)
  }

  lemma UnindexInv(st: State, busy: set<Node>, loose: set<nat>, now: int, n: Node)
    requires Inv(st, busy, loose, now) && n in busy && n in st.indexed
    ensures st.current > 0 && Inv(Unindexed(st, n), busy, loose, now)
  {
    hide ByAccess, OwnersOk, FdsOk, LeasesOk;
    assert st.indexed == (st.indexed - {n}) + {n};
  }

  function Forgotten(st: State, n: Node): State { st.(entries := st.entries - {n}) }

  /** An entry out of the tree, without descriptor and leases, is freed. */
  lemma ForgetInv(st: State, busy: set<Node>, loose: set<nat>, now: int, n: Node)
    requires Inv(st, busy, loose, now) && n in busy && n !in st.indexed && st.entries[n].fd.None?
    ensures Inv(Forgotten(st, n), busy - {n}, loose, now)
  {
    hide FdsOk, ByAccess, OwnersOk, LeasesOk, Holders;
    OwnersAfterForget(st.entries, st.owner, n);
    LeasesAfterForget(st.entries, st.leases, n);
    AccessAfterForget(st.entries, st.queue, now, n);
  }

  lemma OwnersAfterForget(entries: Entries, owner: map<nat, Node>, n: Node)
    requires OwnersOk(entries, owner) && n in entries && entries[n].fd.None?
    ensures OwnersOk(entries - {n}, owner)
  {
    var es := entries - {n};
    forall m | m in es && es[m].fd.Some? ensures Owns(owner, m, es[m].fd.value) { assert Owns(owner, m, entries[m].fd.value); }
  }

  lemma LeasesAfterForget(entries: Entries, leases: map<nat, Lease>, n: Node)
    requires LeasesOk(entries, leases) && n in entries && entries[n].fd.None?
    ensures LeasesOk(entries - {n}, leases)
  {
    hide Holders;
    var es := entries - {n};
    forall m | m in es ensures |Holders(leases, m)| == es[m].count { assert |Holders(leases, m)| == entries[m].count; }
  }

  lemma AccessAfterForget(entries: Entries, queue: seq<Node>, now: int, n: Node)
    requires ByAccess(entries, queue, now) && n !in queue
    ensures ByAccess(entries - {n}, queue, now)
  {
    forall i | 0 <= i < |queue| ensures queue[i] in entries - {n} { assert queue[i] in queue; }
  }

  lemma SettleInv(st: State, busy: set<Node>, loose: set<nat>, now: int, n: Node)
    requires Inv(st, busy, loose, now) && n in busy && n !in st.indexed && Settled(st.entries[n], false)
    ensures Inv(st, busy - {n}, loose, now)
  {
    hide ByAccess, OwnersOk, FdsOk, LeasesOk;
  }

  function Created(st: State, n: Node, e: Entry): State {
    st.(entries := st.entries[n := e], indexed := st.indexed + {n}, current := st.current + 1)
  }

  lemma CreateInv(st: State, busy: set<Node>, loose: set<nat>, now: int, n: Node, e: Entry)
    requires Inv(st, busy, loose, now) && n !in st.entries && e.fd.None? && e.count == 0
    ensures Inv(Created(st, n, e), busy + {n}, loose, now)
  {
    hide FdsOk, OwnersOk, LeasesOk, ByAccess, ListsOk;
    assert n !in st.indexed;
    EntriesAfterCreate(st.entries, st.indexed, busy, n, e);
    ListsAfterCreate(st.indexed, st.queue, busy, st.current, n);
    OwnersAfterCreate(st.entries, st.owner, n, e);
    LeasesAfterCreate(st.entries, st.leases, n, e);
    AccessAfterCreate(st.entries, st.queue, now, n, e);
  }

  lemma EntriesAfterCreate(entries: Entries, indexed: set<Node>, busy: set<Node>, n: Node, e: Entry)
    requires EntriesOk(entries, indexed, busy) && EntryOk(e)
    ensures EntriesOk(entries[n := e], indexed + {n}, busy + {n})
  {
    hide EntryOk, Settled;
  }

  lemma ListsAfterCreate(indexed: set<Node>, queue: seq<Node>, busy: set<Node>, current: nat, n: Node)
    requires ListsOk(indexed, queue, busy, current) && n !in indexed
    ensures ListsOk(indexed + {n}, queue, busy + {n}, current + 1)
  {
  }

  lemma OwnersAfterCreate(entries: Entries, owner: map<nat, Node>, n: Node, e: Entry)
    requires OwnersOk(entries, owner) && n !in entries && e.fd.None?
    ensures OwnersOk(entries[n := e], owner)
  {
    var es := entries[n := e];
    forall m | m in es && es[m].fd.Some? ensures Owns(owner, m, es[m].fd.value) { assert Owns(owner, m, entries[m].fd.value); }
  }

  lemma LeasesAfterCreate(entries: Entries, leases: map<nat, Lease>, n: Node, e: Entry)
    requires LeasesOk(entries, leases) && n !in entries && e.count == 0
    ensures LeasesOk(entries[n := e], leases)
  {
    assert Holders(leases, n) == {};
    var es := entries[n := e];
    forall m | m in es && m != n ensures |Holders(leases, m)| == es[m].count { assert |Holders(leases, m)| == entries[m].count; }
  }

  lemma AccessAfterCreate(entries: Entries, queue: seq<Node>, now: int, n: Node, e: Entry)
    requires ByAccess(entries, queue, now) && n !in entries
    ensures ByAccess(entries[n := e], queue, now)
  {
  }

  /** The clock advances. */
  lemma LaterInv(st: State, busy: set<Node>, loose: set<nat>, now: int, later: int)
    requires Inv(st, busy, loose, now) && now <= later
    ensures Inv(st, busy, loose, later)
  {
    hide OwnersOk, FdsOk, LeasesOk, ListsOk, EntriesOk;
  }

  lemma EntryFacts(st: State, busy: set<Node>, loose: set<nat>, now: int, n: Node)
    requires Inv(st, busy, loose, now) && n in st.entries
    ensures EntryOk(st.entries[n]) && (n !in busy ==> Settled(st.entries[n], n in st.indexed))
    ensures n in st.queue <==> n in st.indexed && n !in busy
  {
  }

  /** A stored descriptor was issued before. */
  lemma StoredFd(st: State, busy: set<Node>, loose: set<nat>, now: int, n: Node)
    requires Inv(st, busy, loose, now) && n in st.entries
    ensures st.entries[n].fd.Some? ==> st.entries[n].fd.value < st.issued
  {
    if st.entries[n].fd.Some? { assert Owns(st.owner, n, st.entries[n].fd.value); }
  }

  lemma QueueFacts(st: State, busy: set<Node>, loose: set<nat>, now: int)
    requires Inv(st, busy, loose, now)
    ensures forall n | n in st.queue :: n in st.indexed && n !in busy && n in st.entries
    ensures st.indexed <= st.entries.Keys
    ensures Distinct(st.queue)
  {
  }

  lemma EmptyInv(st: State, now: int)
    requires st == State(map[], {}, [], 0, map[], map[], {}, 0)
    ensures Inv(st, {}, {}, now)
  {
  }
}
