/**
 Buffers and chains of the output chain, and the invariant over all of them.

 A chain is the sequence of the buffers on its links; a buffer is known by its number in the
 store.  The bytes of a buffer are those not yet consumed: in memory if it is there, else in its
 file.
 */
module ChainState {
  import opened Wrappers
  import opened Words
  import opened Strings

  type Id = nat

  datatype Buf = Buf(mem: seq<Byte>, pos: nat, last: nat, file: seq<Byte>, filePos: nat, fileLast: nat,
                     temporary: bool, memory: bool, mmap: bool, inFile: bool,
                     flush: bool, sync: bool, lastBuf: bool, lastInChain: bool, own: bool)

  predicate InMemory(b: Buf) { b.temporary || b.memory || b.mmap }

  /** A buffer that carries a flag and no data. */
  predicate Special(b: Buf) { (b.flush || b.lastBuf || b.sync) && !InMemory(b) && !b.inFile }

  predicate BufOk(b: Buf) {
    && b.pos <= b.last <= |b.mem| && b.filePos <= b.fileLast <= |b.file|
    && (InMemory(b) && b.inFile ==> b.fileLast - b.filePos == b.last - b.pos)
    && (!InMemory(b) && !b.inFile ==> b.filePos == b.fileLast)
    && (b.own ==> b.temporary && |b.mem| > 0)
  }

  function Size(b: Buf): int { if InMemory(b) then b.last - b.pos else b.fileLast - b.filePos }

  function Content(b: Buf): seq<Byte> {
    if !BufOk(b) then [] else if InMemory(b) then b.mem[b.pos..b.last] else b.file[b.filePos..b.fileLast]
  }

  /** The first `n` bytes of a buffer are consumed. */
  function Advance(b: Buf, n: nat): Buf {
    if InMemory(b) then b.(pos := b.pos + n, filePos := if b.inFile then b.filePos + n else b.filePos)
    else b.(filePos := b.filePos + n)
  }

  lemma AdvanceContent(b: Buf, n: nat)
    requires BufOk(b) && n <= Size(b)
    ensures BufOk(Advance(b, n)) && Size(Advance(b, n)) == Size(b) - n
    ensures |Content(b)| == Size(b) && Content(Advance(b, n)) == Content(b)[n..]
  {
    if InMemory(b) { SliceAgain(b.mem, b.pos, b.last, n); } else { SliceAgain(b.file, b.filePos, b.fileLast, n); }
  }

  lemma SliceAgain(s: seq<Byte>, a: nat, e: nat, n: nat)
    requires a + n <= e <= |s|
    ensures s[a..e][n..] == s[a + n..e]
  {
  }

  type Store = map<Id, Buf>

  ghost predicate StoreOk(store: Store) { forall i | i in store :: BufOk(store[i]) }

  predicate Empty(store: Store, i: Id) { i in store && Size(store[i]) == 0 }

  predicate Own(store: Store, i: Id) { i in store && store[i].own }

  ghost function Bytes(store: Store, q: seq<Id>): seq<Byte> {
    if q == [] then [] else (if q[0] in store then Content(store[q[0]]) else []) + Bytes(store, q[1..])
  }

  /** The buffers of a chain that still have bytes. */
  function Live(store: Store, q: seq<Id>): seq<Id> {
    if q == [] then [] else if Empty(store, q[0]) then Live(store, q[1..]) else [q[0]] + Live(store, q[1..])
  }

  ghost predicate Distinct(q: seq<Id>) { forall i, j | 0 <= i < j < |q| :: q[i] != q[j] }

  ghost predicate Apart(p: seq<Id>, q: seq<Id>) { forall i | i in p :: i !in q }

  // ------------------------------------------------------------- sequences of buffers

  lemma {:induction false} BytesAppend(store: Store, p: seq<Id>, q: seq<Id>)
    requires StoreOk(store)
    ensures Bytes(store, p + q) == Bytes(store, p) + Bytes(store, q)
  {
    if p == [] {
      assert p + q == q;
    } else {
      assert (p + q)[1..] == p[1..] + q;
      BytesAppend(store, p[1..], q);
    }
  }

  lemma {:induction false} LiveAppend(store: Store, p: seq<Id>, q: seq<Id>)
    ensures Live(store, p + q) == Live(store, p) + Live(store, q)
  {
    if p == [] {
      assert p + q == q;
    } else {
      assert (p + q)[1..] == p[1..] + q;
      LiveAppend(store, p[1..], q);
    }
  }

  lemma {:induction false} BytesFrame(store: Store, i: Id, b: Buf, q: seq<Id>)
    requires StoreOk(store) && BufOk(b) && i !in q
    ensures StoreOk(store[i := b]) && Bytes(store[i := b], q) == Bytes(store, q) && Live(store[i := b], q) == Live(store, q)
  {
    if q != [] { BytesFrame(store, i, b, q[1..]); }
  }

  /** Replacing an empty buffer by another one changes no bytes. */
  lemma {:induction false} BytesEmpty(store: Store, i: Id, b: Buf, q: seq<Id>)
    requires StoreOk(store) && BufOk(b) && Empty(store, i) && Size(b) == 0
    ensures StoreOk(store[i := b]) && Bytes(store[i := b], q) == Bytes(store, q) && Live(store[i := b], q) == Live(store, q)
  {
    if q != [] { BytesEmpty(store, i, b, q[1..]); }
  }

  /** The same content in another form changes no bytes. */
  lemma {:induction false} BytesSame(store: Store, i: Id, b: Buf, q: seq<Id>)
    requires StoreOk(store) && BufOk(b) && i in store && Content(b) == Content(store[i]) && Size(b) == Size(store[i])
    ensures StoreOk(store[i := b]) && Bytes(store[i := b], q) == Bytes(store, q) && Live(store[i := b], q) == Live(store, q)
  {
    if q != [] { BytesSame(store, i, b, q[1..]); }
  }

  lemma {:induction false} LiveMembers(store: Store, q: seq<Id>)
    ensures forall i | i in Live(store, q) :: i in q && !Empty(store, i)
    ensures forall i | i in q && !Empty(store, i) :: i in Live(store, q)
  {
    if q != [] { LiveMembers(store, q[1..]); }
  }

  lemma {:induction false} LiveBytes(store: Store, q: seq<Id>)
    requires StoreOk(store)
    ensures Bytes(store, Live(store, q)) == Bytes(store, q)
  {
    if q != [] {
      LiveBytes(store, q[1..]);
      if !Empty(store, q[0]) { assert Live(store, q)[1..] == Live(store, q[1..]); }
    }
  }

  lemma {:induction false} LiveDistinct(store: Store, q: seq<Id>)
    requires Distinct(q)
    ensures Distinct(Live(store, q))
  {
    if q != [] {
      assert Distinct(q[1..]);
      LiveDistinct(store, q[1..]);
      LiveMembers(store, q[1..]);
      var r := Live(store, q[1..]);
      if !Empty(store, q[0]) { assert forall k | 0 < k <= |r| :: ([q[0]] + r)[k] == r[k - 1] && r[k - 1] in r; }
    }
  }

  // ------------------------------------------------------------------ the invariant

  /**
   `pending` are the buffers that the filter below holds and has not consumed; `direct` are those
   among them that went down by the short path, without being recorded in `busy`.
   */
  datatype State = State(store: Store, waiting: seq<Id>, buf: Option<Id>, free: seq<Id>, busy: seq<Id>, out: seq<Id>,
                         pending: seq<Id>, direct: seq<Id>, made: nat)

  ghost function OwnSet(store: Store): set<Id> { set i | i in store && store[i].own }

  ghost predicate Reset(store: Store, i: Id) { Own(store, i) && store[i].pos == store[i].last == 0 }

  /** Each own buffer is in exactly one place, and reset where it is about to be filled. */
  ghost predicate Placed(st: State) {
    && Distinct(st.free) && Distinct(st.busy) && Distinct(st.out)
    && Apart(st.free, st.busy) && Apart(st.free, st.out) && Apart(st.busy, st.out)
    && (forall i | i in st.free :: Reset(st.store, i))
    && (st.buf.Some? ==> var i := st.buf.value; Reset(st.store, i) && i !in st.free && i !in st.busy && i !in st.out)
    && (forall i | i in st.busy || i in st.out :: i in st.store)
    && (forall i | i in OwnSet(st.store) :: st.buf == Some(i) || i in st.free || i in st.busy || i in st.out)
  }

  /** Waiting buffers are the caller's and are nowhere else. */
  ghost predicate Foreign(st: State) {
    && Distinct(st.waiting) && Apart(st.waiting, st.busy) && Apart(st.waiting, st.out) && Apart(st.waiting, st.direct)
    && (forall i | i in st.waiting :: i in st.store && !Own(st.store, i))
  }

  /** The filter below holds what is left of the direct buffers, then of the busy ones. */
  ghost predicate Below(st: State) {
    && st.pending == st.direct + Live(st.store, st.busy)
    && Distinct(st.direct) && Apart(st.direct, st.busy) && Apart(st.direct, st.out)
    && (forall i | i in st.direct :: i in st.store && !Own(st.store, i) && !Empty(st.store, i))
  }

  /** Before an own busy buffer that is used up, all are used up; own buffers on the way down have bytes. */
  ghost predicate InOrder(store: Store, busy: seq<Id>) {
    forall i, j | 0 <= i < j < |busy| && Own(store, busy[j]) && Empty(store, busy[j]) :: Empty(store, busy[i])
  }

  ghost predicate Drained(st: State) {
    && InOrder(st.store, st.busy)
    && (forall i | i in st.out && Own(st.store, i) :: !Empty(st.store, i))
  }

  ghost predicate Inv(st: State) {
    && StoreOk(st.store) && Placed(st) && Foreign(st) && Below(st) && Drained(st)
    && st.made == |OwnSet(st.store)|
  }

  /** All bytes that are held or were passed down and are not consumed, in order. */
  ghost function Held(st: State): seq<Byte> {
    Bytes(st.store, st.pending) + Bytes(st.store, st.out) + Bytes(st.store, st.waiting)
  }

  // ------------------------------------------------------- lists in the invariant

  lemma Listed(st: State)
    requires Placed(st) && Foreign(st) && Below(st)
    ensures forall i | i in st.waiting || i in st.free || i in st.busy || i in st.out || i in st.direct || i in st.pending :: i in st.store
  {
    LiveMembers(st.store, st.busy);
  }

  lemma PlacedFrame(st: State, st': State)
    requires Placed(st) && st'.store == st.store && st'.buf == st.buf && st'.free == st.free && st'.busy == st.busy && st'.out == st.out
    ensures Placed(st')
  {
  }

  lemma BelowFrame(st: State, st': State)
    requires Below(st) && st'.store == st.store && st'.busy == st.busy && st'.out == st.out && st'.pending == st.pending && st'.direct == st.direct
    ensures Below(st')
  {
  }

  lemma DrainedFrame(st: State, st': State)
    requires Drained(st) && st'.store == st.store && st'.busy == st.busy && st'.out == st.out
    ensures Drained(st')
  {
  }

  lemma InOrderFrame(store: Store, x: Id, b: Buf, busy: seq<Id>)
    requires InOrder(store, busy) && x !in busy
    ensures InOrder(store[x := b], busy)
  {
    var store' := store[x := b];
    forall i, j | 0 <= i < j < |busy| && Own(store', busy[j]) && Empty(store', busy[j]) ensures Empty(store', busy[i]) {
      assert busy[i] in busy && busy[j] in busy;
      assert Own(store, busy[j]) && Empty(store, busy[j]);
      assert Empty(store, busy[i]);
    }
  }

  lemma AppendDistinct(q: seq<Id>, x: Id)
    requires Distinct(q) && x !in q
    ensures Distinct(q + [x]) && Distinct([x] + q)
  {
  }

  lemma InOrderJoin(store: Store, busy: seq<Id>, more: seq<Id>)
    requires InOrder(store, busy) && forall i | i in more && Own(store, i) :: !Empty(store, i)
    ensures InOrder(store, busy + more)
  {
    var q := busy + more;
    forall j | |busy| <= j < |q| ensures !(Own(store, q[j]) && Empty(store, q[j])) { assert q[j] in more; }
  }

  lemma NoneDistinct()
    ensures Distinct([])
  {
  }

  lemma JoinDistinct(p: seq<Id>, q: seq<Id>)
    requires Distinct(p) && Distinct(q) && Apart(p, q)
    ensures Distinct(p + q)
  {
    forall i, j | 0 <= i < j < |p + q| ensures (p + q)[i] != (p + q)[j] {
      if i < |p| <= j { assert p[i] in p && q[j - |p|] in q; }
    }
  }

  lemma TailDistinct(q: seq<Id>)
    requires Distinct(q) && q != []
    ensures Distinct(q[1..]) && q[0] !in q[1..] && forall i | i in q[1..] :: i in q
  {
  }

  // ------------------------------------------------------------- waiting buffers

  function Waiting(st: State, q: seq<Id>): State { st.(waiting := q) }

  lemma WaitingFrame(st: State, q: seq<Id>)
    requires Inv(st) && Distinct(q) && forall i | i in q :: i in st.waiting
    ensures Inv(Waiting(st, q))
  {
    hide Placed, Below, Drained, Distinct;
    var st' := Waiting(st, q);
    PlacedFrame(st, st');
    BelowFrame(st, st');
    DrainedFrame(st, st');
  }

  /** An empty buffer is skipped. */
  lemma SkipInv(st: State)
    requires Inv(st) && st.waiting != [] && Empty(st.store, st.waiting[0])
    ensures Inv(Waiting(st, st.waiting[1..])) && Held(Waiting(st, st.waiting[1..])) == Held(st)
  {
    hide Placed, Below, Drained, StoreOk, OwnSet, Bytes;
    TailDistinct(st.waiting);
    WaitingFrame(st, st.waiting[1..]);
    BytesSkip(st.store, st.waiting);
  }

  lemma BytesSkip(store: Store, q: seq<Id>)
    requires q != [] && Empty(store, q[0]) && StoreOk(store)
    ensures Bytes(store, q) == Bytes(store, q[1..])
  {
  }

  /** A buffer that is and stays own, or is and stays the caller's, leaves the set of own buffers as it is. */
  lemma OwnSame(store: Store, x: Id, b: Buf)
    requires Own(store, x) <==> b.own
    ensures OwnSet(store[x := b]) == OwnSet(store)
  {
  }

  /** A new buffer of the caller enters the store and waits. */
  function Arrived(st: State, x: Id, b: Buf): State {
    st.(store := st.store[x := b], waiting := st.waiting + [x])
  }

  lemma ArriveInv(st: State, x: Id, b: Buf)
    requires Inv(st) && x !in st.store && BufOk(b) && !b.own
    ensures Inv(Arrived(st, x, b)) && Held(Arrived(st, x, b)) == Held(st) + Content(b)
  {
    hide Placed, Below, Drained, Foreign, StoreOk, OwnSet, Held;
    Listed(st);
    StoreGrows(st, x, b);
    ForeignArrive(st, x, b);
    OwnSame(st.store, x, b);
    ArriveHeld(st, x, b);
  }

  lemma ArriveHeld(st: State, x: Id, b: Buf)
    requires StoreOk(st.store) && BufOk(b) && x !in st.pending && x !in st.out && x !in st.waiting
    ensures StoreOk(Arrived(st, x, b).store) && Held(Arrived(st, x, b)) == Held(st) + Content(b)
  {
    hide Bytes, Content, BufOk, StoreOk;
    var st' := Arrived(st, x, b);
    BytesFrame(st.store, x, b, st.pending);
    BytesFrame(st.store, x, b, st.out);
    BytesFrame(st.store, x, b, st.waiting);
    BytesAppend(st'.store, st.waiting, [x]);
    Singleton(st'.store, x);
    Regroup(Bytes(st.store, st.pending) + Bytes(st.store, st.out), Bytes(st.store, st.waiting), Content(b));
  }

  lemma Singleton(store: Store, x: Id)
    requires StoreOk(store) && x in store
    ensures Bytes(store, [x]) == Content(store[x]) && Live(store, [x]) == if Empty(store, x) then [] else [x]
  {
    assert [x][1..] == [];
  }

  lemma ForeignArrive(st: State, x: Id, b: Buf)
    requires Placed(st) && Foreign(st) && Below(st) && x !in st.store && !b.own
    ensures Foreign(Arrived(st, x, b))
  {
    Listed(st);
    AppendDistinct(st.waiting, x);
  }

  /** A buffer that no list knows yet may enter the store. */
  lemma StoreGrows(st: State, x: Id, b: Buf)
    requires StoreOk(st.store) && Placed(st) && Below(st) && Drained(st) && BufOk(b) && x !in st.store && !b.own
    ensures var st' := Arrived(st, x, b); Placed(st') && Below(st') && Drained(st')
  {
    hide Bytes, InOrder, Live, Distinct;
    var st' := Arrived(st, x, b);
    assert x !in st.busy;
    BytesFrame(st.store, x, b, st.busy);
    assert OwnSet(st'.store) == OwnSet(st.store);
    assert forall i | i in st.free :: Reset(st'.store, i);
    InOrderFrame(st.store, x, b, st.busy);
  }

  function ToOut(st: State): State
    requires st.waiting != []
  {
    st.(waiting := st.waiting[1..], out := st.out + [st.waiting[0]])
  }

  /** The first waiting buffer goes down as it is. */
  lemma ToOutInv(st: State)
    requires Inv(st) && st.waiting != []
    ensures Inv(ToOut(st)) && Held(ToOut(st)) == Held(st)
  {
    hide Placed, Below, Drained, Foreign, Content, StoreOk;
    ToOutLists(st);
    ToOutHeld(st);
  }

  lemma ToOutHeld(st: State)
    requires StoreOk(st.store) && st.waiting != [] && st.waiting[0] in st.store
    ensures Held(ToOut(st)) == Held(st)
  {
    hide Content, StoreOk;
    var x := st.waiting[0];
    BytesAppend(st.store, st.out, [x]);
    Singleton(st.store, x);
    assert Bytes(st.store, st.waiting) == Bytes(st.store, [x]) + Bytes(st.store, st.waiting[1..]);
  }

  lemma ToOutLists(st: State)
    requires Inv(st) && st.waiting != []
    ensures var st' := ToOut(st); Foreign(st') && Placed(st') && Below(st') && Drained(st') && st.waiting[0] in st.store
  {
    hide Live, StoreOk;
    var x := st.waiting[0];
    assert x in st.waiting;
    TailDistinct(st.waiting);
    AppendDistinct(st.out, x);
  }

  // ------------------------------------------------------------------- own buffers

  function FromFree(st: State): State
    requires st.free != []
  {
    st.(buf := Some(st.free[0]), free := st.free[1..])
  }

  lemma FromFreeInv(st: State)
    requires Inv(st) && st.free != [] && st.buf.None?
    ensures Inv(FromFree(st)) && Held(FromFree(st)) == Held(st)
  {
    hide Live, StoreOk, Foreign, Bytes;
    var st' := FromFree(st);
    TailDistinct(st.free);
    assert st.free[0] in st.free;
    BelowFrame(st, st');
    DrainedFrame(st, st');
    assert Foreign(st') by { ForeignFrame(st, st'); }
  }

  lemma ForeignFrame(st: State, st': State)
    requires Foreign(st) && st'.store == st.store && st'.waiting == st.waiting && st'.busy == st.busy && st'.out == st.out && st'.direct == st.direct
    ensures Foreign(st')
  {
  }

  function Made(st: State, x: Id, b: Buf): State {
    st.(store := st.store[x := b], buf := Some(x), made := st.made + 1)
  }

  lemma MakeInv(st: State, x: Id, b: Buf)
    requires Inv(st) && st.buf.None? && x !in st.store && BufOk(b) && b.own && b.pos == b.last == 0
    ensures Inv(Made(st, x, b)) && Held(Made(st, x, b)) == Held(st)
  {
    hide Placed, Below, Drained, Foreign;
    Listed(st);
    MadeLists(st, x, b);
    assert OwnSet(Made(st, x, b).store) == OwnSet(st.store) + {x};
    BytesFrame(st.store, x, b, st.pending);
    BytesFrame(st.store, x, b, st.out);
    BytesFrame(st.store, x, b, st.waiting);
  }

  lemma MadeLists(st: State, x: Id, b: Buf)
    requires Inv(st) && st.buf.None? && x !in st.store && BufOk(b) && b.own && b.pos == b.last == 0
    ensures var st' := Made(st, x, b); Foreign(st') && Placed(st') && Below(st') && Drained(st')
  {
    hide Bytes, InOrder, Live, Distinct, Placed, StoreOk;
    var st' := Made(st, x, b);
    Listed(st);
    BytesFrame(st.store, x, b, st.busy);
    InOrderFrame(st.store, x, b, st.busy);
    MadePlaced(st, x, b);
  }

  lemma MadePlaced(st: State, x: Id, b: Buf)
    requires Placed(st) && st.buf.None? && x !in st.store && b.own && b.pos == b.last == 0
    ensures Placed(Made(st, x, b))
  {
    hide Distinct;
    assert OwnSet(Made(st, x, b).store) == OwnSet(st.store) + {x};
    assert forall i | i in st.free :: Reset(st.store, i);
  }

  /** The buffer in hand is filled and goes to the end of `out`. */
  function Filled(st: State, b: Buf): State
    requires st.buf.Some?
  {
    st.(store := st.store[st.buf.value := b], buf := None, out := st.out + [st.buf.value])
  }

  lemma FillInv(st: State, b: Buf)
    requires Inv(st) && st.buf.Some? && BufOk(b) && b.own && Size(b) > 0
    ensures Inv(Filled(st, b))
    ensures Bytes(Filled(st, b).store, Filled(st, b).out) == Bytes(st.store, st.out) + Content(b)
    ensures Held(Filled(st, b)) == Bytes(st.store, st.pending) + (Bytes(st.store, st.out) + Content(b)) + Bytes(st.store, st.waiting)
  {
    hide Placed, Below, Drained, Foreign;
    var x, st' := st.buf.value, Filled(st, b);
    FilledLists(st, b);
    OwnSame(st.store, x, b);
    BytesFrame(st.store, x, b, st.pending);
    BytesFrame(st.store, x, b, st.out);
    BytesFrame(st.store, x, b, st.waiting);
    BytesAppend(st'.store, st.out, [x]);
    Singleton(st'.store, x);
  }

  lemma FilledLists(st: State, b: Buf)
    requires Inv(st) && st.buf.Some? && BufOk(b) && b.own && Size(b) > 0
    ensures var st' := Filled(st, b); Foreign(st') && Placed(st') && Below(st') && Drained(st')
    ensures var x := st.buf.value; Own(st.store, x) && x !in st.pending && x !in st.out && x !in st.waiting
  {
    hide Bytes, InOrder, Live, Distinct, OwnSet, StoreOk;
    var x := st.buf.value;
    LiveMembers(st.store, st.busy);
    assert x !in st.waiting && x !in st.direct;
    BytesFrame(st.store, x, b, st.busy);
    FilledPlaced(st, b);
    InOrderFrame(st.store, x, b, st.busy);
  }

  lemma FilledPlaced(st: State, b: Buf)
    requires Placed(st) && st.buf.Some? && b.own
    ensures Placed(Filled(st, b))
  {
    hide Distinct;
    OwnSame(st.store, st.buf.value, b);
    AppendDistinct(st.out, st.buf.value);
    assert forall i | i in st.free :: Reset(st.store, i);
  }

  /** The first waiting buffer changes. */
  function Edited(st: State, b: Buf): State
    requires st.waiting != []
  {
    st.(store := st.store[st.waiting[0] := b])
  }

  lemma EditInv(st: State, b: Buf)
    requires Inv(st) && st.waiting != [] && BufOk(b) && !b.own
    ensures Inv(Edited(st, b)) && st.waiting[0] in st.store
    ensures Held(st) == Bytes(st.store, st.pending) + Bytes(st.store, st.out) + (Content(st.store[st.waiting[0]]) + Bytes(st.store, st.waiting[1..]))
    ensures Held(Edited(st, b)) == Bytes(st.store, st.pending) + Bytes(st.store, st.out) + (Content(b) + Bytes(st.store, st.waiting[1..]))
  {
    hide Placed, Below, Drained, Foreign;
    var x, st' := st.waiting[0], Edited(st, b);
    EditedLists(st, b);
    OwnSame(st.store, x, b);
    BytesFrame(st.store, x, b, st.pending);
    BytesFrame(st.store, x, b, st.out);
    BytesFrame(st.store, x, b, st.waiting[1..]);
  }

  lemma EditedLists(st: State, b: Buf)
    requires Inv(st) && st.waiting != [] && BufOk(b) && !b.own
    ensures var st' := Edited(st, b); Foreign(st') && Placed(st') && Below(st') && Drained(st')
    ensures var x := st.waiting[0]; x in st.store && !Own(st.store, x) && x !in st.pending && x !in st.out && x !in st.waiting[1..]
  {
    hide Bytes, InOrder, Live, Placed, StoreOk;
    var x := st.waiting[0];
    assert x in st.waiting;
    LiveMembers(st.store, st.busy);
    TailDistinct(st.waiting);
    BytesFrame(st.store, x, b, st.busy);
    InOrderFrame(st.store, x, b, st.busy);
    EditedPlaced(st, b);
  }

  lemma EditedPlaced(st: State, b: Buf)
    requires Placed(st) && st.waiting != [] && !b.own && st.waiting[0] in st.store && !Own(st.store, st.waiting[0])
    ensures Placed(Edited(st, b))
  {
    hide Distinct;
    OwnSame(st.store, st.waiting[0], b);
    assert forall i | i in st.free :: Reset(st.store, i);
  }

  // ------------------------------------------------------------------ the filter below

  /** `out` is handed to the filter below and counts as busy. */
  ghost function Passed(st: State): State {
    st.(busy := st.busy + st.out, out := [], pending := st.pending + Live(st.store, st.out))
  }

  lemma PassInv(st: State)
    requires Inv(st)
    ensures Inv(Passed(st)) && Held(Passed(st)) == Held(st)
  {
    hide Placed, Below, Drained, Foreign;
    PassedLists(st);
    BytesAppend(st.store, st.pending, Live(st.store, st.out));
    LiveBytes(st.store, st.out);
  }

  lemma PassedLists(st: State)
    requires Inv(st)
    ensures var st' := Passed(st); Foreign(st') && Placed(st') && Below(st') && Drained(st')
  {
    hide Bytes, Live, StoreOk, Distinct;
    LiveAppend(st.store, st.busy, st.out);
    JoinDistinct(st.busy, st.out);
    InOrderJoin(st.store, st.busy, st.out);
    NoneDistinct();
  }

  /** With nothing waiting or busy, a buffer goes straight down. */
  ghost function Directed(st: State, x: Id, b: Buf): State {
    st.(store := st.store[x := b], pending := st.pending + Live(st.store[x := b], [x]), direct := st.direct + Live(st.store[x := b], [x]))
  }

  lemma DirectInv(st: State, x: Id, b: Buf)
    requires Inv(st) && st.waiting == [] && st.busy == [] && st.out == [] && x !in st.store && BufOk(b) && !b.own
    ensures Inv(Directed(st, x, b)) && Held(Directed(st, x, b)) == Held(st) + Content(b)
  {
    hide Placed, Below, Drained, Foreign, StoreOk, OwnSet, Held;
    Listed(st);
    DirectedLists(st, x, b);
    OwnSame(st.store, x, b);
    DirectHeld(st, x, b);
  }

  lemma DirectHeld(st: State, x: Id, b: Buf)
    requires StoreOk(st.store) && BufOk(b) && st.waiting == [] && st.out == [] && x !in st.pending
    ensures StoreOk(Directed(st, x, b).store) && Held(Directed(st, x, b)) == Held(st) + Content(b)
  {
    hide StoreOk, Content, Live;
    var st' := Directed(st, x, b);
    BytesFrame(st.store, x, b, st.pending);
    BytesAppend(st'.store, st.pending, Live(st'.store, [x]));
    LiveBytes(st'.store, [x]);
    Singleton(st'.store, x);
  }

  lemma DirectedLists(st: State, x: Id, b: Buf)
    requires Inv(st) && st.waiting == [] && st.busy == [] && st.out == [] && x !in st.store && BufOk(b) && !b.own
    ensures var st' := Directed(st, x, b); Foreign(st') && Placed(st') && Below(st') && Drained(st')
  {
    hide InOrder, Placed, Bytes, StoreOk;
    var st' := Directed(st, x, b);
    BytesFrame(st.store, x, b, []);
    Singleton(st'.store, x);
    AppendDistinct(st.direct, x);
    StoreGrows(st, x, b);
    PlacedFrame(Arrived(st, x, b), st');
    DrainedFrame(Arrived(st, x, b), st');
  }

  /** The filter consumes the first `n` bytes of the first buffer that it holds. */
  ghost function Consumed(st: State, n: nat): State
    requires st.pending != [] && st.pending[0] in st.store
  {
    var x := st.pending[0];
    var done := n == Size(st.store[x]);
    st.(store := st.store[x := Advance(st.store[x], n)],
        pending := if done then st.pending[1..] else st.pending,
        direct := if done && st.direct != [] then st.direct[1..] else st.direct)
  }

  lemma ConsumeInv(st: State, n: nat)
    requires Inv(st) && st.pending != [] && st.out == [] && st.pending[0] in st.store && 0 < n <= Size(st.store[st.pending[0]])
    ensures Inv(Consumed(st, n))
    ensures Held(st) == Content(st.store[st.pending[0]])[..n] + Held(Consumed(st, n))
  {
    hide Placed, Below, Drained, Foreign, StoreOk, Held, Consumed;
    ConsumedOwn(st, n);
    ConsumedPlaced(st, n);
    ConsumedForeign(st, n);
    ConsumedBelow(st, n);
    ConsumedDrained(st, n);
    PendingFacts(st);
    ConsumedHeld(st, n);
  }

  lemma ConsumedOwn(st: State, n: nat)
    requires st.pending != [] && st.pending[0] in st.store
    ensures OwnSet(Consumed(st, n).store) == OwnSet(st.store) && Consumed(st, n).made == st.made
  {
  }

  lemma ConsumedHeld(st: State, n: nat)
    requires StoreOk(st.store) && st.pending != [] && st.out == [] && st.pending[0] in st.store && n <= Size(st.store[st.pending[0]])
    requires st.pending[0] !in st.pending[1..] && st.pending[0] !in st.waiting
    ensures StoreOk(Consumed(st, n).store)
    ensures Held(st) == Content(st.store[st.pending[0]])[..n] + Held(Consumed(st, n))
  {
    hide StoreOk, Content;
    var x := st.pending[0];
    Fine(st.store, x);
    AdvanceContent(st.store[x], n);
    var b := Advance(st.store[x], n);
    BytesFrame(st.store, x, b, st.pending[1..]);
    BytesFrame(st.store, x, b, st.waiting);
    var c, p, w := Content(st.store[x]), Bytes(st.store, st.pending[1..]), Bytes(st.store, st.waiting);
    assert Held(st) == c + p + [] + w;
    assert Held(Consumed(st, n)) == Content(b) + p + [] + w by {
      if n == Size(st.store[x]) { assert Content(b) + p == p; }
    }
    TakeFront(c, p, w, n);
  }

  lemma TakeFront(c: seq<Byte>, p: seq<Byte>, w: seq<Byte>, n: nat)
    requires n <= |c|
    ensures c + p + [] + w == c[..n] + (c[n..] + p + [] + w)
  {
    assert c == c[..n] + c[n..];
  }

  lemma Fine(store: Store, x: Id)
    requires StoreOk(store) && x in store
    ensures BufOk(store[x])
  {
  }

  lemma PendingFacts(st: State)
    requires Placed(st) && Foreign(st) && Below(st)
    ensures Distinct(st.pending) && Apart(st.waiting, st.pending) && (st.pending != [] ==> st.pending[0] !in st.pending[1..])
    ensures forall i | i in st.pending :: !Empty(st.store, i) && i !in st.free && st.buf != Some(i)
  {
    hide InOrder;
    LiveMembers(st.store, st.busy);
    LiveDistinct(st.store, st.busy);
    JoinDistinct(st.direct, Live(st.store, st.busy));
    if st.pending != [] { TailDistinct(st.pending); }
    assert forall i | i in st.free :: Reset(st.store, i);
  }

  lemma ConsumedPlaced(st: State, n: nat)
    requires Placed(st) && Foreign(st) && Below(st) && st.pending != [] && st.pending[0] in st.store
    ensures Placed(Consumed(st, n))
  {
    var x := st.pending[0];
    PendingFacts(st);
    assert OwnSet(Consumed(st, n).store) == OwnSet(st.store);
    assert x in st.pending;
    assert forall i | i in st.free :: Reset(st.store, i);
  }

  lemma ConsumedForeign(st: State, n: nat)
    requires Placed(st) && Foreign(st) && Below(st) && st.pending != [] && st.pending[0] in st.store
    ensures Foreign(Consumed(st, n))
  {
    PendingFacts(st);
    var x := st.pending[0];
    assert x in st.pending;
    if st.direct != [] { TailDistinct(st.direct); }
  }

  lemma ConsumedBelow(st: State, n: nat)
    requires StoreOk(st.store) && Below(st) && Placed(st) && Foreign(st) && st.pending != [] && st.pending[0] in st.store && n <= Size(st.store[st.pending[0]])
    ensures Below(Consumed(st, n))
  {
    hide Placed, Foreign, InOrder, Below, Live, StoreOk, Consumed;
    PendingFacts(st);
    BusyDistinct(st);
    if st.direct != [] { DirectConsumed(st, n); } else { BusyConsumed(st, n); }
  }

  lemma DirectConsumed(st: State, n: nat)
    requires StoreOk(st.store) && Below(st) && st.direct != [] && st.pending != [] && st.pending[0] in st.store && n <= Size(st.store[st.pending[0]])
    ensures Below(Consumed(st, n))
  {
    hide Live;
    var x := st.pending[0];
    var b := Advance(st.store[x], n);
    AdvanceContent(st.store[x], n);
    assert x == st.direct[0] && x in st.direct;
    TailDistinct(st.direct);
    BytesFrame(st.store, x, b, st.busy);
    assert st.pending[1..] == st.direct[1..] + Live(st.store, st.busy);
  }

  lemma BusyConsumed(st: State, n: nat)
    requires StoreOk(st.store) && Below(st) && Distinct(st.busy) && st.direct == []
    requires st.pending != [] && st.pending[0] in st.store && n <= Size(st.store[st.pending[0]])
    ensures Below(Consumed(st, n))
  {
    hide Live;
    var b := Advance(st.store[st.pending[0]], n);
    AdvanceContent(st.store[st.pending[0]], n);
    assert st.pending == Live(st.store, st.busy);
    LiveHead(st.store, st.busy, b);
  }

  /** The first live buffer changes: it stays the first, or drops out when nothing is left of it. */
  lemma {:induction false} LiveHead(store: Store, q: seq<Id>, b: Buf)
    requires StoreOk(store) && BufOk(b) && Distinct(q) && Live(store, q) != []
    ensures var l := Live(store, q);
      Live(store[l[0] := b], q) == (if Size(b) == 0 then l[1..] else l) && l[0] in q
  {
    var l := Live(store, q);
    TailDistinct(q);
    if Empty(store, q[0]) {
      LiveHead(store, q[1..], b);
    } else {
      BytesFrame(store, q[0], b, q[1..]);
    }
  }

  lemma ConsumedDrained(st: State, n: nat)
    requires StoreOk(st.store) && Drained(st) && Below(st) && Placed(st) && Foreign(st) && st.out == [] && st.pending != [] && st.pending[0] in st.store
    requires n <= Size(st.store[st.pending[0]])
    ensures Drained(Consumed(st, n))
  {
    hide StoreOk, Live, InOrder;
    var x := st.pending[0];
    if st.direct != [] {
      assert x == st.direct[0] && x in st.direct;
      InOrderFrame(st.store, x, Advance(st.store[x], n), st.busy);
    } else {
      assert st.pending == Live(st.store, st.busy);
      InOrderLive(st.store, st.busy, Advance(st.store[x], n));
    }
  }

  /** Whatever becomes of the first live buffer, all before it are used up. */
  lemma InOrderLive(store: Store, q: seq<Id>, b: Buf)
    requires InOrder(store, q) && Distinct(q) && Live(store, q) != [] && Own(store, Live(store, q)[0]) == b.own
    ensures InOrder(store[Live(store, q)[0] := b], q)
  {
    hide Live;
    var x := Live(store, q)[0];
    var store' := store[x := b];
    FirstLive(store, q);
    NotEmptyFirst(store, q);
    var p :| 0 <= p < |q| && q[p] == x && forall i | 0 <= i < p :: Empty(store, q[i]);
    forall j | p < j < |q| ensures !(Own(store', q[j]) && Empty(store', q[j])) {
      assert q[j] != q[p] && !Empty(store, q[p]);
      assert !(Own(store, q[j]) && Empty(store, q[j]));
    }
    forall i | 0 <= i < p ensures Empty(store', q[i]) { assert q[i] != q[p]; }
  }

  lemma {:induction false} FirstLive(store: Store, q: seq<Id>)
    requires Live(store, q) != []
    ensures exists p | 0 <= p < |q| :: q[p] == Live(store, q)[0] && forall i | 0 <= i < p :: Empty(store, q[i])
  {
    if Empty(store, q[0]) {
      FirstLive(store, q[1..]);
      var p :| 0 <= p < |q[1..]| && q[1..][p] == Live(store, q[1..])[0] && forall i | 0 <= i < p :: Empty(store, q[1..][i]);
      assert q[p + 1] == Live(store, q)[0];
      assert forall i | 0 <= i < p + 1 :: i > 0 ==> q[i] == q[1..][i - 1];
    }
  }

  lemma NotEmptyFirst(store: Store, q: seq<Id>)
    requires Live(store, q) != []
    ensures !Empty(store, Live(store, q)[0])
  {
    LiveMembers(store, q);
  }

  // -------------------------------------------------------------------- recycling

  /** The first busy buffer is used up: the caller's is let go, an own one is reset and freed. */
  function Stripped(st: State): State
    requires st.busy != []
  {
    var x := st.busy[0];
    if Own(st.store, x) then
      st.(store := st.store[x := st.store[x].(pos := 0, last := 0)], busy := st.busy[1..], free := [x] + st.free)
    else st.(busy := st.busy[1..])
  }

  lemma StripInv(st: State)
    requires Inv(st) && st.busy != [] && Empty(st.store, st.busy[0])
    ensures Inv(Stripped(st)) && Held(Stripped(st)) == Held(st)
  {
    hide Placed, Below, Drained, Foreign, OwnSet, Bytes;
    var x := st.busy[0];
    StrippedPlaced(st);
    StrippedRest(st);
    if Own(st.store, x) {
      var b := st.store[x].(pos := 0, last := 0);
      BytesEmpty(st.store, x, b, st.pending);
      BytesEmpty(st.store, x, b, st.out);
      BytesEmpty(st.store, x, b, st.waiting);
      OwnSame(st.store, x, b);
    }
  }

  lemma StrippedPlaced(st: State)
    requires Placed(st) && st.busy != [] && st.busy[0] in st.store
    ensures Placed(Stripped(st))
  {
    var x := st.busy[0];
    assert x in st.busy;
    TailDistinct(st.busy);
    AppendDistinct(st.free, x);
    assert OwnSet(Stripped(st).store) == OwnSet(st.store);
    assert forall i | i in st.free :: Reset(st.store, i);
  }

  lemma StrippedRest(st: State)
    requires Inv(st) && st.busy != [] && Empty(st.store, st.busy[0])
    ensures var st' := Stripped(st); Foreign(st') && Below(st') && Drained(st')
  {
    hide Placed, Bytes;
    var x, st' := st.busy[0], Stripped(st);
    TailDistinct(st.busy) by { BusyDistinct(st); }
    assert x in st.busy;
    if Own(st.store, x) {
      BytesEmpty(st.store, x, st.store[x].(pos := 0, last := 0), st.busy);
    }
    assert Live(st'.store, st.busy) == Live(st'.store, st.busy[1..]);
    InOrderTail(st.store, st'.store, st.busy);
  }

  lemma BusyDistinct(st: State)
    requires Placed(st)
    ensures Distinct(st.busy)
  {
  }

  lemma InOrderTail(store: Store, store': Store, busy: seq<Id>)
    requires InOrder(store, busy) && busy != [] && forall i :: (Own(store, i) <==> Own(store', i)) && (Empty(store, i) <==> Empty(store', i))
    ensures InOrder(store', busy[1..])
  {
    var q := busy[1..];
    forall i, j | 0 <= i < j < |q| && Own(store', q[j]) && Empty(store', q[j]) ensures Empty(store', q[i]) {
      assert q[i] == busy[i + 1] && q[j] == busy[j + 1];
      assert Own(store, busy[j + 1]) && Empty(store, busy[j + 1]);
    }
  }

  /** When the first busy buffer has bytes left, so has every own one. */
  lemma NoneUsedUp(st: State)
    requires Inv(st) && (st.busy == [] || !Empty(st.store, st.busy[0]))
    ensures forall i | i in st.busy && Own(st.store, i) :: !Empty(st.store, i)
  {
    forall i | i in st.busy && Own(st.store, i) ensures !Empty(st.store, i) {
      var j, h :| 0 <= j < |st.busy| && st.busy[j] == i && h == st.busy[0];
      assert j > 0 ==> (Empty(st.store, i) ==> Empty(st.store, h));
    }
  }

  /** A buffer in memory that forgets its file keeps its bytes. */
  lemma ForgetFileInv(st: State)
    requires Inv(st) && st.waiting != [] && st.waiting[0] in st.store && InMemory(st.store[st.waiting[0]])
    ensures var b := st.store[st.waiting[0]].(inFile := false); Inv(Edited(st, b)) && Held(Edited(st, b)) == Held(st)
  {
    hide Placed, Below, Drained, Foreign, Held;
    FirstWaiting(st);
    EditInv(st, st.store[st.waiting[0]].(inFile := false));
  }

  lemma FirstWaiting(st: State)
    requires Inv(st) && st.waiting != []
    ensures st.waiting[0] in st.store && BufOk(st.store[st.waiting[0]]) && !st.store[st.waiting[0]].own
  {
    assert st.waiting[0] in st.waiting;
  }

  // ------------------------------------------------------------------------ copying

  /** What a reset buffer holds after `n` bytes of `src` were copied into it. */
  function CopyOf(dst: Buf, src: Buf, n: nat, sendfile: bool): Buf
    requires BufOk(src) && n <= Size(src) && n <= |dst.mem|
  {
    var last := n == Size(src);
    dst.(mem := Content(src)[..n] + dst.mem[n..], last := dst.last + n, inFile := src.inFile && sendfile,
         file := src.file, filePos := src.filePos, fileLast := src.filePos + if src.inFile then n else 0,
         flush := if last then src.flush else dst.flush,
         lastBuf := if last then src.lastBuf else dst.lastBuf,
         lastInChain := if last then src.lastInChain else dst.lastInChain)
  }

  lemma CopyContent(dst: Buf, src: Buf, n: nat, sendfile: bool)
    requires BufOk(dst) && dst.own && dst.pos == dst.last == 0 && BufOk(src) && n <= Size(src) && n <= |dst.mem|
    ensures var b := CopyOf(dst, src, n, sendfile);
      BufOk(b) && b.own && Size(b) == n && Content(b) == Content(src)[..n]
  {
    AdvanceContent(src, n);
    var c := Content(src);
    assert |c| == Size(src);
    CopiedPrefix(c, dst.mem, n);
    hide Content;
    var b := CopyOf(dst, src, n, sendfile);
    assert BufOk(b) && b.pos == 0 && b.last == n;
    TempContent(b);
  }

  lemma TempContent(b: Buf)
    requires BufOk(b) && b.temporary
    ensures Content(b) == b.mem[b.pos..b.last]
  {
  }

  lemma CopiedPrefix(c: seq<Byte>, m: seq<Byte>, n: nat)
    requires n <= |c| && n <= |m|
    ensures (c[..n] + m[n..])[0..n] == c[..n] && |c[..n] + m[n..]| == |m|
  {
  }

  /** A copy of a prefix of the first waiting buffer went out and the rest still waits. */
  function Copied(st: State, n: nat, sendfile: bool): State
    requires st.buf.Some? && st.waiting != [] && st.buf.value in st.store && st.waiting[0] in st.store && st.waiting[0] != st.buf.value
    requires BufOk(st.store[st.waiting[0]]) && n <= Size(st.store[st.waiting[0]]) && n <= |st.store[st.buf.value].mem|
  {
    var src := st.store[st.waiting[0]];
    Edited(Filled(st, CopyOf(st.store[st.buf.value], src, n, sendfile)), Advance(src, n))
  }

  lemma CopyInv(st: State, n: nat, sendfile: bool)
    requires Inv(st) && st.buf.Some? && st.waiting != [] && CanCopy(st, n) && n > 0
    ensures Inv(Copied(st, n, sendfile)) && Held(Copied(st, n, sendfile)) == Held(st)
  {
    hide Placed, Below, Drained, Foreign, StoreOk, CopyOf, Content;
    var src := st.store[st.waiting[0]];
    var b := CopyOf(st.store[st.buf.value], src, n, sendfile);
    HandFacts(st);
    FirstWaiting(st);
    CopyContent(st.store[st.buf.value], src, n, sendfile);
    AdvanceContent(src, n);
    FillInv(st, b);
    EditInv(st, src);
    EditInv(Filled(st, b), Advance(src, n));
    SplitCopy(Bytes(st.store, st.pending), Bytes(st.store, st.out), Content(src), Bytes(st.store, st.waiting[1..]), n);
    CopyRest(st, b);
  }

  ghost predicate CanCopy(st: State, n: nat)
    requires st.buf.Some? && st.waiting != []
  {
    && st.buf.value in st.store && st.waiting[0] in st.store && st.waiting[0] != st.buf.value
    && BufOk(st.store[st.waiting[0]]) && n <= Size(st.store[st.waiting[0]]) && n <= |st.store[st.buf.value].mem|
  }

  lemma HandFacts(st: State)
    requires Inv(st) && st.buf.Some?
    ensures var x := st.buf.value;
      Reset(st.store, x) && BufOk(st.store[x]) && x !in st.pending && x !in st.out && x !in st.waiting && |st.store[x].mem| > 0
  {
    LiveMembers(st.store, st.busy);
  }

  lemma CopyRest(st: State, b: Buf)
    requires Inv(st) && st.buf.Some? && BufOk(b)
    ensures var s1 := st.store[st.buf.value := b];
      && Bytes(s1, st.pending) == Bytes(st.store, st.pending)
      && Bytes(s1, st.waiting) == Bytes(st.store, st.waiting)
      && (st.waiting != [] ==> Bytes(s1, st.waiting[1..]) == Bytes(st.store, st.waiting[1..]))
  {
    hide Placed, Below, Drained, Foreign, Content;
    HandFacts(st);
    BytesFrame(st.store, st.buf.value, b, st.pending);
    BytesFrame(st.store, st.buf.value, b, st.waiting);
    if st.waiting != [] { BytesFrame(st.store, st.buf.value, b, st.waiting[1..]); }
  }

  lemma SplitCopy(p: seq<Byte>, o: seq<Byte>, c: seq<Byte>, w: seq<Byte>, n: nat)
    requires n <= |c|
    ensures p + (o + c[..n]) + (c[n..] + w) == p + o + (c + w)
  {
    assert c == c[..n] + c[n..];
  }
}
