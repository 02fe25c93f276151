/**
 The output chain (ngx_output_chain.c with ngx_chain_update_chains of ngx_buf.c): buffers of the
 caller are passed to the filter below, as they are or copied into a bounded set of own buffers
 that are recycled once the filter has consumed them.

 The filter consumes, at every call, any number of the bytes it holds.  Direct and asynchronous
 file reading, and calls that return an error, are not part of the model.
 */
module OutputChain {
  import opened Wrappers
  import opened Words
  import opened ChainState

  datatype Result = OK | AGAIN

  class Output {
    const sendfile: bool
    const needInMemory: bool
    const needInTemp: bool
    /** bufs.num and bufs.size */
    const num: nat
    const size: nat
    var store: Store
    var next: Id
    /** ctx->in */
    var waiting: seq<Id>
    var buf: Option<Id>
    var free: seq<Id>
    var busy: seq<Id>
    /** the local chain of ngx_output_chain */
    var out: seq<Id>
    /** ctx->allocated */
    var made: nat
    /** what the filter below holds, and the bytes it has consumed */
    var pending: seq<Id>
    var sent: seq<Byte>
    ghost var direct: seq<Id>

    ghost function View(): State
      reads this
    {
      State(store, waiting, buf, free, busy, out, pending, direct, made)
    }

    ghost predicate Holding()
      reads this
    {
      Inv(View()) && size > 0 && made <= num && (forall i | i in store :: i < next) && FrontLive(store, busy)
    }

    /** What holds between calls. */
    ghost predicate Valid()
      reads this
    {
      Holding() && buf.None? && out == []
    }

    /** Every byte that came in and is not forgotten: consumed below, held there, or waiting. */
    ghost function Stream(): seq<Byte>
      reads this
    {
      sent + Held(View())
    }

    constructor (sendfile: bool, needInMemory: bool, needInTemp: bool, num: nat, size: nat)
      requires size > 0
      ensures Valid() && Stream() == [] && store == map[]
    {
      this.sendfile, this.needInMemory, this.needInTemp, this.num, this.size := sendfile, needInMemory, needInTemp, num, size;
      store, next, waiting, buf, free, busy, out, made := map[], 0, [], None, [], [], [], 0;
      pending, sent, direct := [], [], [];
    }

    /** ngx_output_chain_as_is */
    method AsIs(b: Buf) returns (yes: bool, b': Buf)
      requires BufOk(b)
      ensures yes <==> Special(b) || Passable(b, sendfile, needInMemory, needInTemp)
      ensures b' == b || (b' == b.(inFile := false) && InMemory(b))
    {
      b' := b;
      if Special(b) {
        return true, b';
      }
      if !sendfile {
        if !InMemory(b) {
          return false, b';
        }
        b' := b.(inFile := false);
      }
      if needInMemory && !InMemory(b') {
        return false, b';
      }
      if needInTemp && (b'.memory || b'.mmap) {
        return false, b';
      }
      return true, b';
    }

    /** ngx_output_chain_get_buf: a new own buffer, small for a small last buffer. */
    method GetBuf(bsize: nat)
      requires Holding() && buf.None? && waiting != [] && made < num && bsize > 0
      modifies this`store, this`next, this`buf, this`made
      ensures Holding() && buf.Some? && Held(View()) == old(Held(View()))
      ensures forall i | i in old(store) :: i in store && store[i] == old(store)[i]
      ensures made == old(made) + 1 && Weight(store, waiting) == old(Weight(store, waiting))
    {
      hide Inv, Held;
      FirstWaiting(View());
      var cap := size;
      if store[waiting[0]].lastInChain {
        if bsize < size {
          cap := bsize;
        } else if num == 1 && bsize < size + size / 4 {
          cap := bsize;
        }
      }
      var b := Buf(seq(cap, k => 0), 0, 0, [], 0, 0, true, false, false, false, false, false, false, false, true);
      MakeInv(View(), next, b);
      GrowWeight(View(), next, b);
      store := store[next := b];
      buf := Some(next);
      next := next + 1;
      made := made + 1;
    }

    /** Lines 165-195: copies into the buffer in hand and links it to the output. */
    method CopyBuf()
      requires Holding() && buf.Some? && waiting != [] && waiting[0] in store && Size(store[waiting[0]]) > 0
      modifies this`store, this`buf, this`out, this`waiting
      ensures Holding() && buf.None? && Held(View()) == old(Held(View())) && out != []
      ensures Weight(store, waiting) < old(Weight(store, waiting))
    {
      hide Inv, Held, Content, CopyOf;
      FirstWaiting(View());
      HandFacts(View());
      NotBusy(View());
      var src, dst := store[waiting[0]], store[buf.value];
      var n := Size(src);
      if |dst.mem| - dst.pos < n {
        n := |dst.mem| - dst.pos;
      }
      CopyInv(View(), n, sendfile);
      CopyWeight(View(), n, sendfile);
      store := store[buf.value := CopyOf(dst, src, n, sendfile)][waiting[0] := Advance(src, n)];
      out := out + [buf.value];
      buf := None;
      AdvanceContent(src, n);
      if Size(store[waiting[0]]) == 0 {
        Skip();
      }
    }

    /** The first waiting buffer is dropped from the chain. */
    method Skip()
      requires Holding() && waiting != [] && waiting[0] in store && Empty(store, waiting[0])
      modifies this`waiting
      ensures Holding() && Held(View()) == old(Held(View())) && Weight(store, waiting) < old(Weight(store, waiting))
    {
      hide Inv, Held, Weight, FrontLive;
      SkipInv(View());
      SkipWeight(store, waiting);
      waiting := waiting[1..];
    }

    /** Tests the first waiting buffer and, if no copy is needed, moves it to the output. */
    method MoveAsIs() returns (yes: bool)
      requires Holding() && waiting != []
      modifies this`store, this`waiting, this`out
      ensures Holding() && Held(View()) == old(Held(View()))
      ensures if yes then out != [] && Weight(store, waiting) < old(Weight(store, waiting))
              else out == old(out) && waiting == old(waiting) && Weight(store, waiting) == old(Weight(store, waiting))
      ensures waiting == old(waiting) && !yes ==>
        waiting[0] in store && waiting[0] in old(store) && Size(store[waiting[0]]) == Size(old(store)[waiting[0]]) && !Special(old(store)[waiting[0]])
    {
      hide Inv, Held, Weight;
      FirstWaiting(View());
      NotBusy(View());
      var x := waiting[0];
      var b;
      yes, b := AsIs(store[x]);
      if b != store[x] {
        ForgetFileInv(View());
        ForgetWeight(View());
        store := store[x := b];
      }
      if yes {
        ToOutInv(View());
        SkipWeight(store, waiting);
        out := out + [x];
        waiting := waiting[1..];
      }
    }

    /** Lines 135-163: a buffer to copy into, if one can be had. */
    method TakeBuf(bsize: nat) returns (ok: bool)
      requires Holding() && buf.None? && waiting != [] && bsize > 0
      modifies this`store, this`next, this`buf, this`free, this`made
      ensures Holding() && Held(View()) == old(Held(View())) && Weight(store, waiting) == old(Weight(store, waiting))
      ensures forall i | i in old(store) :: i in store && store[i] == old(store)[i]
      ensures if ok then buf.Some? else buf.None? && free == [] && (out != [] || made == num)
    {
      hide Inv, Held, Weight, FrontLive;
      if free != [] {
        FromFreeInv(View());
        buf := Some(free[0]);
        free := free[1..];
      } else if out != [] || made == num {
        return false;
      } else {
        GetBuf(bsize);
      }
      return true;
    }

    /**
     Lines 90-196: moves waiting buffers to the output, as they are or copied, until none is left
     or no buffer to copy into can be had.
     */
    method Fill()
      requires Holding() && buf.None? && out == []
      modifies this`store, this`next, this`waiting, this`buf, this`free, this`out, this`made
      ensures Holding() && buf.None? && Held(View()) == old(Held(View()))
      ensures waiting != [] ==> free == [] && (out != [] || made == num)
      ensures Weight(store, waiting) <= old(Weight(store, waiting))
      ensures out != [] ==> Weight(store, waiting) < old(Weight(store, waiting))
    {
      hide Inv, Held, Weight, FrontLive;
      while waiting != []
        invariant Holding() && buf.None? && Held(View()) == old(Held(View()))
        invariant Weight(store, waiting) <= old(Weight(store, waiting))
        invariant out != [] ==> Weight(store, waiting) < old(Weight(store, waiting))
        decreases Weight(store, waiting)
      {
        FirstWaiting(View());
        var bsize := Size(store[waiting[0]]);
        if bsize == 0 && !Special(store[waiting[0]]) {
          Skip();
          continue;
        }
        var yes := MoveAsIs();
        if yes {
          continue;
        }
        PositiveSize(View(), waiting[0]);
        var ok := TakeBuf(bsize);
        if !ok {
          break;
        }
        CopyBuf();
      }
    }

    /** What the invariant is about while the filter below has been given `out`. */
    ghost function Shown(): State
      reads this
    {
      View().(busy := busy + out, out := [])
    }

    lemma ShownIsView()
      requires out == []
      ensures Shown() == View()
    {
    }

    lemma AllBelow()
      requires Holding() && buf.None? && out == [] && free == []
      ensures forall i | i in OwnSet(store) :: i in busy && !Empty(store, i)
    {
      NoneUsedUp(View());
    }

    /** The filter consumes at most `k` bytes of the first buffer that it holds. */
    method Consume(k: nat) returns (n: nat)
      requires Inv(Shown()) && pending != [] && k > 0
      modifies this`store, this`pending, this`direct, this`sent
      ensures Inv(Shown()) && 0 < n <= k && old(sent) <= sent && sent + Held(Shown()) == old(sent + Held(Shown()))
      ensures store.Keys == old(store).Keys && Weight(store, waiting) == old(Weight(store, waiting))
    {
      hide Inv, Held, Weight, Content;
      FirstPending(Shown());
      var x := pending[0];
      n := Size(store[x]);
      if k < n {
        n := k;
      }
      ConsumeInv(Shown(), n);
      ConsumeWeight(Shown(), n);
      AdvanceContent(store[x], n);
      sent := sent + Content(store[x])[..n];
      if n == Size(store[x]) {
        pending := pending[1..];
        if direct != [] {
          direct := direct[1..];
        }
      }
      store := store[x := Advance(store[x], n)];
    }

    /** The filter below takes the output and consumes any number of the bytes that it holds. */
    method Filter() returns (rc: Result)
      requires Holding()
      modifies this`store, this`pending, this`direct, this`sent
      ensures Inv(Shown()) && old(sent) <= sent && sent + Held(Shown()) == old(Stream())
      ensures store.Keys == old(store).Keys && Weight(store, waiting) == old(Weight(store, waiting))
    {
      hide Inv, Held, Weight, Content;
      PassInv(View());
      pending := pending + Live(store, out);
      var k: nat := *;
      while k > 0 && pending != []
        invariant Inv(Shown()) && old(sent) <= sent && sent + Held(Shown()) == old(Stream())
        invariant store.Keys == old(store).Keys && Weight(store, waiting) == old(Weight(store, waiting))
        decreases k
      {
        var n := Consume(k);
        k := k - n;
      }
      rc := *;
    }

    /** ngx_chain_update_chains */
    method UpdateChains()
      requires Inv(Shown())
      modifies this`store, this`busy, this`out, this`free
      ensures Inv(View()) && out == [] && Held(View()) == old(Held(Shown()))
      ensures store.Keys == old(store).Keys && Weight(store, waiting) == old(Weight(store, waiting))
      ensures FrontLive(store, busy)
    {
      hide Inv, Held, Weight;
      busy := busy + out;
      out := [];
      while busy != []
        invariant Inv(View()) && out == [] && Held(View()) == old(Held(Shown()))
        invariant store.Keys == old(store).Keys && Weight(store, waiting) == old(Weight(store, waiting))
        decreases |busy|
      {
        var x := busy[0];
        FirstBusy(View());
        if Size(store[x]) != 0 {
          PositiveSize(View(), x);
          break;
        }
        StripInv(View());
        StripWeight(View());
        busy := busy[1..];
        if store[x].own {
          store := store[x := store[x].(pos := 0, last := 0)];
          free := [x] + free;
        }
      }
    }

    /** A buffer of the caller is linked to the end of the waiting ones. */
    method Arrive(b: Buf)
      requires Holding() && BufOk(b) && !b.own
      modifies this`store, this`next, this`waiting
      ensures Holding() && Held(View()) == old(Held(View())) + Content(b)
    {
      hide Inv, Held, Content;
      ArriveInv(View(), next, b);
      store := store[next := b];
      waiting := waiting + [next];
      next := next + 1;
    }

    /** ngx_output_chain_add_copy */
    method AddCopy(incoming: seq<Buf>)
      requires Holding() && forall b | b in incoming :: BufOk(b) && !b.own
      modifies this`store, this`next, this`waiting
      ensures Holding() && Held(View()) == old(Held(View())) + Contents(incoming)
    {
      hide Inv, Held, Content, FrontLive, BufOk;
      for k := 0 to |incoming|
        invariant Holding() && Held(View()) == old(Held(View())) + Contents(incoming[..k])
      {
        Arrive(incoming[k]);
        ContentsStep(incoming, k);
      }
      assert incoming[..|incoming|] == incoming;
    }

    /** The short path: with nothing waiting or busy, one buffer goes down as it is. */
    method SendDirect(b: Buf) returns (rc: Result)
      requires Valid() && waiting == [] && busy == [] && BufOk(b) && !b.own
      modifies this`store, this`next, this`pending, this`direct, this`sent
      ensures Valid() && old(sent) <= sent && Stream() == old(Stream()) + Content(b)
    {
      hide Inv, Held, Weight, Content;
      DirectInv(View(), next, b);
      store := store[next := b];
      pending := pending + Live(store, [next]);
      direct := direct + Live(store, [next]);
      next := next + 1;
      rc := Filter();
      ShownIsView();
    }

    /**
     ngx_output_chain.  The bytes that come in follow those before them, in order; when buffers
     are left waiting, every own buffer is below, unconsumed, and no more may be made.
     */
    method Call(incoming: seq<Buf>) returns (rc: Result)
      requires Valid() && forall b | b in incoming :: BufOk(b) && !b.own
      modifies this
      ensures Valid() && old(sent) <= sent && Stream() == old(Stream()) + Contents(incoming)
      ensures waiting != [] ==> rc == AGAIN && free == [] && made == num
      ensures waiting != [] ==> forall i | i in OwnSet(store) :: i in busy && !Empty(store, i)
    {
      hide Inv, Held, Weight, Content, Special, Passable;
      if waiting == [] && busy == [] {
        if incoming == [] {
          rc := Filter();
          ShownIsView();
          return;
        }
        if |incoming| == 1 {
          var yes, b := AsIs(incoming[0]);
          if yes {
            SameContent(incoming[0], b);
            ContentsStep(incoming, 0);
            assert incoming[..1] == incoming;
            rc := SendDirect(b);
            return;
          }
        }
      }
      AddCopy(incoming);
      rc := Work();
    }

    /** Lines 78-215: fills, passes down and recycles until nothing is left to do. */
    method Work() returns (rc: Result)
      requires Valid()
      modifies this
      ensures Valid() && old(sent) <= sent && Stream() == old(Stream())
      ensures waiting != [] ==> rc == AGAIN && free == [] && made == num
      ensures waiting != [] ==> forall i | i in OwnSet(store) :: i in busy && !Empty(store, i)
    {
      hide Inv, Held, Weight, FrontLive;
      var last: Option<Result> := None;
      while true
        invariant Valid() && old(sent) <= sent && Stream() == old(Stream())
        decreases Weight(store, waiting), if last.None? then 1 else 0
      {
        Fill();
        if out == [] && last.Some? {
          if waiting != [] {
            AllBelow();
            return AGAIN;
          }
          return last.value;
        }
        rc := Filter();
        last := Some(rc);
        UpdateChains();
      }
    }

    /** Every sequence of calls passes the bytes of all its buffers down in order, none lost or repeated. */
    method Serve(calls: seq<seq<Buf>>)
      requires Valid() && forall c | c in calls :: forall b | b in c :: BufOk(b) && !b.own
      modifies this
      ensures Valid() && Stream() == old(Stream()) + AllContents(calls) && old(sent) <= sent <= Stream()
      ensures made <= num && made == |OwnSet(store)|
    {
      hide Inv, Held, Contents, FrontLive, BufOk;
      for k := 0 to |calls|
        invariant Valid() && Stream() == old(Stream()) + AllContents(calls[..k]) && old(sent) <= sent
      {
        assert calls[k] in calls;
        var rc := Call(calls[k]);
        assert calls[..k + 1][..k] == calls[..k];
      }
      assert calls[..|calls|] == calls;
      OnePlace(View());
    }
  }

  /** A buffer with data that needs no copy. */
  predicate Passable(b: Buf, sendfile: bool, needInMemory: bool, needInTemp: bool) {
    && (InMemory(b) || (sendfile && !needInMemory))
    && !(needInTemp && (b.memory || b.mmap))
  }

  /** The first busy buffer, if any, has bytes left. */
  ghost predicate FrontLive(store: Store, busy: seq<Id>) {
    busy == [] || (busy[0] in store && Size(store[busy[0]]) > 0)
  }

  /** Bytes and buffers that wait. */
  ghost function Weight(store: Store, q: seq<Id>): nat {
    |Bytes(store, q)| + |q|
  }

  lemma SkipWeight(store: Store, q: seq<Id>)
    requires q != []
    ensures Weight(store, q[1..]) < Weight(store, q)
  {
  }

  lemma ForgetWeight(st: State)
    requires Inv(st) && st.waiting != [] && st.waiting[0] in st.store && InMemory(st.store[st.waiting[0]])
    ensures var b := st.store[st.waiting[0]].(inFile := false); Weight(st.store[st.waiting[0] := b], st.waiting) == Weight(st.store, st.waiting)
  {
    FirstWaiting(st);
    BytesSame(st.store, st.waiting[0], st.store[st.waiting[0]].(inFile := false), st.waiting);
  }

  lemma GrowWeight(st: State, x: Id, b: Buf)
    requires Inv(st) && x !in st.store && BufOk(b)
    ensures Weight(st.store[x := b], st.waiting) == Weight(st.store, st.waiting)
  {
    hide Live;
    assert x !in st.waiting;
    BytesFrame(st.store, x, b, st.waiting);
  }

  /** Copying `n` bytes leaves `n` fewer to wait. */
  lemma CopyWeight(st: State, n: nat, sendfile: bool)
    requires Inv(st) && st.buf.Some? && st.waiting != [] && CanCopy(st, n) && n > 0
    ensures Weight(Copied(st, n, sendfile).store, st.waiting) == Weight(st.store, st.waiting) - n
  {
    hide Placed, Below, Drained, Foreign, StoreOk, CopyOf, Content;
    var src := st.store[st.waiting[0]];
    var b := CopyOf(st.store[st.buf.value], src, n, sendfile);
    HandFacts(st);
    FirstWaiting(st);
    CopyContent(st.store[st.buf.value], src, n, sendfile);
    AdvanceContent(src, n);
    FillInv(st, b);
    CopyRest(st, b);
    EditedLists(Filled(st, b), Advance(src, n));
    BytesFrame(Filled(st, b).store, st.waiting[0], Advance(src, n), st.waiting[1..]);
  }

  ghost function Contents(bs: seq<Buf>): seq<Byte> {
    if bs == [] then [] else Contents(bs[..|bs| - 1]) + Content(bs[|bs| - 1])
  }

  lemma ContentsStep(bs: seq<Buf>, k: nat)
    requires k < |bs|
    ensures Contents(bs[..k + 1]) == Contents(bs[..k]) + Content(bs[k])
  {
    assert bs[..k + 1][..k] == bs[..k];
  }

  lemma FirstPending(st: State)
    requires Inv(st) && st.pending != []
    ensures st.pending[0] in st.store && BufOk(st.store[st.pending[0]]) && Size(st.store[st.pending[0]]) > 0
  {
    Listed(st);
    assert st.pending[0] in st.pending;
    PendingFacts(st);
  }

  lemma FirstBusy(st: State)
    requires Inv(st) && st.busy != []
    ensures st.busy[0] in st.store
  {
    assert st.busy[0] in st.busy;
  }

  lemma ConsumeWeight(st: State, n: nat)
    requires Inv(st) && st.pending != [] && st.pending[0] in st.store && n <= Size(st.store[st.pending[0]])
    ensures Weight(Consumed(st, n).store, st.waiting) == Weight(st.store, st.waiting)
  {
    hide Live, InOrder;
    PendingFacts(st);
    var x := st.pending[0];
    assert x in st.pending;
    AdvanceContent(st.store[x], n);
    BytesFrame(st.store, x, Advance(st.store[x], n), st.waiting);
  }

  lemma StripWeight(st: State)
    requires Inv(st) && st.busy != [] && Empty(st.store, st.busy[0])
    ensures Weight(Stripped(st).store, st.waiting) == Weight(st.store, st.waiting)
  {
    hide Live, InOrder;
    var x := st.busy[0];
    if Own(st.store, x) { BytesEmpty(st.store, x, st.store[x].(pos := 0, last := 0), st.waiting); }
  }

  lemma NotBusy(st: State)
    requires Inv(st)
    ensures (st.waiting != [] ==> st.waiting[0] !in st.busy) && (st.buf.Some? ==> st.buf.value !in st.busy)
    ensures forall i | i in st.busy :: i in st.store
  {
    if st.waiting != [] { assert st.waiting[0] in st.waiting; }
  }

  lemma PositiveSize(st: State, x: Id)
    requires Inv(st) && x in st.store
    ensures Size(st.store[x]) >= 0
  {
    assert BufOk(st.store[x]);
  }

  lemma SameContent(b: Buf, b': Buf)
    requires BufOk(b) && (b' == b || (b' == b.(inFile := false) && InMemory(b)))
    ensures BufOk(b') && Content(b') == Content(b)
  {
  }

  ghost function AllContents(calls: seq<seq<Buf>>): seq<Byte> {
    if calls == [] then [] else AllContents(calls[..|calls| - 1]) + Contents(calls[|calls| - 1])
  }

  ghost function Places(st: State, i: Id): set<nat> {
    (if st.buf == Some(i) then {0} else {}) + (if i in st.free then {1} else {}) +
    (if i in st.busy then {2} else {}) + (if i in st.out then {3} else {})
  }

  /** Each of the buffers made is in exactly one of the four places, and what is passed down is never free. */
  lemma OnePlace(st: State)
    requires Inv(st)
    ensures st.made == |OwnSet(st.store)|
    ensures forall i | i in OwnSet(st.store) :: |Places(st, i)| == 1
    ensures forall i | i in st.pending :: i !in st.free && st.buf != Some(i)
  {
    PendingFacts(st);
    forall i | i in OwnSet(st.store) ensures |Places(st, i)| == 1 {
      assert Places(st, i) == {0} || Places(st, i) == {1} || Places(st, i) == {2} || Places(st, i) == {3};
    }
  }
}
