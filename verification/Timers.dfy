/**
 Event timers (ngx_event_timer.h, ngx_event_timer.c) kept in the red-black tree under keys that
 wrap around.

 An event is identified with its timer node.  `deadline` is the true time, in milliseconds, for
 which each live timer is stored; the program itself sees only words.
 */
module Timers {
  import opened Words
  import opened RbShape
  import opened RbLinks
  import opened RbTree

  const LAZY_DELAY: int := 300
  const INFINITE: Word := WORD - 1

  /** Deadlines do not decrease along `q`. */
  ghost predicate Ordered(q: seq<Node>, deadline: map<Node, int>) {
    && (forall i | 0 <= i < |q| :: q[i] in deadline)
    && (forall i, j | 0 <= i <= j < |q| :: deadline[q[i]] <= deadline[q[j]])
  }

  /** `t` differs from every deadline by less than half the range of a word. */
  ghost predicate InReach(t: int, deadline: map<Node, int>) {
    forall n | n in deadline :: -HALF < t - deadline[n] < HALF
  }

  /** `r` is `q` with `n` entered behind everything due at time `at` or before. */
  ghost predicate Enqueued(q: seq<Node>, n: Node, at: int, deadline: map<Node, int>, r: seq<Node>) {
    exists k :: EnqueuedAt(q, n, at, deadline, r, k)
  }

  ghost predicate EnqueuedAt(q: seq<Node>, n: Node, at: int, deadline: map<Node, int>, r: seq<Node>, k: int) {
    && 0 <= k <= |q| && r == q[..k] + [n] + q[k..]
    && (forall i | 0 <= i < k :: q[i] in deadline && deadline[q[i]] <= at)
    && (forall i | k <= i < |q| :: q[i] in deadline && at < deadline[q[i]])
  }

  /** The wrapped comparison of timer keys agrees with the true times. */
  lemma TimerComparison(q: seq<Node>, node: Node, at: int, deadline: map<Node, int>)
    requires Ordered(q, deadline) && InReach(at, deadline) && node.key == Wrap(at)
    requires forall i | 0 <= i < |q| :: q[i].key == Wrap(deadline[q[i]])
    ensures forall i | 0 <= i < |q| :: Precedes(ByTimer, node, q[i]) <==> at < deadline[q[i]]
    ensures Monotone(ByTimer, node, q)
  {
    forall i | 0 <= i < |q| ensures Precedes(ByTimer, node, q[i]) <==> at < deadline[q[i]] {
      SignedDifference(at, deadline[q[i]]);
    }
  }

  /** Where the tree puts a timer is where it belongs by true time. */
  lemma BelongsByTime(q: seq<Node>, node: Node, at: int, deadline: map<Node, int>, r: seq<Node>, k: nat)
    requires Ordered(q, deadline) && InReach(at, deadline) && node.key == Wrap(at) && node !in q
    requires forall i | 0 <= i < |q| :: q[i].key == Wrap(deadline[q[i]])
    requires k <= |q| && r == q[..k] + [node] + q[k..]
    requires Monotone(ByTimer, node, q) ==> Belongs(ByTimer, node, q, k)
    ensures Enqueued(q, node, at, deadline, r) && Ordered(r, deadline[node := at])
  {
    TimerComparison(q, node, at, deadline);
    assert EnqueuedAt(q, node, at, deadline, r, k);
    EnqueuedOrdered(q, node, at, deadline, r, k);
  }

  lemma EnqueuedOrdered(q: seq<Node>, n: Node, at: int, deadline: map<Node, int>, r: seq<Node>, k: nat)
    requires Ordered(q, deadline) && n !in q && EnqueuedAt(q, n, at, deadline, r, k)
    ensures Ordered(r, deadline[n := at])
  {
    var d := deadline[n := at];
    forall i | 0 <= i < |r| ensures r[i] in d && (i < k ==> d[r[i]] == deadline[q[i]]) && (i > k ==> d[r[i]] == deadline[q[i - 1]])
    {
      assert i < k ==> r[i] == q[i];
      assert i > k ==> r[i] == q[i - 1];
    }
  }

  lemma WithoutOrdered(q: seq<Node>, deadline: map<Node, int>, k: nat)
    requires Ordered(q, deadline) && k < |q| && q[k] !in Without(q, k)
    ensures Ordered(Without(q, k), deadline - {q[k]})
  {
    var r := Without(q, k);
    forall i | 0 <= i < |r| ensures r[i] == q[if i < k then i else i + 1] && r[i] != q[k] {
      assert r[i] in r;
    }
  }

  /** `r` is `q` with `n` taken out, if present, and entered again for time `at`. */
  ghost predicate Rescheduled(q: seq<Node>, n: Node, at: int, deadline: map<Node, int>, r: seq<Node>) {
    if n in q then exists k | 0 <= k < |q| :: q[k] == n && Enqueued(Without(q, k), n, at, deadline, r)
    else Enqueued(q, n, at, deadline, r)
  }

  lemma IsRescheduled(q: seq<Node>, q1: seq<Node>, n: Node, at: int, deadline: map<Node, int>, r: seq<Node>)
    requires exists k | 0 <= k < |q| :: q[k] == n && q1 == Without(q, k)
    requires Enqueued(q1, n, at, deadline - {n}, r)
    ensures Rescheduled(q, n, at, deadline, r)
  {
    var j :| EnqueuedAt(q1, n, at, deadline - {n}, r, j);
    assert EnqueuedAt(q1, n, at, deadline, r, j);
  }

  lemma IsScheduled(q: seq<Node>, n: Node, at: int, deadline: map<Node, int>, r: seq<Node>)
    requires n !in q && Enqueued(q, n, at, deadline, r)
    ensures Rescheduled(q, n, at, deadline, r)
  {
  }

  lemma FirstGone(q: seq<Node>, k: nat)
    requires k < |q|
    ensures if k == 0 then Without(q, k) == q[1..] else q[0] in Without(q, k)
  {
    if k > 0 { assert Without(q, k)[0] == q[0]; }
  }

  lemma MoveFirst(a: seq<Node>, q: seq<Node>)
    requires q != []
    ensures (a + [q[0]]) + q[1..] == a + q
  {
  }

  /** Each deadline is less than LAZY_DELAY away from the time last asked for. */
  ghost predicate Close(deadline: map<Node, int>, asked: map<Node, int>) {
    asked.Keys == deadline.Keys && forall n | n in deadline :: -LAZY_DELAY < deadline[n] - asked[n] < LAZY_DELAY
  }

  lemma CloseAfter(deadline: map<Node, int>, asked: map<Node, int>, n: Node, d: int, a: int)
    requires Close(deadline, asked) && -LAZY_DELAY < d - a < LAZY_DELAY
    ensures Close(deadline[n := d], asked[n := a]) && Close(deadline - {n}, asked - {n})
  {
  }

  lemma SameClose(deadline: map<Node, int>, asked: map<Node, int>, n: Node, a: int)
    requires Close(deadline, asked) && n in deadline && -LAZY_DELAY < deadline[n] - a < LAZY_DELAY
    ensures Close(deadline, asked[n := a])
  {
  }

  /** The log grew by the events `fired`, each stored for a time not after `now`. */
  ghost predicate FiredDue(log: seq<(Node, int)>, log': seq<(Node, int)>, fired: seq<Node>, now: int) {
    && |log'| == |log| + |fired| && log' == log + log'[|log|..]
    && forall i | 0 <= i < |fired| :: log'[|log| + i].0 == fired[i] && log'[|log| + i].1 <= now
  }

  lemma NoneFired(log: seq<(Node, int)>, now: int)
    ensures FiredDue(log, log, [], now)
  {
  }

  lemma FiredMore(log: seq<(Node, int)>, log': seq<(Node, int)>, fired: seq<Node>, now: int, n: Node, d: int)
    requires FiredDue(log, log', fired, now) && d <= now
    ensures FiredDue(log, log' + [(n, d)], fired + [n], now)
  {
    var l := log' + [(n, d)];
    assert l[|log|..] == log'[|log|..] + [(n, d)];
  }

  /** A timer operation: (re)arm an event, or delete its timer if it is set. */
  datatype Request = Add(ev: Node, timer: Word) | Cancel(ev: Node)

  ghost predicate Allowed(r: Request, events: set<Node>, span: nat) {
    r.ev in events && (r.Add? ==> r.timer <= span)
  }

  /** One turn of the event loop: the clock advances, due events are handled, and requests are made. */
  datatype Round = Round(wait: nat, handlers: seq<seq<Request>>, requests: seq<Request>)

  ghost predicate AllowedRound(r: Round, events: set<Node>, lag: nat, span: nat) {
    && r.wait <= lag
    && (forall i | 0 <= i < |r.handlers| :: forall q | q in r.handlers[i] :: Allowed(q, events, span))
    && (forall q | q in r.requests :: Allowed(q, events, span))
  }

  class Timers {
    const tree: RbTree
    /** ngx_current_msec before it was wrapped */
    var now: int
    /** the events whose `timer_set` and `timedout` flags are up */
    var timerSet: set<Node>
    var timedout: set<Node>
    ghost var deadline: map<Node, int>
    /** the time that each live timer was last asked for */
    ghost var asked: map<Node, int>
    /** every event that fired, with the deadline it was stored for */
    ghost var log: seq<(Node, int)>

    /** The tree and the deadlines agree. */
    ghost predicate Stored()
      reads this`timerSet, this`deadline, tree, tree.sentinel, tree.nodes
    {
      && tree.Valid() && tree.order == ByTimer
      && timerSet == tree.nodes == deadline.Keys
      && (forall n | n in tree.nodes :: n.key == Wrap(deadline[n]))
      && Ordered(tree.Sequence(), deadline)
    }

    ghost predicate Valid()
      reads this, tree, tree.sentinel, tree.nodes
    {
      Stored() && Close(deadline, asked)
    }

    /** Live timers, earliest first. */
    ghost function Queue(): seq<Node>
      reads this, tree
    {
      tree.Sequence()
    }

    /** ngx_event_timer_init */
    constructor (sentinel: Node, now: int)
      modifies sentinel`color
      ensures Valid() && Queue() == [] && log == [] && this.now == now && fresh(tree) && tree.sentinel == sentinel
    {
      this.now := now;
      timerSet, timedout, deadline, asked, log := {}, {}, map[], map[], [];
      tree := new RbTree(sentinel, ByTimer);
    }

    /** ngx_event_del_timer */
    method DelTimer(ev: Node)
      requires Valid() && ev in timerSet
      modifies this`timerSet, this`deadline, this`asked, tree`root, tree`nodes, tree`shape, tree.sentinel,
               tree.nodes`left, tree.nodes`right, tree.nodes`parent, tree.nodes`color, ev`key
      ensures Valid() && timerSet == old(timerSet) - {ev} && deadline == old(deadline) - {ev} && asked == old(asked) - {ev}
      ensures exists k | 0 <= k < |old(Queue())| :: old(Queue())[k] == ev && Queue() == Without(old(Queue()), k)
      ensures ev !in Queue()
    {
      hide Stored, Close;
      CloseAfter(deadline, asked, ev, 0, 0);
      Remove(ev);
      asked := asked - {ev};
    }

    /** Takes `ev` out of the tree. */
    method Remove(ev: Node)
      requires Stored() && ev in timerSet
      modifies this`timerSet, this`deadline, tree`root, tree`nodes, tree`shape, tree.sentinel,
               tree.nodes`left, tree.nodes`right, tree.nodes`parent, tree.nodes`color, ev`key
      ensures Stored() && timerSet == old(timerSet) - {ev} && deadline == old(deadline) - {ev}
      ensures exists k | 0 <= k < |old(Queue())| :: old(Queue())[k] == ev && Queue() == Without(old(Queue()), k)
      ensures ev !in Queue()
    {
      hide Fits, RedBlack, InOrder, Without, Ordered, Wrap;
      ghost var q := Queue();
      ghost var k := tree.Delete(ev);
      timerSet := timerSet - {ev};
      deadline := deadline - {ev};
      tree.SequenceNodes();
      assert forall i | 0 <= i < |Queue()| :: Queue()[i] != ev;
      assert ev !in Queue() && Queue() == Without(q, k) && q[k] == ev;
      WithoutOrdered(q, old(deadline), k);
    }

    /** Enters `ev`, whose key is set, into the tree. */
    method Enter(ev: Node, ghost at: int)
      requires Stored() && ev !in timerSet && ev != tree.sentinel && ev.key == Wrap(at) && InReach(at, deadline)
      modifies this`timerSet, this`deadline, tree`root, tree`nodes, tree`shape,
               tree.nodes`left, tree.nodes`right, tree.nodes`parent, tree.nodes`color,
               ev`left, ev`right, ev`parent, ev`color
      ensures Stored() && timerSet == old(timerSet) + {ev} && deadline == old(deadline)[ev := at]
      ensures Enqueued(old(Queue()), ev, at, old(deadline), Queue())
    {
      hide Fits, RedBlack, InOrder, Ordered, Wrap, InReach, Precedes, Belongs, Monotone, Enqueued;
      ghost var q := Queue();
      NotQueued(ev);
      tree.SequenceNodes();
      ghost var k := tree.Insert(ev);
      timerSet := timerSet + {ev};
      deadline := deadline[ev := at];
      assert forall i | 0 <= i < |q| :: q[i] in old(tree.nodes);
      BelongsByTime(q, ev, at, old(deadline), Queue(), k);
    }

    /**
     ngx_event_add_timer: the event is due `timer` milliseconds from now.  A stored deadline less
     than LAZY_DELAY away is kept.
     */
    method AddTimer(ev: Node, timer: Word)
      requires Valid() && ev != tree.sentinel && InReach(now + timer, deadline)
      modifies this`timerSet, this`deadline, this`asked, tree`root, tree`nodes, tree`shape, tree.sentinel,
               tree.nodes`left, tree.nodes`right, tree.nodes`parent, tree.nodes`color,
               ev`left, ev`right, ev`parent, ev`color, ev`key
      ensures Valid() && timerSet == old(timerSet) + {ev}
      ensures ev in deadline && -LAZY_DELAY < deadline[ev] - (now + timer) < LAZY_DELAY && asked == old(asked)[ev := now + timer]
      ensures deadline - {ev} == old(deadline) - {ev}
      ensures if ev in old(timerSet) && -LAZY_DELAY < old(deadline)[ev] - (now + timer) < LAZY_DELAY
              then Queue() == old(Queue()) && deadline == old(deadline)
              else deadline[ev] == now + timer && Rescheduled(old(Queue()), ev, now + timer, old(deadline), Queue())
    {
      hide Stored, Close, Rescheduled, InReach;
      SetTimers();
      CloseAfter(deadline, asked, ev, now + timer, now + timer);
      var kept := Update(ev, timer);
      if kept { SameClose(deadline, asked, ev, now + timer); }
      asked := asked[ev := now + timer];
    }

    /** The body of ngx_event_add_timer; `kept` says that the stored deadline will do. */
    method Update(ev: Node, timer: Word) returns (ghost kept: bool)
      requires Stored() && ev != tree.sentinel && InReach(now + timer, deadline)
      modifies this`timerSet, this`deadline, tree`root, tree`nodes, tree`shape, tree.sentinel,
               tree.nodes`left, tree.nodes`right, tree.nodes`parent, tree.nodes`color,
               ev`left, ev`right, ev`parent, ev`color, ev`key
      ensures Stored() && timerSet == old(timerSet) + {ev}
      ensures kept <==> ev in old(timerSet) && ev in old(deadline) && -LAZY_DELAY < old(deadline)[ev] - (now + timer) < LAZY_DELAY
      ensures if kept then Queue() == old(Queue()) && deadline == old(deadline)
              else deadline == old(deadline)[ev := now + timer] && Rescheduled(old(Queue()), ev, now + timer, old(deadline), Queue())
    {
      hide Fits, RedBlack, InOrder, Ordered, Wrap, Signed, Enqueued, Rescheduled;
      kept := false;
      var key := Wrap(Wrap(now) + timer);
      WrapSum(now, timer);
      tree.SequenceNodes();
      if ev in timerSet {
        var diff := Signed(Wrap(key - ev.key));
        SignedDifference(now + timer, deadline[ev]);
        if (if diff >= 0 then diff else -diff) < LAZY_DELAY {
          return true;
        }
        Reschedule(ev, key, now + timer);
      } else {
        NotQueued(ev);
        ghost var q := Queue();
        ev.key := key;
        Enter(ev, now + timer);
        IsScheduled(q, ev, now + timer, old(deadline), Queue());
      }
    }

    /** Moves a live timer to the key of another deadline. */
    method Reschedule(ev: Node, key: Word, ghost at: int)
      requires Stored() && ev in timerSet && key == Wrap(at) && InReach(at, deadline)
      modifies this`timerSet, this`deadline, tree`root, tree`nodes, tree`shape, tree.sentinel,
               tree.nodes`left, tree.nodes`right, tree.nodes`parent, tree.nodes`color, ev`key
      ensures Stored() && timerSet == old(timerSet) && deadline == old(deadline)[ev := at]
      ensures Rescheduled(old(Queue()), ev, at, old(deadline), Queue())
    {
      hide Fits, RedBlack, InOrder, Ordered, Wrap, Enqueued, Rescheduled, Without;
      ghost var q := Queue();
      tree.SequenceNodes();
      Remove(ev);
      ghost var q1 := Queue();
      ev.key := key;
      Enter(ev, at);
      IsRescheduled(q, q1, ev, at, old(deadline), Queue());
    }

    lemma SetTimers()
      requires Stored()
      ensures timerSet == deadline.Keys
    {
    }

    lemma NotQueued(ev: Node)
      requires Stored() && ev !in timerSet
      ensures ev !in Queue()
    {
      tree.SequenceNodes();
    }

    /** ngx_event_find_timer: how long until the earliest timer is due. */
    method FindTimer() returns (wait: Word)
      requires Valid() && InReach(now, deadline)
      ensures Queue() == [] ==> wait == INFINITE
      ensures Queue() != [] ==>
          && Queue()[0] in deadline && (forall n | n in deadline :: deadline[Queue()[0]] <= deadline[n])
          && wait == if deadline[Queue()[0]] > now then deadline[Queue()[0]] - now else 0
    {
      hide Fits, RedBlack, InOrder, Close, Signed;
      tree.EmptyTree();
      if tree.root == tree.sentinel {
        return INFINITE;
      }
      var node := tree.First();
      EarliestFirst();
      SignedDifference(deadline[node], now);
      var timer := Signed(Wrap(node.key - Wrap(now)));
      return if timer > 0 then timer else 0;
    }

    lemma EarliestFirst()
      requires Valid() && Queue() != []
      ensures Queue()[0] in deadline && forall n | n in deadline :: deadline[Queue()[0]] <= deadline[n]
    {
      hide Fits, RedBlack, InOrder, Close;
      tree.SequenceNodes();
    }

    /** Live deadlines lie at most `lag` before and `span` after the present. */
    ghost predicate Within(lag: nat, span: nat)
      reads this
    {
      lag + span < HALF && forall n | n in deadline :: now - lag <= deadline[n] <= now + span
    }

    /** One timer operation. */
    method Perform(r: Request, ghost events: set<Node>, ghost lag: nat, ghost span: nat)
      requires Valid() && Within(lag, span) && tree.nodes <= events && tree.sentinel !in events
      requires Allowed(r, events, span)
      modifies this`timerSet, this`deadline, this`asked, tree`root, tree`nodes, tree`shape, tree.sentinel, events
      ensures Valid() && Within(lag, span) && tree.nodes <= events
    {
      hide Fits, RedBlack, InOrder, Close, Ordered, Without, Wrap, Rescheduled;
      if r.Add? {
        AddTimer(r.ev, r.timer);
        assert forall n | n in deadline && n != r.ev :: n in old(deadline) - {r.ev} && deadline[n] == old(deadline)[n] by {
          assert forall n | n in deadline && n != r.ev :: n in deadline - {r.ev} && deadline[n] == (deadline - {r.ev})[n];
        }
      } else if r.ev in timerSet {
        DelTimer(r.ev);
      }
    }

    /** What the handler of a fired event does to timers. */
    method Handle(requests: seq<Request>, ghost events: set<Node>, ghost lag: nat, ghost span: nat)
      requires Valid() && Within(lag, span) && tree.nodes <= events && tree.sentinel !in events
      requires forall r | r in requests :: Allowed(r, events, span)
      modifies this`timerSet, this`deadline, this`asked, tree`root, tree`nodes, tree`shape, tree.sentinel, events
      ensures Valid() && Within(lag, span) && tree.nodes <= events
    {
      hide Fits, RedBlack, InOrder, Close, Ordered, Wrap, Allowed;
      for i := 0 to |requests|
        invariant Valid() && Within(lag, span) && tree.nodes <= events
      {
        assert requests[i] in requests;
        Perform(requests[i], events, lag, span);
      }
    }

    /** Takes the first timer out of the tree and marks its event. */
    method Fire(node: Node)
      requires Valid() && Queue() != [] && node == Queue()[0] && node in timerSet
      modifies this`timerSet, this`timedout, this`deadline, this`asked, this`log, tree`root, tree`nodes, tree`shape, tree.sentinel,
               tree.nodes`left, tree.nodes`right, tree.nodes`parent, tree.nodes`color, node`key
      ensures node in old(deadline) && log == old(log) + [(node, old(deadline)[node])]
      ensures Valid() && Queue() == old(Queue())[1..] && timerSet == old(timerSet) - {node}
      ensures deadline == old(deadline) - {node} && timedout == old(timedout) + {node}
      ensures tree.nodes == old(tree.nodes) - {node}
    {
      hide Fits, RedBlack, InOrder, Close, Ordered, Wrap;
      ghost var q := Queue();
      log := log + [(node, deadline[node])];
      DelTimer(node);
      timedout := timedout + {node};
      ghost var k :| 0 <= k < |q| && q[k] == node && Queue() == Without(q, k);
      FirstGone(q, k);
    }

    /** The first timer, if it is due. */
    method Due() returns (node: Node?)
      requires Valid() && InReach(now, deadline)
      ensures node != null ==>
          && Queue() != [] && node == Queue()[0] && node in timerSet && node in tree.nodes
          && node in deadline && deadline[node] <= now
          && forall n | n in deadline :: deadline[node] <= deadline[n]
      ensures node == null ==> forall n | n in deadline :: now < deadline[n]
    {
      hide Fits, RedBlack, InOrder, Close, Signed;
      tree.EmptyTree();
      tree.SequenceNodes();
      if tree.root == tree.sentinel {
        return null;
      }
      node := tree.First();
      EarliestFirst();
      SignedDifference(deadline[node], now);
      if Signed(Wrap(node.key - Wrap(now))) > 0 {
        return null;
      }
    }

    /**
     ngx_event_expire_timers.  `script` lists what the handlers of the events fired one after the
     other do to timers; handlers beyond its end do nothing.
     */
    method Expire(script: seq<seq<Request>>, ghost events: set<Node>, ghost lag: nat, ghost span: nat)
      returns (fired: seq<Node>)
      requires Valid() && Within(lag, span) && tree.nodes <= events && tree.sentinel !in events
      requires forall i | 0 <= i < |script| :: forall r | r in script[i] :: Allowed(r, events, span)
      modifies this`timerSet, this`timedout, this`deadline, this`asked, this`log, tree`root, tree`nodes, tree`shape, tree.sentinel, events
      ensures Valid() && Within(lag, span) && tree.nodes <= events
      ensures forall n | n in deadline :: now < deadline[n]
      ensures FiredDue(old(log), log, fired, now)
      ensures forall i | 0 <= i < |fired| :: fired[i] in timedout
      ensures script == [] ==> fired + Queue() == old(Queue())
      ensures script == [] ==> forall i | 0 <= i < |fired| :: fired[i] in old(deadline) && old(deadline)[fired[i]] <= now
    {
      hide Fits, RedBlack, InOrder, Close, Ordered, Signed, Wrap, Allowed, Valid, FiredDue;
      fired := [];
      NoneFired(log, now);
      var next := 0;
      while true
        invariant Valid() && Within(lag, span) && tree.nodes <= events
        invariant 0 <= next <= |script| && FiredDue(old(log), log, fired, now)
        invariant forall i | 0 <= i < |fired| :: fired[i] in timedout
        invariant script == [] ==> fired + Queue() == old(Queue()) && deadline.Keys <= old(deadline).Keys
        invariant script == [] ==> forall n | n in deadline :: deadline[n] == old(deadline)[n]
        invariant script == [] ==>
          forall i | 0 <= i < |fired| :: fired[i] in old(deadline) && old(deadline)[fired[i]] <= now
        decreases |script| - next, |timerSet|
      {
        var node := Due();
        if node == null {
          break;
        }
        MoveFirst(fired, Queue());
        FiredMore(old(log), log, fired, now, node, deadline[node]);
        Fire(node);
        fired := fired + [node];
        if next < |script| {
          Handle(script[next], events, lag, span);
          next := next + 1;
        }
      }
    }

    /**
     Every run of rounds in which the clock advances, what is due is fired, and timers are set and
     deleted: a stored deadline is always within LAZY_DELAY of the time its event last asked for,
     however many updates came before, and nothing due is left over.
     */
    method Serve(rounds: seq<Round>, ghost events: set<Node>, ghost lag: nat, ghost span: nat)
      requires Valid() && Within(0, span) && lag + span < HALF && tree.nodes <= events && tree.sentinel !in events
      requires forall i | 0 <= i < |rounds| :: AllowedRound(rounds[i], events, lag, span)
      modifies this`now, this`timerSet, this`timedout, this`deadline, this`asked, this`log, tree`root, tree`nodes, tree`shape, tree.sentinel, events
      ensures Valid() && Within(0, span)
      ensures asked.Keys == deadline.Keys && forall n | n in deadline :: -LAZY_DELAY < deadline[n] - asked[n] < LAZY_DELAY
    {
      hide Fits, RedBlack, InOrder, Ordered, Wrap, Allowed, FiredDue;
      for i := 0 to |rounds|
        invariant Valid() && Within(0, span) && tree.nodes <= events
      {
        now := now + rounds[i].wait;
        var fired := Expire(rounds[i].handlers, events, lag, span);
        Handle(rounds[i].requests, events, 0, span);
      }
    }
  }
}
