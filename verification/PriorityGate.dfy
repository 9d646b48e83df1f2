/** The two-class write gate of internal/protocol/priority.go.

  `Gate` is the state guarded by the gate's mutex.  The class `PriorityGate` changes its fields in
  place as the source does, and each of its methods is proved to compute one of the functions on
  `Gate`.  The second half of the module runs those functions under every interleaving of arrivals,
  releases and cancellations. */
module PriorityGates {
  import opened Wrappers

  /** High waiters are served first for this many consecutive grants while a low waiter is queued. */
  const MAX_BURST := 8

  datatype Gate<W> = Gate(held: bool, burst: nat, high: seq<W>, low: seq<W>)

  /** First critical section of acquire: take a free gate, otherwise join the queue of the class. */
  function Enter<W>(g: Gate<W>, w: W, high: bool): Gate<W> {
    if !g.held then g.(held := true)
    else if high then g.(high := g.high + [w])
    else g.(low := g.low + [w])
  }

  /** The queue without its first occurrence of w. */
  function Without<W(==)>(q: seq<W>, w: W): seq<W> {
    if q == [] then [] else if q[0] == w then q[1..] else [q[0]] + Without(q[1..], w)
  }

  /** Second critical section of acquire: a cancelled waiter that was not granted leaves its queue. */
  function Withdraw<W(==)>(g: Gate<W>, w: W, high: bool): Gate<W> {
    if high then g.(high := Without(g.high, w)) else g.(low := Without(g.low, w))
  }

  predicate ServesHigh<W>(g: Gate<W>) {
    |g.high| > 0 && (g.burst < MAX_BURST || |g.low| == 0)
  }

  /** release: the waiter that becomes the owner, if one is queued. */
  function Next<W>(g: Gate<W>): Option<W> {
    if ServesHigh(g) then Some(g.high[0]) else if |g.low| > 0 then Some(g.low[0]) else None
  }

  /** release: the gate afterwards. */
  function Release<W>(g: Gate<W>): Gate<W> {
    if ServesHigh(g) then g.(burst := g.burst + 1, high := g.high[1..])
    else if |g.low| > 0 then g.(burst := 0, low := g.low[1..])
    else g.(held := false, burst := 0)
  }

  lemma {:induction false} WithoutAt<W>(q: seq<W>, i: nat)
    requires i < |q| && forall j :: 0 <= j < i ==> q[j] != q[i]
    ensures Without(q, q[i]) == q[..i] + q[i + 1..]
  {
    if i == 0 {
    } else {
      WithoutAt(q[1..], i - 1);
      assert q[1..][..i - 1] == q[1..i] && q[1..][i..] == q[i + 1..];
      assert [q[0]] + q[1..i] == q[..i];
      assert [q[0]] + (q[1..i] + q[i + 1..]) == ([q[0]] + q[1..i]) + q[i + 1..];
    }
  }

  lemma {:induction false} WithoutAbsent<W>(q: seq<W>, w: W)
    requires w !in q
    ensures Without(q, w) == q
  {
    if q != [] {
      WithoutAbsent(q[1..], w);
    }
  }

  /** A queued writer.  Its ready channel is closed exactly when it is granted. */
  class WriteWaiter {
    var granted: bool

    constructor ()
      ensures !granted
    {
      granted := false;
    }
  }

  datatype Entry = Refused | Owner | Queued(waiter: WriteWaiter)

  class PriorityGate {
    var held: bool
    var burst: nat
    var high: seq<WriteWaiter>
    var low: seq<WriteWaiter>

    ghost function View(): Gate<WriteWaiter>
      reads this
    {
      Gate(held, burst, high, low)
    }

    constructor ()
      ensures View() == Gate(false, 0, [], [])
    {
      held, burst, high, low := false, 0, [], [];
    }

    /** acquire up to the point where the caller either owns the gate or starts to wait.  A context
        that is already cancelled leaves the gate alone. */
    method Acquire(cancelled: bool, wantHigh: bool) returns (entry: Entry)
      modifies this
      ensures cancelled ==> entry == Refused && View() == old(View())
      ensures !cancelled && !old(held) ==> entry == Owner
      ensures !cancelled && old(held) ==> entry.Queued? && fresh(entry.waiter) && !entry.waiter.granted
      ensures !cancelled && !old(held) ==> View() == old(View()).(held := true)
      ensures entry.Queued? ==> View() == Enter(old(View()), entry.waiter, wantHigh)
    {
      if cancelled {
        return Refused;
      }
      if !held {
        held := true;
        return Owner;
      }
      var w := new WriteWaiter();
      if wantHigh {
        high := high + [w];
      } else {
        low := low + [w];
      }
      return Queued(w);
    }

    /** The cancelled branch of acquire: leave the queue, or pass on a gate that was granted first. */
    method Cancel(w: WriteWaiter, wantHigh: bool)
      modifies this, high, low
      ensures old(w.granted) ==> View() == Release(old(View()))
      ensures !old(w.granted) ==> View() == Withdraw(old(View()), w, wantHigh) && !w.granted
    {
      if w.granted {
        ReleaseGate();
        return;
      }
      var queue := if wantHigh then high else low;
      var i := 0;
      while i < |queue| && queue[i] != w
        invariant i <= |queue| && forall j :: 0 <= j < i ==> queue[j] != w
      {
        i := i + 1;
      }
      if i < |queue| {
        WithoutAt(queue, i);
        queue := queue[..i] + queue[i + 1..];
      } else {
        WithoutAbsent(queue, w);
      }
      if wantHigh {
        high := queue;
      } else {
        low := queue;
      }
    }

    method ReleaseGate()
      modifies this, high, low
      ensures View() == Release(old(View()))
      ensures old(Next(View())).Some? ==> old(Next(View())).value.granted
      ensures forall w :: w in old(high) + old(low) && Some(w) != old(Next(View())) ==> w.granted == old(w.granted)
    {
      if |high| > 0 && (burst < MAX_BURST || |low| == 0) {
        burst := burst + 1;
        var w := high[0];
        high := high[1..];
        w.granted := true;
      } else {
        burst := 0;
        if |low| == 0 {
          held := false;
          return;
        }
        var w := low[0];
        low := low[1..];
        w.granted := true;
      }
    }
  }

  // ---------------------------------------------------------------------------------------------
  // Every interleaving.
  // ---------------------------------------------------------------------------------------------

  /** What one class has seen: who asked, who was granted, and who left the queue first. */
  datatype Lane = Lane(arrived: seq<nat>, granted: seq<nat>, withdrawn: set<nat>)

  /** owners are the callers that were given the gate and have not released it: normal owners and
      waiters that were cancelled after the grant and still have to pass the gate on. */
  datatype Sys = Sys(gate: Gate<nat>, owners: set<nat>, high: Lane, low: Lane)

  datatype Action =
    | Arrive(id: nat, high: bool)
    | Done(id: nat)
    | Withdrawn(id: nat, high: bool)

  const Start := Sys(Gate(false, 0, [], []), {}, Lane([], [], {}), Lane([], [], {}))

  predicate Enabled(s: Sys, a: Action) {
    match a
    case Arrive(id, _) => id !in s.high.arrived && id !in s.low.arrived
    case Done(id) => id in s.owners
    case Withdrawn(id, high) => id in if high then s.gate.high else s.gate.low
  }

  function Step(s: Sys, a: Action): Sys
    requires Enabled(s, a)
  {
    match a
    case Arrive(id, high) =>
      var lane := if high then s.high else s.low;
      var lane' := Lane(lane.arrived + [id], if s.gate.held then lane.granted else lane.granted + [id], lane.withdrawn);
      Sys(Enter(s.gate, id, high), if s.gate.held then s.owners else s.owners + {id},
          if high then lane' else s.high, if high then s.low else lane')
    case Done(id) =>
      var next := Next(s.gate);
      var owners := s.owners - {id} + if next.Some? then {next.value} else {};
      Sys(Release(s.gate), owners,
          if ServesHigh(s.gate) then s.high.(granted := s.high.granted + [s.gate.high[0]]) else s.high,
          if !ServesHigh(s.gate) && |s.gate.low| > 0 then s.low.(granted := s.low.granted + [s.gate.low[0]]) else s.low)
    case Withdrawn(id, high) =>
      Sys(Withdraw(s.gate, id, high), s.owners,
          if high then s.high.(withdrawn := s.high.withdrawn + {id}) else s.high,
          if high then s.low else s.low.(withdrawn := s.low.withdrawn + {id}))
  }

  predicate Possible(s: Sys, run: seq<Action>)
    decreases |run|
  {
    run != [] ==> Enabled(s, run[0]) && Possible(Step(s, run[0]), run[1..])
  }

  function Exec(s: Sys, run: seq<Action>): Sys
    requires Possible(s, run)
    decreases |run|
  {
    if run == [] then s else Exec(Step(s, run[0]), run[1..])
  }

  ghost predicate Distinct<T>(q: seq<T>) {
    forall i, j :: 0 <= i < j < |q| ==> q[i] != q[j]
  }

  /** q without the members of gone, in the same order. */
  function Keep(q: seq<nat>, gone: set<nat>): seq<nat> {
    if q == [] then []
    else (if q[0] in gone then [] else [q[0]]) + Keep(q[1..], gone)
  }

  /** The grants followed by the queue are exactly the arrivals, in arrival order, that did not
      withdraw. */
  ghost predicate Fifo(lane: Lane, queue: seq<nat>) {
    && Distinct(lane.arrived)
    && Keep(lane.arrived, lane.withdrawn) == lane.granted + queue
    && lane.withdrawn <= (set id | id in lane.arrived)
  }

  ghost predicate Inv(s: Sys) {
    && Fifo(s.high, s.gate.high)
    && Fifo(s.low, s.gate.low)
    && (forall id :: id in s.high.arrived ==> id !in s.low.arrived)
    && (forall id :: id in s.owners ==> id in s.high.granted || id in s.low.granted)
    && |s.owners| == (if s.gate.held then 1 else 0)
    && (!s.gate.held ==> s.gate.high == [] && s.gate.low == [] && s.gate.burst == 0)
  }

  lemma {:induction false} KeepAppend(a: seq<nat>, b: seq<nat>, gone: set<nat>)
    ensures Keep(a + b, gone) == Keep(a, gone) + Keep(b, gone)
  {
    if a == [] {
      assert a + b == b;
    } else {
      KeepAppend(a[1..], b, gone);
      var head := if a[0] in gone then [] else [a[0]];
      calc {
        Keep(a + b, gone);
        { assert (a + b)[0] == a[0] && (a + b)[1..] == a[1..] + b; }
        head + Keep(a[1..] + b, gone);
        head + (Keep(a[1..], gone) + Keep(b, gone));
        (head + Keep(a[1..], gone)) + Keep(b, gone);
      }
    }
  }

  lemma {:induction false} KeepMembers(q: seq<nat>, gone: set<nat>)
    ensures forall id :: id in Keep(q, gone) <==> id in q && id !in gone
    ensures Distinct(q) ==> Distinct(Keep(q, gone))
  {
    if q != [] {
      KeepMembers(q[1..], gone);
      assert q == [q[0]] + q[1..];
    }
  }

  lemma {:induction false} KeepTwice(q: seq<nat>, gone: set<nat>, id: nat)
    ensures Keep(q, gone + {id}) == Keep(Keep(q, gone), {id})
  {
    if q != [] {
      KeepTwice(q[1..], gone, id);
      KeepAppend(if q[0] in gone then [] else [q[0]], Keep(q[1..], gone), {id});
    }
  }

  lemma {:induction false} KeepWithout(q: seq<nat>, id: nat)
    requires Distinct(q)
    ensures Keep(q, {id}) == Without(q, id)
  {
    if q != [] {
      KeepWithout(q[1..], id);
      if q[0] == id {
        assert id !in q[1..];
        WithoutAbsent(q[1..], id);
      }
    }
  }

  lemma DistinctAppend(a: seq<nat>, b: seq<nat>)
    requires Distinct(a + b)
    ensures Distinct(a) && Distinct(b) && forall id :: id in a ==> id !in b
  {
    forall i | 0 <= i < |a| ensures a[i] !in b {
      forall j | 0 <= j < |b| ensures a[i] != b[j] {
        assert (a + b)[i] != (a + b)[|a| + j];
      }
    }
    forall i, j | 0 <= i < j < |b| ensures b[i] != b[j] {
      assert (a + b)[|a| + i] != (a + b)[|a| + j];
    }
    forall i, j | 0 <= i < j < |a| ensures a[i] != a[j] {
      assert (a + b)[i] != (a + b)[j];
    }
  }

  lemma FifoArrive(lane: Lane, queue: seq<nat>, id: nat, waits: bool)
    requires Fifo(lane, queue) && id !in lane.arrived
    requires !waits ==> queue == []
    ensures Fifo(Lane(lane.arrived + [id], if waits then lane.granted else lane.granted + [id], lane.withdrawn),
                 if waits then queue + [id] else queue)
  {
    KeepAppend(lane.arrived, [id], lane.withdrawn);
    assert Keep([id], lane.withdrawn) == [id];
    assert (lane.granted + queue) + [id] == lane.granted + (queue + [id]);
  }

  lemma FifoGrant(lane: Lane, queue: seq<nat>)
    requires Fifo(lane, queue) && queue != []
    ensures Fifo(lane.(granted := lane.granted + [queue[0]]), queue[1..])
  {
    assert lane.granted + queue == (lane.granted + [queue[0]]) + queue[1..];
  }

  lemma FifoWithdraw(lane: Lane, queue: seq<nat>, id: nat)
    requires Fifo(lane, queue) && id in queue
    ensures Fifo(lane.(withdrawn := lane.withdrawn + {id}), Without(queue, id))
  {
    KeepMembers(lane.arrived, lane.withdrawn);
    DistinctAppend(lane.granted, queue);
    KeepTwice(lane.arrived, lane.withdrawn, id);
    KeepAppend(lane.granted, queue, {id});
    KeepWithout(lane.granted, id);
    KeepWithout(queue, id);
    WithoutAbsent(lane.granted, id);
    assert id in lane.granted + queue;
  }

  lemma QueueMembers(lane: Lane, queue: seq<nat>)
    requires Fifo(lane, queue)
    ensures Distinct(queue)
    ensures forall id :: id in queue ==> id in lane.arrived && id !in lane.granted
    ensures forall id :: id in lane.granted ==> id in lane.arrived
  {
    KeepMembers(lane.arrived, lane.withdrawn);
    DistinctAppend(lane.granted, queue);
    forall id | id in queue || id in lane.granted ensures id in lane.granted + queue {}
  }

  lemma StepKeepsInv(s: Sys, a: Action)
    requires Inv(s) && Enabled(s, a)
    ensures Inv(Step(s, a))
  {
    QueueMembers(s.high, s.gate.high);
    QueueMembers(s.low, s.gate.low);
    match a {
      case Arrive(id, high) =>
        if high {
          FifoArrive(s.high, s.gate.high, id, s.gate.held);
        } else {
          FifoArrive(s.low, s.gate.low, id, s.gate.held);
        }
      case Done(id) =>
        OneOwner(s.owners, id);
        if ServesHigh(s.gate) {
          FifoGrant(s.high, s.gate.high);
        } else if |s.gate.low| > 0 {
          FifoGrant(s.low, s.gate.low);
        }
      case Withdrawn(id, high) =>
        if high {
          FifoWithdraw(s.high, s.gate.high, id);
        } else {
          FifoWithdraw(s.low, s.gate.low, id);
        }
    }
  }

  lemma OneOwner(owners: set<nat>, id: nat)
    requires id in owners && |owners| <= 1
    ensures owners == {id}
  {
    assert |owners - {id}| == 0;
  }

  /** Over every interleaving there is at most one owner, a free gate has no waiter, and each class
      is granted in arrival order. */
  lemma {:induction false} GateInvariant(s: Sys, run: seq<Action>)
    requires Inv(s) && Possible(s, run)
    ensures Inv(Exec(s, run))
    decreases |run|
  {
    if run != [] {
      StepKeepsInv(s, run[0]);
      GateInvariant(Step(s, run[0]), run[1..]);
    }
  }

  lemma {:induction false} GateSafety(run: seq<Action>)
    requires Possible(Start, run)
    ensures var s := Exec(Start, run);
            && |s.owners| <= 1
            && (s.owners != {} <==> s.gate.held)
            && (s.gate.high != [] || s.gate.low != [] ==> s.owners != {})
            && Keep(s.high.arrived, s.high.withdrawn) == s.high.granted + s.gate.high
            && Keep(s.low.arrived, s.low.withdrawn) == s.low.granted + s.gate.low
  {
    GateInvariant(Start, run);
  }

  // ---------------------------------------------------------------------------------------------
  // The burst limit bounds how long a low waiter is passed over.
  // ---------------------------------------------------------------------------------------------

  function Releases(run: seq<Action>): nat {
    if run == [] then 0 else (if run[0].Done? then 1 else 0) + Releases(run[1..])
  }

  /** Releases that can still pass before the low waiter at position k owns the gate. */
  function Budget(g: Gate<nat>, k: nat): nat {
    9 * k + 9 - if g.burst < MAX_BURST then g.burst else MAX_BURST
  }

  lemma {:induction false} WithoutKeepsOrder(q: seq<nat>, id: nat, k: nat)
    requires k < |q| && q[k] != id
    ensures exists j: nat :: j <= k && j < |Without(q, id)| && Without(q, id)[j] == q[k]
  {
    if q[0] == id {
      assert Without(q, id)[k - 1] == q[k];
    } else if k == 0 {
      assert Without(q, id)[0] == q[0];
    } else {
      WithoutKeepsOrder(q[1..], id, k - 1);
      var j: nat :| j <= k - 1 && j < |Without(q[1..], id)| && Without(q[1..], id)[j] == q[1..][k - 1];
      assert Without(q, id)[j + 1] == q[k];
    }
  }

  /** One step either grants the low waiter at position k, or leaves it queued with no larger budget,
      and a release makes the budget strictly smaller. */
  lemma LowWaiterProgress(s: Sys, a: Action, id: nat, k: nat) returns (j: nat)
    requires Inv(s) && Enabled(s, a)
    requires k < |s.gate.low| && s.gate.low[k] == id && a != Withdrawn(id, false)
    ensures var s' := Step(s, a);
            || (id in s'.low.granted && a.Done?)
            || (&& j < |s'.gate.low| && s'.gate.low[j] == id
                && Budget(s'.gate, j) + (if a.Done? then 1 else 0) <= Budget(s.gate, k))
  {
    j := k;
    match a {
      case Arrive(other, high) =>
      case Done(other) =>
        if !ServesHigh(s.gate) {
          if k == 0 {
            assert id in Step(s, a).low.granted;
          } else {
            j := k - 1;
          }
        }
      case Withdrawn(other, high) =>
        if !high {
          WithoutKeepsOrder(s.gate.low, other, k);
          j :| j <= k && j < |Without(s.gate.low, other)| && Without(s.gate.low, other)[j] == s.gate.low[k];
        }
    }
  }

  lemma {:induction false} GrantsGrow(s: Sys, run: seq<Action>, id: nat)
    requires Possible(s, run) && id in s.low.granted
    ensures id in Exec(s, run).low.granted
    decreases |run|
  {
    if run != [] {
      GrantsGrow(Step(s, run[0]), run[1..], id);
    }
  }

  lemma {:induction false} LowWaiterBudget(s: Sys, run: seq<Action>, id: nat, k: nat)
    requires Inv(s) && Possible(s, run)
    requires k < |s.gate.low| && s.gate.low[k] == id
    requires Withdrawn(id, false) !in run
    requires Releases(run) >= Budget(s.gate, k)
    ensures id in Exec(s, run).low.granted
    decreases |run|
  {
    var j := LowWaiterProgress(s, run[0], id, k);
    var s' := Step(s, run[0]);
    StepKeepsInv(s, run[0]);
    if id in s'.low.granted {
      GrantsGrow(s', run[1..], id);
    } else {
      LowWaiterBudget(s', run[1..], id, j);
    }
  }

  /** A low waiter with k low waiters ahead owns the gate after at most 9(k+1) releases, whatever
      arrives or is cancelled in between. */
  lemma {:induction false} LowWaiterServed(s: Sys, run: seq<Action>, id: nat, k: nat)
    requires Inv(s) && Possible(s, run)
    requires k < |s.gate.low| && s.gate.low[k] == id
    requires Withdrawn(id, false) !in run
    requires Releases(run) >= 9 * (k + 1)
    ensures id in Exec(s, run).low.granted
  {
    LowWaiterBudget(s, run, id, k);
  }

  /** n releases by whoever owns the gate. */
  function Drain(g: Gate<nat>, n: nat): Gate<nat>
    decreases n
  {
    if n == 0 then g else Drain(Release(g), n - 1)
  }

  /** The bound is exact: with enough high waiters queued and a fresh burst counter, the low waiter at
      position k is still queued after 9k + 8 releases and is the next one to be granted. */
  lemma {:induction false} BoundIsExact(g: Gate<nat>, k: nat)
    requires g.held && g.burst == 0 && k < |g.low| && |g.high| >= 8 * (k + 1)
    ensures var g' := Drain(g, 9 * k + 8);
            && g'.low == g.low[k..] && Next(g') == Some(g.low[k])
    decreases k
  {
    DrainBurst(g, 8);
    var g' := Drain(g, 8);
    if k > 0 {
      var g'' := Release(g');
      assert Drain(g', 1) == g'';
      DrainSplit(g, 8, 9 * k);
      DrainSplit(g', 1, 9 * (k - 1) + 8);
      BoundIsExact(g'', k - 1);
    }
  }

  lemma {:induction false} DrainSplit(g: Gate<nat>, a: nat, b: nat)
    ensures Drain(g, a + b) == Drain(Drain(g, a), b)
    decreases a
  {
    if a > 0 {
      DrainSplit(Release(g), a - 1, b);
    }
  }

  lemma {:induction false} DrainBurst(g: Gate<nat>, n: nat)
    requires g.held && g.burst + n <= MAX_BURST && |g.high| >= n
    ensures Drain(g, n) == g.(burst := g.burst + n, high := g.high[n..])
    decreases n
  {
    if n > 0 {
      DrainBurst(Release(g), n - 1);
      assert g.high[1..][n - 1..] == g.high[n..];
    }
  }
}
