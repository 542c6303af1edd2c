/** The two snull interfaces as values: packet pools, receive queues and the flags that
    couple them. Each entry point (transmit, poll, timeout, open) is one step. P is the
    identity of a packet buffer. */
module PacketFlow {
  import opened Kernel

  type Frame = seq<byte>

  datatype Side = Sn0 | Sn1

  function Twin(s: Side): Side {
    if s.Sn0? then Sn1 else Sn0
  }

  /** One interface. Both lists are stacks: the head of the C list is the last element. */
  datatype Dev<P> = Dev(
    pool: seq<P>,
    rx: seq<P>, frames: seq<Frame>,             // receive queue, and what its buffers hold
    rxInt: bool, scheduled: bool,               // receive interrupts enabled; a poll is due
    stopped: bool,                              // transmit queue stopped
    received: seq<Frame>, lost: seq<Frame>)     // given to the network stack; dropped for lack of memory

  datatype Net<P> = Net(sn0: Dev<P>, sn1: Dev<P>)

  function At<P>(n: Net<P>, s: Side): Dev<P> {
    if s.Sn0? then n.sn0 else n.sn1
  }

  function With<P>(n: Net<P>, s: Side, d: Dev<P>): Net<P> {
    if s.Sn0? then n.(sn0 := d) else n.(sn1 := d)
  }

  predicate WellFormed<P>(n: Net<P>) {
    |n.sn0.rx| == |n.sn0.frames| && |n.sn1.rx| == |n.sn1.frames|
  }

  // ---- the operations ----

  /** snull_release_buffer: the queue wakes when its pool was empty. */
  function Released<P>(n: Net<P>, s: Side, p: P): Net<P> {
    var d := At(n, s);
    With(n, s, d.(pool := d.pool + [p], stopped := d.stopped && d.pool != []))
  }

  /** snull_get_tx_buffer: the queue stops with the last buffer. */
  function Taken<P>(n: Net<P>, s: Side): Net<P>
    requires At(n, s).pool != []
  {
    var d := At(n, s);
    With(n, s, d.(pool := d.pool[..|d.pool| - 1], stopped := d.stopped || |d.pool| == 1))
  }

  /** snull_enqueue_buf. */
  function Queued<P>(n: Net<P>, s: Side, p: P, frame: Frame): Net<P> {
    var d := At(n, s);
    With(n, s, d.(rx := d.rx + [p], frames := d.frames + [frame]))
  }

  /** snull_dequeue_buf on a queue that is not empty. */
  function Dequeued<P>(n: Net<P>, s: Side): Net<P>
    requires WellFormed(n) && At(n, s).rx != []
  {
    var d := At(n, s);
    With(n, s, d.(rx := d.rx[..|d.rx| - 1], frames := d.frames[..|d.rx| - 1]))
  }

  /** The packet goes to the network stack if there is memory for an skb. */
  function HandedUp<P>(n: Net<P>, s: Side, frame: Frame, memory: bool): Net<P> {
    var d := At(n, s);
    With(n, s, if memory then d.(received := d.received + [frame]) else d.(lost := d.lost + [frame]))
  }

  /** One turn of the loop of snull_poll: the packet on top goes up or is dropped, and its
      buffer returns to the sender. */
  function Delivered<P>(n: Net<P>, s: Side, memory: bool): Net<P>
    requires WellFormed(n) && At(n, s).rx != []
  {
    var i := |At(n, s).rx| - 1;
    Released(HandedUp(Dequeued(n, s), s, At(n, s).frames[i], memory), Twin(s), At(n, s).rx[i])
  }

  function Has(memory: seq<bool>, i: nat): bool {
    i >= |memory| || memory[i]
  }

  /** The loop itself; `memory` says which skb allocations succeed. */
  function Drained<P>(n: Net<P>, s: Side, budget: nat, memory: seq<bool>, i: nat): Net<P>
    requires WellFormed(n) && i <= budget
    decreases budget - i
  {
    if i == budget || At(n, s).rx == [] then n
    else Drained(Delivered(n, s, Has(memory, i)), s, budget, memory, i + 1)
  }

  /** napi_complete_done decides whether the poll is over. */
  function Polled<P>(n: Net<P>, s: Side, budget: nat, memory: seq<bool>, complete: bool): Net<P>
    requires WellFormed(n)
  {
    var n' := Drained(n, s, budget, memory, 0);
    if |At(n, s).rx| < budget && complete then With(n', s, At(n', s).(rxInt := true, scheduled := false)) else n'
  }

  /** A buffer of the sender's pool, filled with the frame, goes on top of the twin's queue. */
  function Enqueued<P>(n: Net<P>, s: Side, frame: Frame): Net<P>
    requires At(n, s).pool != []
  {
    var pool := At(n, s).pool;
    Queued(Taken(n, s), Twin(s), pool[|pool| - 1], frame)
  }

  /** With NAPI, a twin that has receive interrupts enabled switches to polling. */
  function Transmitted<P>(n: Net<P>, s: Side, frame: Frame): Net<P>
    requires At(n, s).pool != []
  {
    var n' := Enqueued(n, s, frame);
    var t := At(n', Twin(s));
    if t.rxInt then With(n', Twin(s), t.(rxInt := false, scheduled := true)) else n'
  }

  /** Without NAPI, the interrupt handler takes one packet off the queue at once. */
  function TransmittedDirectly<P>(n: Net<P>, s: Side, frame: Frame, memory: bool): Net<P>
    requires WellFormed(n) && At(n, s).pool != []
  {
    var n' := Enqueued(n, s, frame);
    if At(n', Twin(s)).rxInt then Delivered(n', Twin(s), memory) else n'
  }

  /** A timeout replaces the pool by fresh buffers and wakes the queue. */
  function TimedOut<P>(n: Net<P>, s: Side, buffers: seq<P>): Net<P> {
    With(n, s, At(n, s).(pool := buffers, stopped := false))
  }

  function Opened<P>(n: Net<P>, s: Side): Net<P> {
    With(n, s, At(n, s).(stopped := false))
  }

  /** A transmit in either mode. */
  function Sent<P>(napi: bool, n: Net<P>, s: Side, frame: Frame, memory: bool): Net<P>
    requires WellFormed(n) && At(n, s).pool != []
  {
    if napi then Transmitted(n, s, frame) else TransmittedDirectly(n, s, frame, memory)
  }

  datatype Label<P> =
    | Tx(s: Side, frame: Frame, memory: bool)
    | Poll(s: Side, budget: nat, memories: seq<bool>, complete: bool)
    | Timeout(s: Side, buffers: seq<P>)
    | Up(s: Side)

  /** The network core transmits only on a running queue and polls only what is scheduled.
      A transmit without a buffer is not a step: the code leaves with the lock held. */
  ghost predicate Step<P>(napi: bool, n: Net<P>, l: Label<P>, n': Net<P>)
    requires WellFormed(n)
  {
    match l
    case Tx(s, frame, memory) => !At(n, s).stopped && At(n, s).pool != [] && n' == Sent(napi, n, s, frame, memory)
    case Poll(s, budget, memories, complete) => At(n, s).scheduled && n' == Polled(n, s, budget, memories, complete)
    case Timeout(s, buffers) => n' == TimedOut(n, s, buffers)
    case Up(s) => n' == Opened(n, s)
  }

  /** Before the first packet; the pools are what their setup has left, possibly nothing. */
  ghost predicate Init<P>(n: Net<P>) {
    forall s: Side :: At(n, s) == Dev(At(n, s).pool, [], [], true, false, false, [], [])
  }

  ghost predicate Run<P>(napi: bool, ns: seq<Net<P>>, ls: seq<Label<P>>) {
    && |ns| == |ls| + 1
    && Init(ns[0])
    && forall i :: 0 <= i < |ls| ==> WellFormed(ns[i]) && Step(napi, ns[i], ls[i], ns[i + 1])
  }

  // ---- facts about the operations ----

  /** The buffers of one owner: its own pool and the twin's receive queue. */
  ghost function Buffers<P>(n: Net<P>, owner: Side): multiset<P> {
    multiset(At(n, owner).pool) + multiset(At(n, Twin(owner)).rx)
  }

  /** Every frame that has reached side s, whatever has become of it. */
  ghost function Arrived<P>(n: Net<P>, s: Side): multiset<Frame> {
    multiset(At(n, s).received) + multiset(At(n, s).lost) + multiset(At(n, s).frames)
  }

  /** Nothing is lost or made up: buffers stay with their owner, frames with their receiver. */
  ghost predicate Conserves<P>(n: Net<P>, n': Net<P>) {
    forall o: Side :: Buffers(n', o) == Buffers(n, o) && Arrived(n', o) == Arrived(n, o)
  }

  lemma PopBag<T>(l: seq<T>)
    requires l != []
    ensures multiset(l) == multiset(l[..|l| - 1]) + multiset{l[|l| - 1]}
  {
    assert l == l[..|l| - 1] + [l[|l| - 1]];
  }

  lemma PushBag<T>(l: seq<T>, x: T)
    ensures multiset(l + [x]) == multiset(l) + multiset{x}
  {
  }

  /** Taking the top of one stack and putting it on another. */
  lemma MoveTop<T>(from: seq<T>, to: seq<T>)
    requires from != []
    ensures multiset(to + [from[|from| - 1]]) + multiset(from[..|from| - 1]) == multiset(to) + multiset(from)
  {
    PopBag(from);
    PushBag(to, from[|from| - 1]);
  }

  lemma Regroup<T>(a: multiset<T>, b: multiset<T>, a': multiset<T>, b': multiset<T>, c: multiset<T>)
    requires a' + b' == a + b
    ensures a' + c + b' == a + c + b && c + a' + b' == c + a + b
  {
    assert a' + c + b' == a' + b' + c && c + a' + b' == a' + b' + c;
    assert a + c + b == a + b + c && c + a + b == a + b + c;
  }

  /** The lists after a delivery. */
  lemma DeliverLists<P>(n: Net<P>, s: Side, memory: bool)
    requires WellFormed(n) && At(n, s).rx != []
    ensures var n' := Delivered(n, s, memory);
            var d, d', t, t' := At(n, s), At(n', s), At(n, Twin(s)), At(n', Twin(s));
            var i := |d.rx| - 1;
            && t'.stopped == (t.stopped && t.pool != []) && t'.rxInt == t.rxInt && t'.scheduled == t.scheduled
            && d'.stopped == d.stopped && d'.rxInt == d.rxInt && d'.scheduled == d.scheduled
            && d'.pool == d.pool && t'.rx == t.rx && t'.frames == t.frames && t'.received == t.received && t'.lost == t.lost
            && t'.pool == t.pool + [d.rx[i]] && d'.rx == d.rx[..i] && d'.frames == d.frames[..i]
            && (if memory then d'.received == d.received + [d.frames[i]] && d'.lost == d.lost
                else d'.received == d.received && d'.lost == d.lost + [d.frames[i]])
  {
  }

  lemma DeliverArrived<P>(n: Net<P>, s: Side, memory: bool)
    requires WellFormed(n) && At(n, s).rx != []
    ensures Arrived(Delivered(n, s, memory), s) == Arrived(n, s)
  {
    var d, d' := At(n, s), At(Delivered(n, s, memory), s);
    DeliverLists(n, s, memory);
    hide Delivered;
    MoveTop(d.frames, if memory then d.received else d.lost);
    var l, f, l', f' := multiset(d.lost), multiset(d.frames), multiset(d'.lost), multiset(d'.frames);
    if memory {
      Regroup(multiset(d.received), f, multiset(d'.received), f', l);
    } else {
      Regroup(l, f, l', f', multiset(d.received));
    }
  }

  lemma DeliverConserves<P>(n: Net<P>, s: Side, memory: bool)
    requires WellFormed(n) && At(n, s).rx != []
    ensures WellFormed(Delivered(n, s, memory)) && Conserves(n, Delivered(n, s, memory))
  {
    DeliverArrived(n, s, memory);
    DeliverLists(n, s, memory);
    MoveTop(At(n, s).rx, At(n, Twin(s)).pool);
    var n' := Delivered(n, s, memory);
    hide Delivered;
    assert Buffers(n', s) == Buffers(n, s) && Arrived(n', Twin(s)) == Arrived(n, Twin(s));
    assert Buffers(n', Twin(s)) == Buffers(n, Twin(s));
    forall o: Side ensures Buffers(n', o) == Buffers(n, o) && Arrived(n', o) == Arrived(n, o) {
      assert o == s || o == Twin(s);
    }
  }

  lemma {:induction false} DrainConserves<P>(n: Net<P>, s: Side, budget: nat, memory: seq<bool>, i: nat)
    requires WellFormed(n) && i <= budget
    ensures Conserves(n, Drained(n, s, budget, memory, i))
    decreases budget - i
  {
    if i < budget && At(n, s).rx != [] {
      hide Conserves, Delivered;
      var m := Delivered(n, s, Has(memory, i));
      DeliverConserves(n, s, Has(memory, i));
      DrainConserves(m, s, budget, memory, i + 1);
      Chain(n, m, Drained(m, s, budget, memory, i + 1));
    } else {
      hide Drained;
    }
  }

  lemma Chain<P>(a: Net<P>, b: Net<P>, c: Net<P>)
    requires Conserves(a, b) && Conserves(b, c)
    ensures Conserves(a, c)
  {
  }

  /** A transmit keeps the buffers and adds exactly its frame to what has reached the twin. */
  lemma EnqueueConserves<P>(n: Net<P>, s: Side, frame: Frame)
    requires WellFormed(n) && At(n, s).pool != []
    ensures var n' := Enqueued(n, s, frame);
            && WellFormed(n')
            && (forall o: Side :: Buffers(n', o) == Buffers(n, o))
            && Arrived(n', Twin(s)) == Arrived(n, Twin(s)) + multiset{frame} && Arrived(n', s) == Arrived(n, s)
  {
    var d, t := At(n, s), At(n, Twin(s));
    PopBag(d.pool);
    PushBag(t.rx, d.pool[|d.pool| - 1]);
    PushBag(t.frames, frame);
  }

  /** A poll takes the top k packets, k the smaller of budget and queue length; each buffer
      goes back to the twin, whose transmit queue then runs. */
  lemma {:induction false} DrainShape<P>(n: Net<P>, s: Side, budget: nat, memory: seq<bool>, i: nat)
    requires WellFormed(n) && i <= budget
    ensures var n' := Drained(n, s, budget, memory, i);
            var d, d', t, t' := At(n, s), At(n', s), At(n, Twin(s)), At(n', Twin(s));
            var k := Min(|d.rx|, budget - i);
            && WellFormed(n')
            && d'.rx == d.rx[..|d.rx| - k] && d'.frames == d.frames[..|d.rx| - k]
            && d' == d.(rx := d'.rx, frames := d'.frames, received := d'.received, lost := d'.lost)
            && t' == t.(pool := t'.pool, stopped := t.stopped && (k == 0 || t.pool != []))
            && |t'.pool| == |t.pool| + k && t.pool <= t'.pool
            && |d'.received| + |d'.lost| == |d.received| + |d.lost| + k
    decreases budget - i
  {
    hide Delivered;
    if i < budget && At(n, s).rx != [] {
      DeliverLists(n, s, Has(memory, i));
      DrainShape(Delivered(n, s, Has(memory, i)), s, budget, memory, i + 1);
    }
  }

  // ---- what every run keeps ----

  /** The k elements on top of a stack, topmost first. */
  function TopDown<T>(l: seq<T>, k: nat): (top: seq<T>)
    requires k <= |l|
    ensures |top| == k && forall j :: 0 <= j < k ==> top[j] == l[|l| - 1 - j]
  {
    seq(k, j requires 0 <= j < k => l[|l| - 1 - j])
  }

  lemma TopDownNext<T>(l: seq<T>, k: nat, to: seq<T>)
    requires 0 < k <= |l|
    ensures to + TopDown(l, k) == to + [l[|l| - 1]] + TopDown(l[..|l| - 1], k - 1)
  {
  }

  ghost predicate AlwaysMemory(memory: seq<bool>) {
    forall j :: 0 <= j < |memory| ==> memory[j]
  }

  /** With memory for every skb, the frames go up from the top of the queue downwards, and
      none is dropped. */
  lemma {:induction false} DrainOrder<P>(n: Net<P>, s: Side, budget: nat, memory: seq<bool>, i: nat)
    requires WellFormed(n) && i <= budget && AlwaysMemory(memory)
    ensures var d, d' := At(n, s), At(Drained(n, s, budget, memory, i), s);
            d'.lost == d.lost && d'.received == d.received + TopDown(d.frames, Min(|d.frames|, budget - i))
    decreases budget - i
  {
    hide Delivered, TopDown;
    var d := At(n, s);
    if i < budget && d.rx != [] {
      assert Has(memory, i);
      DeliverLists(n, s, true);
      DrainOrder(Delivered(n, s, true), s, budget, memory, i + 1);
      TopDownNext(d.frames, Min(|d.frames|, budget - i), d.received);
    } else {
      assert TopDown(d.frames, 0) == [];
    }
  }

  /** Receive interrupts are off exactly while a poll is due, and a queue that holds
      packets has one. */
  ghost predicate Receiving<P>(d: Dev<P>) {
    (d.rxInt <==> !d.scheduled) && (d.rx != [] ==> d.scheduled)
  }

  /** Without NAPI no poll is ever due, so nothing waits in the queue. */
  ghost predicate Direct<P>(d: Dev<P>) {
    d.rxInt && !d.scheduled && d.rx == []
  }

  /** The lists and flags after a transmit, as far as the receiver is concerned. */
  lemma SentLists<P>(napi: bool, n: Net<P>, s: Side, frame: Frame, memory: bool)
    requires WellFormed(n) && At(n, s).pool != []
    ensures var n' := Sent(napi, n, s, frame, memory);
            var d, d', t, t' := At(n, s), At(n', s), At(n, Twin(s)), At(n', Twin(s));
            && WellFormed(n')
            && d'.rx == d.rx && d'.rxInt == d.rxInt && d'.scheduled == d.scheduled
            && t'.pool == t.pool && t'.stopped == t.stopped
            && (napi ==> t'.rx != [] && !t'.rxInt && t'.scheduled == (t.scheduled || t.rxInt))
            && (!napi && t.rxInt ==> t'.rx == t.rx && t'.rxInt && t'.scheduled == t.scheduled)
            && (!napi && !t.rxInt ==> t'.rx != [] && !t'.rxInt && t'.scheduled == t.scheduled)
            && (d'.pool == [] ==> d'.stopped) && (!d.stopped && d'.stopped ==> d'.pool == [])
  {
    var m := Enqueued(n, s, frame);
    EnqueueLists(n, s, frame);
    hide Enqueued, Delivered;
    if !napi && At(m, Twin(s)).rxInt {
      DeliverLists(m, Twin(s), memory);
    }
  }

  /** Where the frame of a transmit is afterwards: on top of the twin's queue, or, without
      NAPI, already handed up or dropped; every other frame is where it was. */
  lemma SentFrame<P>(napi: bool, n: Net<P>, s: Side, frame: Frame, memory: bool)
    requires WellFormed(n) && At(n, s).pool != []
    ensures var t, t' := At(n, Twin(s)), At(Sent(napi, n, s, frame, memory), Twin(s));
            var up := !napi && t.rxInt;
            && t'.frames == (if up then t.frames else t.frames + [frame])
            && t'.received == (if up && memory then t.received + [frame] else t.received)
            && t'.lost == (if up && !memory then t.lost + [frame] else t.lost)
  {
    var m := Enqueued(n, s, frame);
    EnqueueLists(n, s, frame);
    hide Enqueued, Delivered;
    if !napi && At(m, Twin(s)).rxInt {
      DeliverLists(m, Twin(s), memory);
      assert (At(n, Twin(s)).frames + [frame])[..|At(n, Twin(s)).frames|] == At(n, Twin(s)).frames;
    }
  }

  lemma ReceivingStep<P>(napi: bool, n: Net<P>, l: Label<P>, n': Net<P>)
    requires WellFormed(n) && Step(napi, n, l, n')
    requires forall s: Side :: Receiving(At(n, s))
    ensures WellFormed(n') && forall s: Side :: Receiving(At(n', s))
  {
    match l
    case Tx(s, frame, memory) =>
      SentLists(napi, n, s, frame, memory);
      hide Sent;
      assert Receiving(At(n, s)) && Receiving(At(n, Twin(s)));
      assert Receiving(At(n', s)) && Receiving(At(n', Twin(s)));
    case Poll(s, budget, memories, complete) =>
      DrainShape(n, s, budget, memories, 0);
      hide Drained;
      assert Receiving(At(n, s)) && Receiving(At(n, Twin(s)));
      assert Receiving(At(n', s)) && Receiving(At(n', Twin(s)));
    case _ =>
      forall s: Side ensures Receiving(At(n', s)) {
        assert Receiving(At(n, s));
      }
  }

  lemma DirectStep<P>(n: Net<P>, l: Label<P>, n': Net<P>)
    requires WellFormed(n) && Step(false, n, l, n')
    requires forall s: Side :: Direct(At(n, s))
    ensures forall s: Side :: Direct(At(n', s))
  {
    match l
    case Tx(s, frame, memory) =>
      SentLists(false, n, s, frame, memory);
      hide Sent;
      assert Direct(At(n, s)) && Direct(At(n, Twin(s)));
      assert Direct(At(n', s)) && Direct(At(n', Twin(s)));
    case Poll(_, _, _, _) =>
    case _ =>
      forall s: Side ensures Direct(At(n', s)) {
        assert Direct(At(n, s));
      }
  }

  // ---- the pool and the transmit queue ----

  /** A running queue without a buffer: the next transmit would take the exit that keeps the lock. */
  ghost predicate Dry<P>(d: Dev<P>) {
    !d.stopped && d.pool == []
  }

  /** What makes a queue run without a buffer: a timeout that allocates nothing, and an
      open with an empty pool. */
  ghost predicate RunsDry<P>(n: Net<P>, l: Label<P>, s: Side) {
    l == Timeout(s, []) || (l == Up(s) && At(n, s).pool == [])
  }

  /** A stopped queue has no buffer; and a queue is dry after a step exactly if it has no
      buffer and was dry before or is made so by this step. */
  lemma DryStep<P>(napi: bool, n: Net<P>, l: Label<P>, n': Net<P>, s: Side)
    requires WellFormed(n) && Step(napi, n, l, n')
    requires At(n, s).stopped ==> At(n, s).pool == []
    ensures At(n', s).stopped ==> At(n', s).pool == []
    ensures Dry(At(n', s)) <==> At(n', s).pool == [] && (Dry(At(n, s)) || RunsDry(n, l, s))
  {
    match l
    case Tx(t, frame, memory) =>
      SentLists(napi, n, t, frame, memory);
      hide Sent;
      assert s == t || s == Twin(t);
    case Poll(t, budget, memories, complete) =>
      DrainShape(n, t, budget, memories, 0);
      hide Drained;
      assert s == t || s == Twin(t);
    case _ =>
  }

  /** Both couplings at once. */
  ghost predicate Coupled<P>(n: Net<P>) {
    forall s: Side :: Receiving(At(n, s)) && (At(n, s).stopped <==> At(n, s).pool == [])
  }

  /** A step keeps them exactly if it makes no queue run dry. */
  lemma CoupledStep<P>(napi: bool, n: Net<P>, l: Label<P>, n': Net<P>)
    requires WellFormed(n) && Coupled(n) && Step(napi, n, l, n')
    ensures WellFormed(n') && (Coupled(n') <==> forall s: Side :: !RunsDry(n, l, s))
  {
    ReceivingStep(napi, n, l, n');
    DryStep(napi, n, l, n', Sn0);
    DryStep(napi, n, l, n', Sn1);
    assert forall s: Side :: RunsDry(n, l, s) ==> At(n', s).pool == [];
    hide Step, RunsDry, Receiving;
    forall s: Side ensures RunsDry(n, l, s) <==> !(At(n', s).stopped <==> At(n', s).pool == []) {
      assert s == Sn0 || s == Sn1;
    }
  }

  // ---- theorems ----

  lemma {:induction false} ReceivingAlways<P>(napi: bool, ns: seq<Net<P>>, ls: seq<Label<P>>, i: nat)
    requires Run(napi, ns, ls) && i < |ns|
    ensures WellFormed(ns[i]) && forall s: Side :: Receiving(At(ns[i], s))
  {
    if i == 0 {
      forall s: Side ensures Receiving(At(ns[0], s)) && |At(ns[0], s).rx| == |At(ns[0], s).frames| {
      }
      assert |At(ns[0], Sn0).rx| == |At(ns[0], Sn0).frames| && |At(ns[0], Sn1).rx| == |At(ns[0], Sn1).frames|;
    } else {
      ReceivingAlways(napi, ns, ls, i - 1);
      ReceivingStep(napi, ns[i - 1], ls[i - 1], ns[i]);
    }
  }

  /** No packet is stranded, in any run: interrupts are off exactly while a poll is due,
      and whatever lies in a receive queue has one. */
  lemma NoStrandedPacket<P>(napi: bool, ns: seq<Net<P>>, ls: seq<Label<P>>, i: nat, s: Side)
    requires Run(napi, ns, ls) && i < |ns|
    ensures At(ns[i], s).rxInt <==> !At(ns[i], s).scheduled
    ensures At(ns[i], s).rx != [] ==> At(ns[i], s).scheduled
    ensures At(ns[i], s).rxInt ==> At(ns[i], s).rx == []
  {
    ReceivingAlways(napi, ns, ls, i);
    assert Receiving(At(ns[i], s));
  }

  /** Without NAPI nothing ever waits, and interrupts stay on. */
  lemma {:induction false} NothingWaits<P>(ns: seq<Net<P>>, ls: seq<Label<P>>, i: nat)
    requires Run(false, ns, ls) && i < |ns|
    ensures forall s: Side :: Direct(At(ns[i], s))
  {
    if i > 0 {
      NothingWaits(ns, ls, i - 1);
      DirectStep(ns[i - 1], ls[i - 1], ns[i]);
    } else {
      forall s: Side ensures Direct(At(ns[0], s)) {
      }
    }
  }

  /** "Fewer packets than the budget" means that the queue is empty, and only then does
      a poll give the interrupts back. */
  lemma PollEndsOnEmptyQueue<P>(n: Net<P>, s: Side, budget: nat, memory: seq<bool>, complete: bool)
    requires WellFormed(n) && !At(n, s).rxInt && At(n, s).scheduled
    ensures var d, d' := At(n, s), At(Polled(n, s, budget, memory, complete), s);
            && |d'.rx| == |d.rx| - Min(|d.rx|, budget)
            && (Min(|d.rx|, budget) < budget ==> d'.rx == [])
            && (d'.rxInt <==> complete && |d.rx| < budget)
            && (d'.scheduled <==> !d'.rxInt)
  {
    hide Drained;
    DrainShape(n, s, budget, memory, 0);
  }

  /** From step j on, side s has had no buffer, and something at j made its queue run. */
  ghost predicate DrySince<P>(ns: seq<Net<P>>, ls: seq<Label<P>>, i: nat, s: Side, j: nat)
    requires |ns| == |ls| + 1 && i < |ns|
  {
    && j <= i
    && (j > 0 ==> RunsDry(ns[j - 1], ls[j - 1], s))
    && forall k :: j <= k <= i ==> At(ns[k], s).pool == []
  }

  /** A transmit queue runs without a buffer exactly if its pool has been empty ever since
      the start, a timeout that allocated nothing or an open on the empty pool. */
  lemma {:induction false} PoolExhausted<P>(napi: bool, ns: seq<Net<P>>, ls: seq<Label<P>>, i: nat, s: Side)
    requires Run(napi, ns, ls) && i < |ns|
    ensures At(ns[i], s).stopped ==> At(ns[i], s).pool == []
    ensures Dry(At(ns[i], s)) <==> exists j: nat :: DrySince(ns, ls, i, s, j)
  {
    if i == 0 {
      assert At(ns[0], s).pool == [] ==> DrySince(ns, ls, 0, s, 0);
    } else {
      PoolExhausted(napi, ns, ls, i - 1, s);
      assert WellFormed(ns[i - 1]) && Step(napi, ns[i - 1], ls[i - 1], ns[i]);
      hide Step;
      DryStep(napi, ns[i - 1], ls[i - 1], ns[i], s);
      if At(ns[i], s).pool == [] {
        if RunsDry(ns[i - 1], ls[i - 1], s) {
          assert DrySince(ns, ls, i, s, i);
        }
        if Dry(At(ns[i - 1], s)) {
          var j: nat :| DrySince(ns, ls, i - 1, s, j);
          assert DrySince(ns, ls, i, s, j);
        }
        if j: nat :| DrySince(ns, ls, i, s, j) && j < i {
          assert DrySince(ns, ls, i - 1, s, j);
        }
      }
    }
  }

  /** So a transmit that the core lets through finds a buffer in every run that starts with
      one and has no such timeout or open on its side. */
  lemma PoolNeverExhausted<P>(napi: bool, ns: seq<Net<P>>, ls: seq<Label<P>>, i: nat, s: Side)
    requires Run(napi, ns, ls) && i < |ns| && At(ns[0], s).pool != []
    requires forall k :: 0 <= k < i ==> !RunsDry(ns[k], ls[k], s)
    ensures !At(ns[i], s).stopped <==> At(ns[i], s).pool != []
  {
    PoolExhausted(napi, ns, ls, i, s);
    forall j: nat ensures !DrySince(ns, ls, i, s, j) {
      if 0 < j <= i {
        assert !RunsDry(ns[j - 1], ls[j - 1], s);
      } else {
        assert At(ns[0], s).pool != [];
      }
    }
  }

  /** Frames handed to the twin of s in the first i steps, in any order. */
  ghost function SentTo<P>(ls: seq<Label<P>>, i: nat, s: Side): multiset<Frame>
    requires i <= |ls|
  {
    if i == 0 then multiset{} else SentTo(ls, i - 1, s) + SentIn(ls[i - 1], s)
  }

  ghost function SentIn<P>(l: Label<P>, s: Side): multiset<Frame> {
    if l.Tx? && l.s == Twin(s) then multiset{l.frame} else multiset{}
  }

  lemma TransmitConserves<P>(n: Net<P>, s: Side, frame: Frame)
    requires WellFormed(n) && At(n, s).pool != []
    ensures var n' := Transmitted(n, s, frame);
            && WellFormed(n')
            && (forall o: Side :: Buffers(n', o) == Buffers(n, o))
            && (forall o: Side :: Arrived(n', o) == Arrived(n, o) + if s == Twin(o) then multiset{frame} else multiset{})
  {
    EnqueueConserves(n, s, frame);
    SameLists(Transmitted(n, s, frame), Enqueued(n, s, frame));
  }

  lemma DirectConserves<P>(n: Net<P>, s: Side, frame: Frame, memory: bool)
    requires WellFormed(n) && At(n, s).pool != []
    ensures var n' := TransmittedDirectly(n, s, frame, memory);
            && WellFormed(n')
            && (forall o: Side :: Buffers(n', o) == Buffers(n, o))
            && (forall o: Side :: Arrived(n', o) == Arrived(n, o) + if s == Twin(o) then multiset{frame} else multiset{})
  {
    var m := Enqueued(n, s, frame);
    EnqueueConserves(n, s, frame);
    EnqueueLists(n, s, frame);
    hide Enqueued, Delivered, Buffers, Arrived;
    var n' := TransmittedDirectly(n, s, frame, memory);
    assert WellFormed(n') && Conserves(m, n') by {
      if At(m, Twin(s)).rxInt {
        DeliverConserves(m, Twin(s), memory);
      }
    }
    hide TransmittedDirectly;
    ThenConserves(n, m, n', s, frame);
  }

  lemma ThenConserves<P>(n: Net<P>, m: Net<P>, n': Net<P>, s: Side, frame: Frame)
    requires Conserves(m, n') && (forall o: Side :: Buffers(m, o) == Buffers(n, o))
    requires Arrived(m, Twin(s)) == Arrived(n, Twin(s)) + multiset{frame} && Arrived(m, s) == Arrived(n, s)
    ensures forall o: Side :: Buffers(n', o) == Buffers(n, o)
    ensures forall o: Side :: Arrived(n', o) == Arrived(n, o) + if s == Twin(o) then multiset{frame} else multiset{}
  {
    hide Buffers, Arrived;
    forall o: Side ensures Arrived(n', o) == Arrived(n, o) + if s == Twin(o) then multiset{frame} else multiset{} {
      assert Arrived(n', o) == Arrived(m, o);
      assert o == s || o == Twin(s);
    }
  }

  lemma StepConserves<P>(napi: bool, n: Net<P>, l: Label<P>, n': Net<P>)
    requires WellFormed(n) && Step(napi, n, l, n')
    ensures WellFormed(n')
    ensures forall o: Side :: !(l.Timeout? && l.s == o) ==> Buffers(n', o) == Buffers(n, o)
    ensures forall o: Side :: Arrived(n', o) == Arrived(n, o) + SentIn(l, o)
    ensures l.Timeout? ==> At(n', Twin(l.s)).rx == At(n, Twin(l.s)).rx && At(n', l.s).pool == l.buffers
  {
    match l
    case Tx(s, frame, memory) =>
      if napi {
        TransmitConserves(n, s, frame);
      } else {
        DirectConserves(n, s, frame, memory);
      }
      hide Transmitted, TransmittedDirectly, Buffers, Arrived;
    case Poll(s, budget, memories, complete) =>
      DrainConserves(n, s, budget, memories, 0);
      DrainShape(n, s, budget, memories, 0);
      SameLists(n', Drained(n, s, budget, memories, 0));
    case _ =>
  }

  /** The flags have no part in what is conserved. */
  lemma SameLists<P>(n: Net<P>, m: Net<P>)
    requires forall s: Side ::
               && At(n, s).pool == At(m, s).pool && At(n, s).rx == At(m, s).rx && At(n, s).frames == At(m, s).frames
               && At(n, s).received == At(m, s).received && At(n, s).lost == At(m, s).lost
    ensures forall o: Side :: Buffers(n, o) == Buffers(m, o) && Arrived(n, o) == Arrived(m, o)
  {
  }

  /** Packet conservation, in both modes: from any moment on, as long as no timeout hits
      their owner, no buffer is lost, duplicated or handed to the other interface. */
  lemma {:induction false} BuffersConserved<P>(napi: bool, ns: seq<Net<P>>, ls: seq<Label<P>>, j: nat, i: nat, owner: Side)
    requires Run(napi, ns, ls) && j <= i < |ns|
    requires forall k :: j <= k < i ==> !(ls[k].Timeout? && ls[k].s == owner)
    ensures Buffers(ns[i], owner) == Buffers(ns[j], owner)
    ensures |At(ns[i], owner).pool| + |At(ns[i], Twin(owner)).rx| == |At(ns[j], owner).pool| + |At(ns[j], Twin(owner)).rx|
    decreases i
  {
    assert |ns| == |ls| + 1;
    hide *;
    if i > j {
      BuffersConserved(napi, ns, ls, j, i - 1, owner);
      StepAt(napi, ns, ls, i - 1);
      StepConserves(napi, ns[i - 1], ls[i - 1], ns[i]);
    }
    HowMany(ns[i], owner);
    HowMany(ns[j], owner);
  }

  lemma StepAt<P>(napi: bool, ns: seq<Net<P>>, ls: seq<Label<P>>, i: nat)
    requires Run(napi, ns, ls) && i < |ls|
    ensures |ns| == |ls| + 1 && WellFormed(ns[i]) && Step(napi, ns[i], ls[i], ns[i + 1])
  {
  }

  lemma HowMany<P>(n: Net<P>, owner: Side)
    ensures |Buffers(n, owner)| == |At(n, owner).pool| + |At(n, Twin(owner)).rx|
  {
  }

  /** Frame conservation, in both modes: every frame sent to s has gone up, was dropped, or
      waits in the queue, each exactly once; nothing else ever goes up. */
  lemma FramesConserved<P>(napi: bool, ns: seq<Net<P>>, ls: seq<Label<P>>, i: nat, s: Side)
    requires Run(napi, ns, ls) && i <= |ls|
    ensures multiset(At(ns[i], s).received) + multiset(At(ns[i], s).lost) + multiset(At(ns[i], s).frames) == SentTo(ls, i, s)
  {
    EverythingArrives(napi, ns, ls, i, s);
  }

  lemma {:induction false} EverythingArrives<P>(napi: bool, ns: seq<Net<P>>, ls: seq<Label<P>>, i: nat, s: Side)
    requires Run(napi, ns, ls) && i <= |ls| < |ns|
    ensures Arrived(ns[i], s) == SentTo(ls, i, s)
  {
    hide *;
    if i == 0 {
      NothingSent(napi, ns, ls, s);
    } else {
      EverythingArrives(napi, ns, ls, i - 1, s);
      SentNext(ls, i, s);
      StepAt(napi, ns, ls, i - 1);
      StepConserves(napi, ns[i - 1], ls[i - 1], ns[i]);
    }
  }

  lemma NothingSent<P>(napi: bool, ns: seq<Net<P>>, ls: seq<Label<P>>, s: Side)
    requires Run(napi, ns, ls)
    ensures Arrived(ns[0], s) == SentTo(ls, 0, s)
  {
    assert At(ns[0], s).frames == [];
  }

  lemma SentNext<P>(ls: seq<Label<P>>, i: nat, s: Side)
    requires 0 < i <= |ls|
    ensures SentTo(ls, i, s) == SentTo(ls, i - 1, s) + SentIn(ls[i - 1], s)
  {
  }

  /** Without NAPI: the queue is empty again after each transmit, and the buffer is back
      on top of its pool. */
  lemma DirectLeavesNothing<P>(n: Net<P>, s: Side, frame: Frame, memory: bool)
    requires WellFormed(n) && At(n, s).pool != [] && At(n, Twin(s)).rxInt && At(n, Twin(s)).rx == []
    requires !At(n, s).stopped
    ensures var n' := TransmittedDirectly(n, s, frame, memory);
            && At(n', s) == At(n, s)
            && At(n', Twin(s)).rx == [] && At(n', Twin(s)).rxInt
            && (memory ==> At(n', Twin(s)).received == At(n, Twin(s)).received + [frame])
            && (!memory ==> At(n', Twin(s)).lost == At(n, Twin(s)).lost + [frame])
  {
    hide Enqueued, Delivered;
    var d, t := At(n, s), At(n, Twin(s));
    var p := d.pool[|d.pool| - 1];
    var m := Enqueued(n, s, frame);
    EnqueueLists(n, s, frame);
    var n' := Delivered(m, Twin(s), memory);
    DeliverLists(m, Twin(s), memory);
    assert At(m, Twin(s)).rx[0] == p && At(m, Twin(s)).frames[0] == frame;
    assert At(n', s).pool == d.pool;
  }

  /** The lists after the hardware part of a transmit. */
  lemma EnqueueLists<P>(n: Net<P>, s: Side, frame: Frame)
    requires WellFormed(n) && At(n, s).pool != []
    ensures var m := Enqueued(n, s, frame);
            var d, t := At(n, s), At(n, Twin(s));
            var i := |d.pool| - 1;
            && WellFormed(m)
            && At(m, s) == d.(pool := d.pool[..i], stopped := d.stopped || i == 0)
            && At(m, Twin(s)) == t.(rx := t.rx + [d.pool[i]], frames := t.frames + [frame])
  {
  }
}
