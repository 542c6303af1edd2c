/** snull_device.c: packet buffers on linked lists, handed between two interfaces, proved
    against PacketFlow. */
module SnullDevice {
  import opened Kernel
  import opened PacketFlow
  import opened AddressRewrite

  const ETH_ZLEN := 60

  /** struct snull_packet; datalen is the length of data. */
  class Packet {
    const dev: Side
    var next: Packet?
    var data: Frame

    constructor (dev: Side)
      ensures this.dev == dev
    {
      this.dev := dev;
      next := null;
      data := [];
    }
  }

  /** struct snull_priv, with the state of its transmit queue and of its NAPI context. */
  class Priv {
    var ppool: Packet?
    var rxQueue: Packet?
    var rxIntr: bool // SNULL_RX_INTR in status
    var txIntr: bool // SNULL_TX_INTR in status
    var rxIntEnabled: bool
    var locked: bool
    var napiScheduled: bool
    var stopped: bool
    var rxPackets: nat
    var rxDropped: nat
    var txPackets: nat
    var txErrors: nat

    constructor ()
      ensures ppool == null && rxQueue == null && rxIntEnabled
      ensures !napiScheduled && !locked && !rxIntr && !txIntr && !stopped
      ensures rxPackets == rxDropped == txPackets == txErrors == 0
    {
      ppool, rxQueue := null, null;
      rxIntEnabled, napiScheduled, locked, rxIntr, txIntr, stopped := true, false, false, false, false, false;
      rxPackets, rxDropped, txPackets, txErrors := 0, 0, 0, 0;
    }
  }

  /** The one list that holds a packet, and its distance from the end of that list. */
  datatype Home = Home(s: Side, queued: bool, i: nat)

  type Ledger = map<Packet, Home>

  ghost function List(n: Net<Packet>, s: Side, queued: bool): seq<Packet> {
    if queued then At(n, s).rx else At(n, s).pool
  }

  ghost predicate Listed(home: Ledger, l: seq<Packet>, s: Side, queued: bool) {
    forall i :: 0 <= i < |l| ==> l[i] in home && home[l[i]] == Home(s, queued, i)
  }

  ghost predicate AtHome(n: Net<Packet>, p: Packet, h: Home) {
    h.i < |List(n, h.s, h.queued)| && List(n, h.s, h.queued)[h.i] == p
  }

  /** Every packet in the ledger is on one list, once, and nothing else is on a list. */
  ghost predicate Placed(home: Ledger, n: Net<Packet>) {
    && (forall s: Side, queued: bool :: Listed(home, List(n, s, queued), s, queued))
    && (forall p :: p in home ==> AtHome(n, p, home[p]))
    && WellFormed(n)
  }

  function Top(l: seq<Packet>): Packet? {
    if l == [] then null else l[|l| - 1]
  }

  /** The nodes on a list point at each other, and belong to the right device. */
  ghost predicate Linked(n: Net<Packet>, p: Packet, h: Home)
    requires AtHome(n, p, h) && WellFormed(n)
    reads p
  {
    && p.dev == (if h.queued then Twin(h.s) else h.s)
    && p.next == Top(List(n, h.s, h.queued)[..h.i])
    && (h.queued ==> p.data == At(n, h.s).frames[h.i])
  }

  ghost predicate AllLinked(home: Ledger, n: Net<Packet>)
    requires Placed(home, n)
    reads home.Keys
  {
    forall p :: p in home ==> Linked(n, p, home[p])
  }

  /** Lists and nodes agree: lists are acyclic and disjoint, and hold each packet once. */
  ghost predicate InOrder(home: Ledger, n: Net<Packet>)
    reads home.Keys
  {
    Placed(home, n) && AllLinked(home, n)
  }

  /** The fields of one interface show what the value says. */
  ghost predicate Shows(d: Priv, v: Dev<Packet>)
    reads d`ppool, d`rxQueue, d`rxIntEnabled, d`napiScheduled, d`stopped, d`rxPackets, d`rxDropped
  {
    && d.ppool == Top(v.pool) && d.rxQueue == Top(v.rx)
    && d.rxIntEnabled == v.rxInt && d.napiScheduled == v.scheduled && d.stopped == v.stopped
    && d.rxPackets == |v.received| && d.rxDropped == |v.lost|
  }

  // ---- the ledger ----

  /** Only list (s, queued) differs. */
  ghost predicate OnlyList(n: Net<Packet>, n': Net<Packet>, s: Side, queued: bool) {
    forall s': Side, q: bool :: s' != s || q != queued ==> List(n', s', q) == List(n, s', q)
  }

  lemma PlacedRemove(home: Ledger, n: Net<Packet>, s: Side, queued: bool, n': Net<Packet>)
    requires Placed(home, n) && WellFormed(n') && OnlyList(n, n', s, queued)
    requires List(n, s, queued) != [] && List(n', s, queued) == List(n, s, queued)[..|List(n, s, queued)| - 1]
    ensures Top(List(n, s, queued)) in home && Placed(home - {Top(List(n, s, queued))}, n')
  {
    TopPlaced(home, n, s, queued);
    var p: Packet := Top(List(n, s, queued));
    forall q | q in home && q != p ensures AtHome(n', q, home[q]) {
      assert AtHome(n, q, home[q]);
      StaysHome(n, n', s, queued, q, home[q]);
    }
    forall s': Side, q: bool ensures Listed(home - {p}, List(n', s', q), s', q) {
      assert Listed(home, List(n, s', q), s', q);
      ListedWithout(home, List(n, s', q), s', q, p, List(n', s', q));
    }
    hide List, Listed, AtHome, Top, OnlyList;
  }

  /** Only the last packet of the list has left its place. */
  lemma StaysHome(n: Net<Packet>, n': Net<Packet>, s: Side, queued: bool, q: Packet, h: Home)
    requires OnlyList(n, n', s, queued) && AtHome(n, q, h)
    requires List(n, s, queued) != [] && List(n', s, queued) == List(n, s, queued)[..|List(n, s, queued)| - 1]
    requires q != Top(List(n, s, queued))
    ensures AtHome(n', q, h)
  {
    hide List;
  }

  /** A list, or what is left of it, without the packet that has gone. */
  lemma ListedWithout(home: Ledger, l: seq<Packet>, s: Side, queued: bool, p: Packet, l': seq<Packet>)
    requires Listed(home, l, s, queued) && l' <= l && p in home
    requires (home[p].s != s || home[p].queued != queued) || |l'| <= home[p].i
    ensures Listed(home - {p}, l', s, queued)
  {
  }

  lemma PlacedAdd(home: Ledger, n: Net<Packet>, s: Side, queued: bool, p: Packet, n': Net<Packet>)
    requires Placed(home, n) && WellFormed(n') && p !in home && OnlyList(n, n', s, queued)
    requires List(n', s, queued) == List(n, s, queued) + [p]
    ensures Placed(home[p := Home(s, queued, |List(n, s, queued)|)], n')
  {
    var l := List(n, s, queued);
    var h := home[p := Home(s, queued, |l|)];
    forall q | q in h ensures AtHome(n', q, h[q]) {
      if q != p {
        assert AtHome(n, q, home[q]);
      }
    }
    forall s': Side, q: bool ensures Listed(h, List(n', s', q), s', q) {
      assert Listed(home, List(n, s', q), s', q);
    }
  }

  /** The top of a list leaves it. */
  lemma Remove(home: Ledger, n: Net<Packet>, s: Side, queued: bool, n': Net<Packet>)
    requires Placed(home, n) && AllLinked(home, n) && WellFormed(n') && OnlyList(n, n', s, queued)
    requires List(n, s, queued) != [] && List(n', s, queued) == List(n, s, queued)[..|List(n, s, queued)| - 1]
    requires forall t: Side :: At(n', t).frames <= At(n, t).frames
    ensures var p := Top(List(n, s, queued));
            && p in home && Linked(n, p, home[p]) && home[p] == Home(s, queued, |List(n', s, queued)|)
            && Placed(home - {p}, n') && AllLinked(home - {p}, n')
  {
    var p := Top(List(n, s, queued));
    TopPlaced(home, n, s, queued);
    PlacedRemove(home, n, s, queued, n');
    OnlyShorter(n, n', s, queued);
    hide *;
    LinkedRemove(home, n, home - {p}, n');
    OneLinked(home, n, p);
  }

  lemma TopPlaced(home: Ledger, n: Net<Packet>, s: Side, queued: bool)
    requires Placed(home, n) && List(n, s, queued) != []
    ensures var p := Top(List(n, s, queued)); p in home && home[p] == Home(s, queued, |List(n, s, queued)| - 1)
  {
    assert Listed(home, List(n, s, queued), s, queued);
  }

  lemma OnlyShorter(n: Net<Packet>, n': Net<Packet>, s: Side, queued: bool)
    requires OnlyList(n, n', s, queued) && List(n', s, queued) <= List(n, s, queued)
    requires forall t: Side :: At(n', t).frames <= At(n, t).frames
    ensures Shorter(n, n')
  {
    hide List;
    forall s': Side, q: bool ensures List(n', s', q) <= List(n, s', q) && At(n', s').frames <= At(n, s').frames {
    }
  }

  lemma OneLinked(home: Ledger, n: Net<Packet>, p: Packet)
    requires Placed(home, n) && AllLinked(home, n) && p in home
    ensures AtHome(n, p, home[p]) && WellFormed(n) && Linked(n, p, home[p])
  {
  }

  ghost predicate Shorter(n: Net<Packet>, n': Net<Packet>) {
    forall s: Side, q: bool :: List(n', s, q) <= List(n, s, q) && At(n', s).frames <= At(n, s).frames
  }

  /** A node that stays where it is keeps its link. */
  lemma SameLink(n: Net<Packet>, n': Net<Packet>, q: Packet, h: Home)
    requires WellFormed(n) && WellFormed(n') && AtHome(n, q, h) && AtHome(n', q, h) && Linked(n, q, h)
    requires Shorter(n, n') || Shorter(n', n)
    ensures Linked(n', q, h)
  {
    assert List(n', h.s, h.queued)[..h.i] == List(n, h.s, h.queued)[..h.i];
  }

  lemma LinkedRemove(home: Ledger, n: Net<Packet>, h: Ledger, n': Net<Packet>)
    requires Placed(home, n) && AllLinked(home, n) && Placed(h, n')
    requires Shorter(n, n') && forall q :: q in h ==> q in home && h[q] == home[q]
    ensures AllLinked(h, n')
  {
    forall q | q in h ensures Linked(n', q, h[q]) {
      assert AtHome(n, q, home[q]) && AtHome(n', q, h[q]);
      SameLink(n, n', q, h[q]);
    }
  }

  /** A packet in hand goes on top of a list. */
  lemma Add(home: Ledger, n: Net<Packet>, s: Side, queued: bool, p: Packet, n': Net<Packet>)
    requires Placed(home, n) && AllLinked(home, n) && WellFormed(n') && OnlyList(n, n', s, queued)
    requires p !in home && p.next == Top(List(n, s, queued)) && p.dev == (if queued then Twin(s) else s)
    requires List(n', s, queued) == List(n, s, queued) + [p]
    requires forall t: Side :: At(n, t).frames <= At(n', t).frames
    requires queued ==> p.data == At(n', s).frames[|At(n, s).rx|]
    ensures Placed(home[p := Home(s, queued, |List(n, s, queued)|)], n')
    ensures AllLinked(home[p := Home(s, queued, |List(n, s, queued)|)], n')
  {
    PlacedAdd(home, n, s, queued, p, n');
    var h := home[p := Home(s, queued, |List(n, s, queued)|)];
    assert Shorter(n', n);
    forall q | q in h ensures AtHome(n', q, h[q]) && Linked(n', q, h[q]) {
      assert AtHome(n', q, h[q]);
      if q == p {
        assert List(n', s, queued)[..h[p].i] == List(n, s, queued);
      } else {
        assert AtHome(n, q, home[q]);
        SameLink(n, n', q, h[q]);
      }
    }
  }

  lemma TakeFromPool(home: Ledger, n: Net<Packet>, s: Side, n': Net<Packet>)
    requires WellFormed(n) && InOrder(home, n) && At(n, s).pool != []
    requires At(n', Twin(s)) == At(n, Twin(s)) && At(n', s).rx == At(n, s).rx && At(n', s).frames == At(n, s).frames
    requires At(n', s).pool == At(n, s).pool[..|At(n, s).pool| - 1]
    ensures var p := Top(At(n, s).pool);
            && p in home && p.dev == s && p.next == Top(At(n', s).pool)
            && (p.next == null <==> |At(n, s).pool| == 1)
            && InOrder(home - {p}, n')
  {
    hide Placed, AllLinked;
    Remove(home, n, s, false, n');
  }

  lemma TakeFromQueue(home: Ledger, n: Net<Packet>, s: Side)
    requires WellFormed(n) && InOrder(home, n) && At(n, s).rx != []
    ensures var p := Top(At(n, s).rx);
            && p in home && p.dev == Twin(s) && p.next == Top(At(Dequeued(n, s), s).rx)
            && p.data == At(n, s).frames[|At(n, s).rx| - 1]
            && InOrder(home - {p}, Dequeued(n, s))
  {
    hide Placed, AllLinked;
    Remove(home, n, s, true, Dequeued(n, s));
  }

  ghost function Elements<T>(l: seq<T>): set<T> {
    set x | x in l
  }

  lemma ElementsNone<T>()
    ensures Elements<T>([]) == {}
  {
  }

  lemma ElementsAdd<T>(l: seq<T>, x: T)
    ensures Elements(l + [x]) == Elements(l) + {x}
  {
  }

  lemma ElementsFrom<T>(l: seq<T>, n: nat)
    requires n < |l|
    ensures Elements(l[n..]) == {l[n]} + Elements(l[n + 1..])
  {
    assert l[n..] == [l[n]] + l[n + 1..];
  }

  ghost predicate SameOnLists(d: Dev<Packet>, d': Dev<Packet>) {
    d'.pool == d.pool && d'.rx == d.rx && d'.frames == d.frames
  }

  /** Only fields that no list depends on differ. */
  lemma ListsUntouched(home: Ledger, n: Net<Packet>, n': Net<Packet>)
    requires InOrder(home, n) && SameOnLists(n.sn0, n'.sn0) && SameOnLists(n.sn1, n'.sn1)
    ensures InOrder(home, n')
  {
    assert forall s: Side, q: bool :: List(n', s, q) == List(n, s, q);
    hide List;
    forall p | p in home ensures AtHome(n', p, home[p]) {
      assert AtHome(n, p, home[p]);
    }
    forall s: Side, q: bool ensures Listed(home, List(n', s, q), s, q) {
      assert Listed(home, List(n, s, q), s, q);
    }
    forall p | p in home ensures Linked(n', p, home[p]) {
      assert Linked(n, p, home[p]);
    }
  }

  lemma TopOf(l: seq<Packet>)
    ensures Top(l) == null <==> l == []
    ensures l != [] ==> Top(l) == l[|l| - 1]
  {
  }

  lemma PutInPool(home: Ledger, n: Net<Packet>, p: Packet, n': Net<Packet>)
    requires WellFormed(n) && InOrder(home, n) && p !in home && p.next == Top(At(n, p.dev).pool)
    requires At(n', Twin(p.dev)) == At(n, Twin(p.dev))
    requires At(n', p.dev).rx == At(n, p.dev).rx && At(n', p.dev).frames == At(n, p.dev).frames
    requires At(n', p.dev).pool == At(n, p.dev).pool + [p]
    ensures Top(At(n', p.dev).pool) == p && (p.next == null <==> At(n, p.dev).pool == [])
    ensures InOrder(home[p := Home(p.dev, false, |At(n, p.dev).pool|)], n')
  {
    hide Placed, AllLinked;
    Add(home, n, p.dev, false, p, n');
  }

  lemma PutInQueue(home: Ledger, n: Net<Packet>, s: Side, p: Packet)
    requires WellFormed(n) && InOrder(home, n) && p !in home && p.next == Top(At(n, s).rx) && p.dev == Twin(s)
    ensures Top(At(n, s).rx + [p]) == p
    ensures InOrder(home[p := Home(s, true, |At(n, s).rx|)], Queued(n, s, p, p.data))
  {
    hide Placed, AllLinked;
    Add(home, n, s, true, p, Queued(n, s, p, p.data));
  }

  function Padded(f: Frame): (g: Frame)
    ensures f <= g && |g| == if |f| < 60 then 60 else |f|
    ensures forall i :: |f| <= i < |g| ==> g[i] == 0
  {
    if |f| < ETH_ZLEN then f + seq(ETH_ZLEN - |f|, _ => 0) else f
  }

  /** The frame g carries the packet f: padded with zeros to 60 octets, and equal to it but
      for the checksum (24, 25) and the network octets (28, 32), whose low bit flips. */
  predicate Carries(g: Frame, f: Frame) {
    && |g| == (if |f| < 60 then 60 else |f|)
    && (forall i :: 0 <= i < |g| && i !in {24, 25, 28, 32} ==> g[i] == if i < |f| then f[i] else 0)
    && LowBitFlipped(if 28 < |f| then f[28] else 0, g[28]) && LowBitFlipped(if 32 < |f| then f[32] else 0, g[32])
  }

  lemma CrossingCarries(f: Frame, stray: nat)
    requires stray <= 0xFFFF
    ensures Carries(OnWire(Padded(f), stray), f)
  {
    CrossingTouches(Padded(f), stray);
    hide OnWire;
  }

  /** What becomes of the frame of a transmit carries the packet. */
  lemma TwinGets(napi: bool, n: Net<Packet>, s: Side, f: Frame, stray: nat, memory: bool)
    requires WellFormed(n) && At(n, s).pool != [] && stray <= 0xFFFF
    ensures var t, t' := At(n, Twin(s)), At(Sent(napi, n, s, OnWire(Padded(f), stray), memory), Twin(s));
            && (napi || !t.rxInt ==> |t'.frames| == |t.frames| + 1 && Carries(t'.frames[|t.frames|], f))
            && (!napi && t.rxInt && memory ==> |t'.received| == |t.received| + 1 && Carries(t'.received[|t.received|], f))
            && (!napi && t.rxInt && !memory ==> |t'.lost| == |t.lost| + 1 && Carries(t'.lost[|t.lost|], f))
  {
    CrossingCarries(f, stray);
    SentFrame(napi, n, s, OnWire(Padded(f), stray), memory);
    hide Carries, Sent, OnWire, Padded;
  }

  /** An interface with receive interrupts on, a running queue, and no packet anywhere. */
  ghost const NOTHING: Dev<Packet> := Dev([], [], [], true, false, false, [], [])

  class Snull {
    const sn0: Priv
    const sn1: Priv
    const napi: bool
    /** The interfaces as values, and where each allocated packet lies. */
    ghost var net: Net<Packet>
    ghost var home: Ledger

    constructor (napi: bool)
      ensures Valid() && Idle() && fresh(sn0) && fresh(sn1) && home == map[] && this.napi == napi
      ensures net == Net(NOTHING, NOTHING)
    {
      this.napi := napi;
      sn0 := new Priv();
      sn1 := new Priv();
      net := Net(NOTHING, NOTHING);
      home := map[];
    }

    function Of(s: Side): Priv {
      if s.Sn0? then sn0 else sn1
    }

    /** Every allocated packet is on exactly one list, its owner's pool or the twin's
        queue; lists are acyclic and disjoint. */
    ghost predicate Valid()
      reads this, sn0, sn1, home.Keys
    {
      && sn0 != sn1
      && WellFormed(net) && InOrder(home, net)
      && Shows(sn0, net.sn0) && Shows(sn1, net.sn1)
    }

    /** Between entry points no lock is held and no interrupt is pending. */
    predicate Idle()
      reads this, sn0, sn1
    {
      && !sn0.locked && !sn0.rxIntr && !sn0.txIntr
      && !sn1.locked && !sn1.rxIntr && !sn1.txIntr
    }

    /** snull_get_tx_buffer: the exit for an empty pool leaves the lock taken. */
    method GetTxBuffer(s: Side) returns (pkt: Packet?)
      requires Valid() && !Of(s).locked
      modifies this`home, this`net, Of(s)`ppool, Of(s)`stopped, Of(s)`locked
      ensures Valid()
      ensures At(old(net), s).pool == [] ==> pkt == null && Of(s).locked && net == old(net) && home == old(home)
      ensures At(old(net), s).pool != [] ==>
                && pkt == Top(At(old(net), s).pool) && pkt.dev == s && !Of(s).locked
                && pkt in old(home) && home == old(home) - {pkt}
                && net == Taken(old(net), s)
    {
      hide InOrder, Top;
      var d := Of(s);
      d.locked := true;
      pkt := d.ppool;
      TopOf(At(net, s).pool);
      if pkt == null {
        return;
      }
      TakeFromPool(home, net, s, Taken(net, s));
      d.ppool := pkt.next;
      if d.ppool == null {
        d.stopped := true;
      }
      d.locked := false;
      home, net := home - {pkt}, Taken(net, s);
    }

    /** The part of snull_release_buffer under the lock. */
    method PutBack(pkt: Packet)
      requires Valid() && pkt !in home && !Of(pkt.dev).locked
      modifies this`home, this`net, pkt`next, Of(pkt.dev)`ppool, Of(pkt.dev)`locked
      ensures Valid() && !Of(pkt.dev).locked
      ensures var v := At(old(net), pkt.dev);
              && net == With(old(net), pkt.dev, v.(pool := v.pool + [pkt])) && (pkt.next == null <==> v.pool == [])
              && home == old(home)[pkt := Home(pkt.dev, false, |v.pool|)]
    {
      hide InOrder, Top;
      var d := Of(pkt.dev);
      ghost var v := At(net, pkt.dev);
      ghost var n' := With(net, pkt.dev, v.(pool := v.pool + [pkt]));
      d.locked := true;
      pkt.next := d.ppool;
      PutInPool(home, net, pkt, n');
      d.ppool := pkt;
      d.locked := false;
      home, net := home[pkt := Home(pkt.dev, false, |v.pool|)], n';
    }

    /** snull_release_buffer. */
    method ReleaseBuffer(pkt: Packet)
      requires Valid() && pkt !in home && !Of(pkt.dev).locked
      modifies this`home, this`net, pkt`next, Of(pkt.dev)`ppool, Of(pkt.dev)`stopped, Of(pkt.dev)`locked
      ensures Valid() && !Of(pkt.dev).locked
      ensures net == Released(old(net), pkt.dev, pkt)
      ensures home == old(home)[pkt := Home(pkt.dev, false, |At(old(net), pkt.dev).pool|)]
    {
      hide InOrder, Top;
      PutBack(pkt);
      if Of(pkt.dev).stopped && pkt.next == null {
        ListsUntouched(home, net, Opened(net, pkt.dev));
        Of(pkt.dev).stopped := false;
        net := Opened(net, pkt.dev);
      }
    }

    /** snull_enqueue_buf. */
    method EnqueueBuf(s: Side, pkt: Packet)
      requires Valid() && pkt !in home && pkt.dev == Twin(s) && !Of(s).locked
      modifies this`home, this`net, pkt`next, Of(s)`rxQueue, Of(s)`locked
      ensures Valid() && !Of(s).locked
      ensures net == Queued(old(net), s, pkt, pkt.data)
      ensures home == old(home)[pkt := Home(s, true, |At(old(net), s).rx|)]
    {
      hide InOrder, Top;
      var d := Of(s);
      d.locked := true;
      pkt.next := d.rxQueue;
      PutInQueue(home, net, s, pkt);
      d.rxQueue := pkt;
      d.locked := false;
      home := home[pkt := Home(s, true, |At(net, s).rx|)];
      net := Queued(net, s, pkt, pkt.data);
    }

    /** snull_dequeue_buf. */
    method DequeueBuf(s: Side) returns (pkt: Packet?)
      requires Valid() && !Of(s).locked
      modifies this`home, this`net, Of(s)`rxQueue, Of(s)`locked
      ensures Valid() && !Of(s).locked
      ensures At(old(net), s).rx == [] ==> pkt == null && net == old(net) && home == old(home)
      ensures At(old(net), s).rx != [] ==>
                && pkt == Top(At(old(net), s).rx) && pkt.dev == Twin(s)
                && pkt in old(home) && home == old(home) - {pkt}
                && net == Dequeued(old(net), s)
                && pkt.data == At(old(net), s).frames[|At(old(net), s).rx| - 1]
    {
      hide InOrder, Top;
      var d := Of(s);
      d.locked := true;
      pkt := d.rxQueue;
      TopOf(At(net, s).rx);
      if pkt != null {
        TakeFromQueue(home, net, s);
        d.rxQueue := pkt.next;
        home, net := home - {pkt}, Dequeued(net, s);
      }
      d.locked := false;
    }

    /** snull_setup_pool fills an empty pool until an allocation fails. */
    method SetupPool(s: Side, poolSize: int, memory: seq<bool>)
      requires Valid() && At(net, s).pool == []
      modifies this`home, this`net, Of(s)`ppool
      ensures Valid()
      ensures net == With(old(net), s, At(old(net), s).(pool := At(net, s).pool))
      ensures var made := At(net, s).pool;
              && (forall i :: 0 <= i < |made| ==> fresh(made[i]))
              && (made != [] ==> |made| <= poolSize) && (|made| < poolSize ==> !Has(memory, |made|))
              && (forall i :: 0 <= i < |made| ==> Has(memory, i))
              && home.Keys == old(home.Keys) + Elements(made)
    {
      hide InOrder, Top, Elements;
      TopOf(At(net, s).pool);
      ElementsNone<Packet>();
      Of(s).ppool := null;
      assert Valid();
      hide Shows;
      var i := 0;
      while i < poolSize
        invariant Valid() && i == |At(net, s).pool| && (i > 0 ==> i <= poolSize)
        invariant net == With(old(net), s, At(old(net), s).(pool := At(net, s).pool))
        invariant forall k :: 0 <= k < i ==> fresh(At(net, s).pool[k]) && Has(memory, k)
        invariant home.Keys == old(home.Keys) + Elements(At(net, s).pool)
      {
        if !Has(memory, i) {
          return;
        }
        ghost var pool := At(net, s).pool;
        var pkt := AllocatePacket(s);
        ElementsAdd(pool, pkt);
        i := i + 1;
      }
    }

    /** What snull_init does for both interfaces: runs of the value model start here. */
    method Initialise(poolSize: int, memory0: seq<bool>, memory1: seq<bool>)
      requires Valid() && Idle() && net == Net(NOTHING, NOTHING)
      modifies this`home, this`net, sn0`ppool, sn1`ppool
      ensures Valid() && Idle() && Init(net) && Run(napi, [net], [])
      ensures net.sn0.pool != [] <==> 0 < poolSize && Has(memory0, 0)
      ensures net.sn1.pool != [] <==> 0 < poolSize && Has(memory1, 0)
    {
      hide InOrder, Top, Shows, Elements;
      SetupPool(Sn0, poolSize, memory0);
      SetupPool(Sn1, poolSize, memory1);
    }

    /** One turn of the loop of snull_setup_pool. */
    method AllocatePacket(s: Side) returns (pkt: Packet)
      requires Valid()
      modifies this`home, this`net, Of(s)`ppool
      ensures Valid() && fresh(pkt)
      ensures net == With(old(net), s, At(old(net), s).(pool := At(old(net), s).pool + [pkt]))
      ensures home == old(home)[pkt := Home(s, false, |At(old(net), s).pool|)]
    {
      hide InOrder, Top;
      var d := Of(s);
      pkt := new Packet(s);
      pkt.next := d.ppool;
      ghost var n' := With(net, s, At(net, s).(pool := At(net, s).pool + [pkt]));
      PutInPool(home, net, pkt, n');
      d.ppool := pkt;
      home, net := home[pkt := Home(s, false, |At(net, s).pool|)], n';
    }

    /** snull_teardown_pool: every packet of the pool is freed, each of them once, for kfree
        takes it out of the ledger. */
    method TeardownPool(s: Side)
      requires Valid()
      modifies this`home, this`net, Of(s)`ppool
      ensures Valid()
      ensures net == With(old(net), s, At(old(net), s).(pool := []))
      ensures home == old(home) - Elements(At(old(net), s).pool)
    {
      hide InOrder, Top, Elements, Shows;
      ghost var all := At(net, s).pool;
      ElementsNone<Packet>();
      assert all[|all|..] == [];
      PoolEmpty(s);
      while Of(s).ppool != null
        invariant Valid() && At(net, s).pool <= all && (Of(s).ppool == null <==> At(net, s).pool == [])
        invariant net == With(old(net), s, At(old(net), s).(pool := At(net, s).pool))
        invariant home == old(home) - Elements(all[|At(net, s).pool|..])
        decreases |At(net, s).pool|
      {
        ghost var n := |At(net, s).pool| - 1;
        ElementsFrom(all, n);
        assert home == old(home) - Elements(all[n + 1..]);
        FreeTop(s);
        assert home == old(home) - Elements(all[n + 1..]) - {all[n]};
        PoolEmpty(s);
      }
    }

    lemma PoolEmpty(s: Side)
      requires Valid()
      ensures Of(s).ppool == null <==> At(net, s).pool == []
    {
    }

    /** One turn of the loop of snull_teardown_pool. */
    method FreeTop(s: Side)
      requires Valid() && At(net, s).pool != []
      modifies this`home, this`net, Of(s)`ppool
      ensures Valid()
      ensures var n := |At(old(net), s).pool| - 1;
              && net == With(old(net), s, At(old(net), s).(pool := At(old(net), s).pool[..n]))
              && At(old(net), s).pool[n] in old(home)
              && home == old(home) - {At(old(net), s).pool[n]}
    {
      hide InOrder, Top;
      var pkt := Of(s).ppool;
      TopOf(At(net, s).pool);
      ghost var n' := With(net, s, At(net, s).(pool := At(net, s).pool[..|At(net, s).pool| - 1]));
      TakeFromPool(home, net, s, n');
      Of(s).ppool := pkt.next;
      home, net := home - {pkt}, n';
    }

    /** dev_alloc_skb, netif_receive_skb or netif_rx, and the statistics. */
    method HandUp(s: Side, frame: Frame, memory: bool)
      requires Valid()
      modifies this`net, Of(s)`rxPackets, Of(s)`rxDropped
      ensures Valid() && net == HandedUp(old(net), s, frame, memory)
    {
      hide InOrder, Top;
      ListsUntouched(home, net, HandedUp(net, s, frame, memory));
      if memory {
        Of(s).rxPackets := Of(s).rxPackets + 1;
      } else {
        Of(s).rxDropped := Of(s).rxDropped + 1;
      }
      net := HandedUp(net, s, frame, memory);
    }

    /** snull_poll; `complete` is the answer of napi_complete_done. */
    method Poll(s: Side, budget: nat, memory: seq<bool>, complete: bool) returns (npackets: nat)
      requires Valid() && Idle()
      modifies this`home, this`net, home.Keys, Of(s)`rxQueue, Of(s)`locked, Of(s)`rxPackets, Of(s)`rxDropped,
               Of(s)`rxIntEnabled, Of(s)`napiScheduled,
               Of(Twin(s))`ppool, Of(Twin(s))`stopped, Of(Twin(s))`locked
      ensures Valid() && Idle() && home.Keys == old(home.Keys)
      ensures net == Polled(old(net), s, budget, memory, complete)
      ensures npackets == Min(|At(old(net), s).rx|, budget)
      ensures old(Of(s).napiScheduled) ==> Step(napi, old(net), Label.Poll(s, budget, memory, complete), net)
    {
      hide InOrder, Top, Delivered, Drained;
      assert Of(s).napiScheduled == At(net, s).scheduled;
      hide Shows;
      DrainShape(net, s, budget, memory, 0);
      npackets := Drain(s, budget, memory);
      if npackets < budget {
        Complete(s, complete);
      }
    }

    /** Lines 259-266 of snull_poll. */
    method Complete(s: Side, complete: bool)
      requires Valid() && Idle()
      modifies this`net, Of(s)`locked, Of(s)`rxIntEnabled, Of(s)`napiScheduled
      ensures Valid() && Idle()
      ensures net == if complete then With(old(net), s, At(old(net), s).(rxInt := true, scheduled := false)) else old(net)
    {
      hide InOrder, Top;
      var d := Of(s);
      d.locked := true;
      if complete {
        ghost var n' := With(net, s, At(net, s).(rxInt := true, scheduled := false));
        ListsUntouched(home, net, n');
        d.rxIntEnabled, d.napiScheduled, net := true, false, n';
      }
      d.locked := false;
    }

    /** The loop of snull_poll. */
    method Drain(s: Side, budget: nat, memory: seq<bool>) returns (npackets: nat)
      requires Valid() && Idle()
      modifies this`home, this`net, home.Keys, Of(s)`rxQueue, Of(s)`locked, Of(s)`rxPackets, Of(s)`rxDropped,
               Of(Twin(s))`ppool, Of(Twin(s))`stopped, Of(Twin(s))`locked
      ensures Valid() && Idle() && home.Keys == old(home.Keys)
      ensures net == Drained(old(net), s, budget, memory, 0)
      ensures npackets == Min(|At(old(net), s).rx|, budget)
    {
      hide InOrder, Top, Delivered;
      npackets := 0;
      while npackets < budget && Of(s).rxQueue != null
        invariant Valid() && Idle() && home.Keys == old(home.Keys) && npackets <= budget
        invariant npackets + |At(net, s).rx| == |At(old(net), s).rx|
        invariant Drained(net, s, budget, memory, npackets) == Drained(old(net), s, budget, memory, 0)
      {
        TopOf(At(net, s).rx);
        DeliverLists(net, s, Has(memory, npackets));
        DeliverOne(s, Has(memory, npackets));
        npackets := npackets + 1;
      }
      TopOf(At(net, s).rx);
    }

    /** One turn of the loop of snull_poll. */
    method DeliverOne(s: Side, memory: bool)
      requires Valid() && Idle() && At(net, s).rx != []
      modifies this`home, this`net, home.Keys, Of(s)`rxQueue, Of(s)`locked, Of(s)`rxPackets, Of(s)`rxDropped,
               Of(Twin(s))`ppool, Of(Twin(s))`stopped, Of(Twin(s))`locked
      ensures Valid() && Idle() && home.Keys == old(home.Keys)
      ensures net == Delivered(old(net), s, memory)
    {
      hide InOrder, Top, Shows, Released, Dequeued;
      TopOf(At(net, s).rx);
      var pkt := DequeueBuf(s);
      HandUp(s, pkt.data, memory);
      ReleaseBuffer(pkt);
    }

    /** snull_napi_interrupt. */
    method NapiInterrupt(s: Side)
      requires Valid() && !Of(s).locked
      modifies this`net, Of(s)`locked, Of(s)`rxIntr, Of(s)`txIntr, Of(s)`rxIntEnabled, Of(s)`napiScheduled, Of(s)`txPackets
      ensures Valid() && !Of(s).locked && !Of(s).rxIntr && !Of(s).txIntr
      ensures net == if old(Of(s).rxIntr) then With(old(net), s, At(old(net), s).(rxInt := false, scheduled := true)) else old(net)
      ensures Of(s).txPackets == old(Of(s).txPackets) + if old(Of(s).txIntr) then 1 else 0
    {
      hide InOrder, Top;
      var d := Of(s);
      d.locked := true;
      var rx, tx := d.rxIntr, d.txIntr;
      d.rxIntr, d.txIntr := false, false;
      if rx {
        ghost var n' := With(net, s, At(net, s).(rxInt := false, scheduled := true));
        ListsUntouched(home, net, n');
        d.rxIntEnabled, d.napiScheduled, net := false, true, n';
      }
      if tx {
        d.txPackets := d.txPackets + 1;
      }
      d.locked := false;
    }

    /** Lines 298-302 of snull_regular_interrupt: the packet on top of the queue goes up, and stays in hand. */
    method ReceiveTop(s: Side, memory: bool) returns (pkt: Packet?)
      requires Valid()
      modifies this`home, this`net, Of(s)`rxQueue, Of(s)`rxPackets, Of(s)`rxDropped
      ensures Valid()
      ensures At(old(net), s).rx == [] ==> pkt == null && net == old(net) && home == old(home)
      ensures At(old(net), s).rx != [] ==>
                && var i := |At(old(net), s).rx| - 1;
                && pkt == At(old(net), s).rx[i] && pkt.dev == Twin(s)
                && pkt in old(home) && home == old(home) - {pkt}
                && net == HandedUp(Dequeued(old(net), s), s, At(old(net), s).frames[i], memory)
    {
      hide InOrder, Top;
      TopOf(At(net, s).rx);
      pkt := Of(s).rxQueue;
      if pkt != null {
        TakeFromQueue(home, net, s);
        Of(s).rxQueue := pkt.next;
        home, net := home - {pkt}, Dequeued(net, s);
        HandUp(s, pkt.data, memory);
      }
    }

    /** The part of snull_regular_interrupt under the lock. */
    method Serve(s: Side, memory: bool) returns (pkt: Packet?)
      requires Valid() && !Of(s).locked
      modifies this`home, this`net, Of(s)`locked, Of(s)`rxIntr, Of(s)`txIntr, Of(s)`rxQueue,
               Of(s)`rxPackets, Of(s)`rxDropped, Of(s)`txPackets
      ensures Valid() && !Of(s).locked && !Of(s).rxIntr && !Of(s).txIntr
      ensures Of(s).txPackets == old(Of(s).txPackets) + if old(Of(s).txIntr) then 1 else 0
      ensures pkt != null <==> old(Of(s).rxIntr) && At(old(net), s).rx != []
      ensures pkt == null ==> net == old(net) && home == old(home)
      ensures pkt != null ==>
                && var i := |At(old(net), s).rx| - 1;
                && pkt == At(old(net), s).rx[i] && pkt.dev == Twin(s)
                && pkt in old(home) && home == old(home) - {pkt}
                && net == HandedUp(Dequeued(old(net), s), s, At(old(net), s).frames[i], memory)
    {
      hide InOrder, Top, Shows, Dequeued, HandedUp;
      var d := Of(s);
      d.locked := true;
      pkt := null;
      var rx, tx := d.rxIntr, d.txIntr;
      d.rxIntr, d.txIntr := false, false;
      if rx {
        pkt := ReceiveTop(s, memory);
      }
      if tx {
        d.txPackets := d.txPackets + 1;
      }
      d.locked := false;
    }

    /** snull_regular_interrupt: the buffer is released outside the lock. */
    method RegularInterrupt(s: Side, memory: bool)
      requires Valid() && !sn0.locked && !sn1.locked
      modifies this`home, this`net, home.Keys, Of(s)`locked, Of(s)`rxIntr, Of(s)`txIntr, Of(s)`rxQueue,
               Of(s)`rxPackets, Of(s)`rxDropped, Of(s)`txPackets,
               Of(Twin(s))`ppool, Of(Twin(s))`stopped, Of(Twin(s))`locked
      ensures Valid() && !sn0.locked && !sn1.locked && !Of(s).rxIntr && !Of(s).txIntr
      ensures home.Keys == old(home.Keys)
      ensures net == if old(Of(s).rxIntr) && At(old(net), s).rx != [] then Delivered(old(net), s, memory) else old(net)
      ensures Of(s).txPackets == old(Of(s).txPackets) + if old(Of(s).txIntr) then 1 else 0
    {
      hide InOrder, Top, Shows, Dequeued, HandedUp, Released;
      var pkt := Serve(s, memory);
      if pkt != null {
        ReleaseBuffer(pkt);
      }
    }

    /** The handler that use_napi selects. */
    method Interrupt(s: Side, memory: bool)
      requires Valid() && !sn0.locked && !sn1.locked
      modifies this`home, this`net, home.Keys, Of(s)`locked, Of(s)`rxIntr, Of(s)`txIntr, Of(s)`rxQueue,
               Of(s)`rxPackets, Of(s)`rxDropped, Of(s)`txPackets, Of(s)`rxIntEnabled, Of(s)`napiScheduled,
               Of(Twin(s))`ppool, Of(Twin(s))`stopped, Of(Twin(s))`locked
      ensures Valid() && !sn0.locked && !sn1.locked && !Of(s).rxIntr && !Of(s).txIntr
      ensures home.Keys == old(home.Keys)
      ensures net == if !old(Of(s).rxIntr) then old(net)
                     else if napi then With(old(net), s, At(old(net), s).(rxInt := false, scheduled := true))
                     else if At(old(net), s).rx != [] then Delivered(old(net), s, memory) else old(net)
      ensures Of(s).txPackets == old(Of(s).txPackets) + if old(Of(s).txIntr) then 1 else 0
    {
      hide InOrder, Top, Shows, Delivered;
      if napi {
        NapiInterrupt(s);
      } else {
        RegularInterrupt(s, memory);
      }
    }

    /** Lines 419-428 of snull_hw_tx. */
    method PutOnTwin(s: Side, buf: array<byte>) returns (ok: bool)
      requires Valid() && Idle()
      modifies this`home, this`net, home.Keys, Of(s)`ppool, Of(s)`stopped, Of(s)`locked,
               Of(Twin(s))`rxQueue, Of(Twin(s))`locked
      ensures Valid() && home.Keys == old(home.Keys)
      ensures ok <==> At(old(net), s).pool != []
      ensures ok ==> Idle() && net == Enqueued(old(net), s, buf[..])
      ensures !ok ==> net == old(net) && home == old(home) && Of(s).locked
    {
      hide InOrder, Top, Shows;
      TopOf(At(net, s).pool);
      var txBuffer := GetTxBuffer(s);
      ok := txBuffer != null;
      if ok {
        txBuffer.data := buf[..];
        EnqueueBuf(Twin(s), txBuffer);
      }
    }

    lemma FlagShown(s: Side)
      requires Valid()
      ensures Of(s).rxIntEnabled == At(net, s).rxInt
    {
    }

    /** Lines 429-445 of snull_hw_tx: the receive interrupt of the twin, then the transmit interrupt. */
    method Announce(s: Side, memory: bool)
      requires Valid() && Idle()
      modifies this`home, this`net, home.Keys, sn0, sn1
      ensures Valid() && Idle() && home.Keys == old(home.Keys)
      ensures var t := Twin(s);
              net == if !At(old(net), t).rxInt then old(net)
                     else if napi then With(old(net), t, At(old(net), t).(rxInt := false, scheduled := true))
                     else if At(old(net), t).rx != [] then Delivered(old(net), t, memory) else old(net)
      ensures Of(s).txPackets == old(Of(s).txPackets) + 1
    {
      hide InOrder, Top, Delivered, Shows;
      var dest := Twin(s);
      FlagShown(dest);
      if Of(dest).rxIntEnabled {
        Of(dest).rxIntr := true;
        Interrupt(dest, memory);
      }
      Of(s).txIntr := true;
      Interrupt(s, memory);
    }

    /** snull_hw_tx on a frame of buf.Length bytes; `stray` is what ip_fast_csum makes of a
        header length that does not fit. */
    method HwTx(s: Side, buf: array<byte>, stray: nat, memory: bool)
      requires Valid() && Idle() && stray <= 0xFFFF
      modifies this`home, this`net, home.Keys, sn0, sn1, buf
      ensures Valid() && home.Keys == old(home.Keys)
      ensures buf.Length < ETH_HLEN + IP_HLEN ==> Idle() && net == old(net) && home == old(home) && buf[..] == old(buf[..])
      ensures ETH_HLEN + IP_HLEN <= buf.Length ==> buf[..] == OnWire(old(buf[..]), stray)
      ensures ETH_HLEN + IP_HLEN <= buf.Length && At(old(net), s).pool == [] ==>
                && net == old(net) && home == old(home) && Of(s).locked && Of(s).txPackets == old(Of(s).txPackets)
      ensures ETH_HLEN + IP_HLEN <= buf.Length && At(old(net), s).pool != [] ==>
                && Idle() && Of(s).txPackets == old(Of(s).txPackets) + 1
                && net == Sent(napi, old(net), s, buf[..], memory)
    {
      hide InOrder, Top, Shows, Delivered, OnWire, Enqueued;
      if buf.Length < ETH_HLEN + IP_HLEN {
        return;
      }
      RewriteInPlace(buf, stray);
      var ok := PutOnTwin(s, buf);
      if ok {
        EnqueueLists(old(net), s, buf[..]);
        Announce(s, memory);
      }
    }

    /** __snull_tx: short packets are padded with zeros on the stack, longer ones are
        rewritten where they are. */
    method Tx(s: Side, skb: array<byte>, stray: nat, memory: bool)
      requires Valid() && Idle() && stray <= 0xFFFF
      modifies this`home, this`net, home.Keys, sn0, sn1, skb
      ensures Valid() && home.Keys == old(home.Keys)
      ensures skb[..] == if skb.Length < ETH_ZLEN then old(skb[..]) else OnWire(old(skb[..]), stray)
      ensures At(old(net), s).pool == [] ==> net == old(net) && home == old(home) && Of(s).locked
      ensures At(old(net), s).pool != [] ==>
                && Idle() && Of(s).txPackets == old(Of(s).txPackets) + 1
                && net == Sent(napi, old(net), s, OnWire(Padded(old(skb[..])), stray), memory)
      ensures At(old(net), s).pool != [] ==>
                var t, t' := At(old(net), Twin(s)), At(net, Twin(s));
                && (napi || !t.rxInt ==> |t'.frames| == |t.frames| + 1 && Carries(t'.frames[|t.frames|], old(skb[..])))
                && (!napi && t.rxInt && memory ==>
                      |t'.received| == |t.received| + 1 && Carries(t'.received[|t.received|], old(skb[..])))
                && (!napi && t.rxInt && !memory ==>
                      |t'.lost| == |t.lost| + 1 && Carries(t'.lost[|t.lost|], old(skb[..])))
      ensures !old(Of(s).stopped) && At(old(net), s).pool != [] ==>
                Step(napi, old(net), Label.Tx(s, OnWire(Padded(old(skb[..])), stray), memory), net)
    {
      hide InOrder, Top, Shows, OnWire, Padded, Sent, Carries, Step;
      ghost var f := skb[..];
      PadAndSend(s, skb, stray, memory);
      if At(old(net), s).pool != [] {
        TwinGets(napi, old(net), s, f, stray, memory);
      }
    }

    /** The same, in terms of the padded and rewritten frame. */
    method PadAndSend(s: Side, skb: array<byte>, stray: nat, memory: bool)
      requires Valid() && Idle() && stray <= 0xFFFF
      modifies this`home, this`net, home.Keys, sn0, sn1, skb
      ensures Valid() && home.Keys == old(home.Keys)
      ensures skb[..] == if skb.Length < ETH_ZLEN then old(skb[..]) else OnWire(old(skb[..]), stray)
      ensures At(old(net), s).pool == [] ==> net == old(net) && home == old(home) && Of(s).locked
      ensures At(old(net), s).pool != [] ==>
                && Idle() && Of(s).txPackets == old(Of(s).txPackets) + 1
                && net == Sent(napi, old(net), s, OnWire(Padded(old(skb[..])), stray), memory)
      ensures !old(Of(s).stopped) && At(old(net), s).pool != [] ==>
                Step(napi, old(net), Label.Tx(s, OnWire(Padded(old(skb[..])), stray), memory), net)
    {
      hide InOrder, Top, OnWire, Sent;
      assert Of(s).stopped == At(net, s).stopped;
      hide Shows;
      var data := skb;
      if skb.Length < ETH_ZLEN {
        data := new byte[ETH_ZLEN](i => 0);
        forall i | 0 <= i < skb.Length {
          data[i] := skb[i];
        }
      }
      assert data[..] == Padded(old(skb[..]));
      HwTx(s, data, stray, memory);
    }

    /** __snull_open. */
    method Open(s: Side)
      requires Valid()
      modifies this`net, Of(s)`stopped
      ensures Valid() && net == Opened(old(net), s) && Step(napi, old(net), Up(s), net)
    {
      hide InOrder, Top;
      ListsUntouched(home, net, Opened(net, s));
      Of(s).stopped := false;
      net := Opened(net, s);
    }

    /** Lines 488-491 of __snull_tx_timeout. */
    method ResetPool(s: Side, poolSize: int, memory: seq<bool>)
      requires Valid() && Idle()
      modifies this`home, this`net, Of(s)`ppool, Of(s)`locked
      ensures Valid() && Idle()
      ensures net == With(old(net), s, At(old(net), s).(pool := At(net, s).pool))
      ensures var made := At(net, s).pool;
              && (forall i :: 0 <= i < |made| ==> fresh(made[i]) && Has(memory, i))
              && (made != [] ==> |made| <= poolSize) && (|made| < poolSize ==> !Has(memory, |made|))
              && home.Keys == old(home.Keys) - Elements(At(old(net), s).pool) + Elements(made)
    {
      hide InOrder, Top, Shows, Elements;
      Of(s).locked := true;
      TeardownPool(s);
      SetupPool(s, poolSize, memory);
      Of(s).locked := false;
    }

    /** __snull_tx_timeout: the interrupt it simulates can only count, for no packet is due. */
    method TxTimeout(s: Side, poolSize: int, memory: seq<bool>)
      requires Valid() && Idle()
      modifies this`home, this`net, home.Keys, sn0, sn1
      ensures Valid() && Idle()
      ensures net == TimedOut(old(net), s, At(net, s).pool) && Step(napi, old(net), Timeout(s, At(net, s).pool), net)
      ensures var made := At(net, s).pool;
              && (forall i :: 0 <= i < |made| ==> fresh(made[i]) && Has(memory, i))
              && (made != [] ==> |made| <= poolSize) && (|made| < poolSize ==> !Has(memory, |made|))
              && home.Keys == old(home.Keys) - Elements(At(old(net), s).pool) + Elements(made)
      ensures Of(s).txErrors == old(Of(s).txErrors) + 1 && Of(s).txPackets == old(Of(s).txPackets) + 1
    {
      hide InOrder, Top, Shows, Elements;
      Of(s).txIntr := true;
      Interrupt(s, true);
      Of(s).txErrors := Of(s).txErrors + 1;
      ResetPool(s, poolSize, memory);
      Open(s);
    }
  }
}
