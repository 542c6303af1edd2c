/** scull_wuid.c: the device belongs to one user at a time, and others wait. Any number
    of openers and closers, interleaved at every access to the shared fields.

    scull_uid.c is the same gate with every opener non-blocking (it answers EBUSY where
    this one answers EAGAIN). */
module OwnerGate {
  import opened Kernel

  type Attempt = nat
  type Uid = int

  /** The credentials of the calling process: uid, euid, CAP_DAC_OVERRIDE. */
  datatype Cred = Cred(uid: Uid, euid: Uid, override: bool)

  /** From the call of open to the end of release; the name is what happens next. */
  datatype PC =
    | OLock | OTest | ORefuse | OPeek | OPrepare | ORetest(signalled: bool) | OSleep | OFinish
    | OTake | OUnlock | OInner     // admitted, then scull_dev_open
    | OFailLock | OFailDrop | OFailUnlock
    | Held                         // the file is open
    | RLock | RDrop | RUnlock(last: bool) | RWake

  datatype Opener = Opener(pc: PC, cred: Cred, nonblock: bool)

  datatype Gate = Gate(lock: Option<Attempt>, count: int, owner: Uid, queue: set<Attempt>)

  datatype State = State(g: Gate, at: map<Attempt, Opener>)

  predicate Init(s: State) {
    s == State(Gate(None, 0, 0, {}), map[])
  }

  /** scull_w_available */
  predicate Available(g: Gate, c: Cred) {
    g.count == 0 || g.owner == c.uid || g.owner == c.euid || c.override
  }

  predicate HoldsLock(pc: PC) {
    pc.OTest? || pc.ORefuse? || pc.OTake? || pc.OUnlock? || pc.OFailDrop? || pc.OFailUnlock? || pc.RDrop? || pc.RUnlock?
  }

  /** Counted in `count`. */
  predicate Admitted(pc: PC) {
    pc.OUnlock? || pc.OInner? || pc.OFailLock? || pc.OFailDrop? || pc.Held? || pc.RLock? || pc.RDrop?
  }

  function Unlock(g: Gate): Gate {
    g.(lock := None)
  }

  predicate GateStep(g: Gate, t: Attempt, o: Opener, signal: bool, g': Gate, next: Option<PC>) {
    match o.pc
    case OLock => g.lock == None && g' == g.(lock := Some(t)) && next == Some(OTest)
    case OTest => g' == g && next == Some(if Available(g, o.cred) then OTake else ORefuse)
    case ORefuse => g' == Unlock(g) && next == if o.nonblock then None else Some(OPeek)
    // wait_event_interruptible(wait, scull_w_available(dev)), evaluated without the lock
    case OPeek => g' == g && next == Some(if Available(g, o.cred) then OLock else OPrepare)
    case OPrepare => g' == g.(queue := if signal then g.queue - {t} else g.queue + {t}) && next == Some(ORetest(signal))
    case ORetest(signalled) =>
      g' == g && next == if Available(g, o.cred) then Some(OFinish) else if signalled then None else Some(OSleep)
    case OSleep => (t !in g.queue || signal) && g' == g && next == Some(OPrepare)
    case OFinish => g' == g.(queue := g.queue - {t}) && next == Some(OLock)
    // admitted
    case OTake =>
      && g' == g.(owner := if g.count == 0 then o.cred.uid else g.owner, count := g.count + 1)
      && next == Some(OUnlock)
    case OUnlock => g' == Unlock(g) && next == Some(OInner)
    case OInner => g' == g && next in {Some(Held), Some(OFailLock)}
    case OFailLock => g.lock == None && g' == g.(lock := Some(t)) && next == Some(OFailDrop)
    case OFailDrop => g' == g.(count := g.count - 1) && next == Some(OFailUnlock)
    case OFailUnlock => g' == Unlock(g) && next == None
    // release
    case Held => g' == g && next == Some(RLock)
    case RLock => g.lock == None && g' == g.(lock := Some(t)) && next == Some(RDrop)
    case RDrop => g' == g.(count := g.count - 1) && next == Some(RUnlock(g.count - 1 == 0))
    case RUnlock(last) => g' == Unlock(g) && next == if last then Some(RWake) else None
    case RWake => g' == g.(queue := {}) && next == None
  }

  datatype Event = Enter(o: Opener) | GoTo(next: Option<PC>)

  function Move(at: map<Attempt, Opener>, t: Attempt, next: Option<PC>): map<Attempt, Opener>
    requires t in at
  {
    if next.None? then at - {t} else at[t := at[t].(pc := next.value)]
  }

  predicate Step(s: State, t: Attempt, signal: bool, e: Event, s': State) {
    match e
    case Enter(o) => t !in s.at && o.pc.OLock? && s' == s.(at := s.at[t := o])
    case GoTo(next) =>
      && t in s.at
      && GateStep(s.g, t, s.at[t], signal, s'.g, next)
      && s'.at == Move(s.at, t, next)
  }

  // ---- the lock and the count ----

  function Inside(at: map<Attempt, Opener>): set<Attempt> {
    set t | t in at && Admitted(at[t].pc)
  }

  /** The owner's own users, or whoever may override. */
  predicate Matches(owner: Uid, c: Cred) {
    owner == c.uid || owner == c.euid || c.override
  }

  ghost predicate Inv(s: State) {
    && (forall t :: t in s.at ==> (HoldsLock(s.at[t].pc) <==> s.g.lock == Some(t)))
    && (s.g.lock.Some? ==> s.g.lock.value in s.at)
    && s.g.count == |Inside(s.at)|
    && (forall t :: t in s.at && Admitted(s.at[t].pc) ==> Matches(s.g.owner, s.at[t].cred))
    && (forall t :: t in s.at && s.at[t].pc == OTake ==> Available(s.g, s.at[t].cred))
    && (forall t :: t in s.at && s.at[t].pc == ORefuse ==> !Available(s.g, s.at[t].cred))
  }

  lemma LockEffect(g: Gate, t: Attempt, o: Opener, signal: bool, g': Gate, next: Option<PC>)
    requires GateStep(g, t, o, signal, g', next) && (HoldsLock(o.pc) <==> g.lock == Some(t))
    ensures (next.Some? && HoldsLock(next.value)) <==> g'.lock == Some(t)
    ensures g'.lock == g.lock || (g.lock == None && g'.lock == Some(t)) || (g.lock == Some(t) && g'.lock == None)
    ensures !HoldsLock(o.pc) ==> g'.count == g.count && g'.owner == g.owner
  {
  }

  /** How a step moves the count. */
  lemma CountEffect(g: Gate, t: Attempt, o: Opener, signal: bool, g': Gate, next: Option<PC>)
    requires GateStep(g, t, o, signal, g', next)
    ensures var before, after := Admitted(o.pc), next.Some? && Admitted(next.value);
            g'.count - g.count == (if after then 1 else 0) - (if before then 1 else 0)
    ensures g'.owner != g.owner ==> g.count == 0 && o.pc.OTake? && g'.owner == o.cred.uid
    ensures next == Some(OTake) ==> o.pc.OTest? && Available(g, o.cred) && g' == g
    ensures next == Some(ORefuse) ==> o.pc.OTest? && !Available(g, o.cred) && g' == g
    ensures next.Some? && Admitted(next.value) && !Admitted(o.pc) ==> o.pc.OTake? && (g.count == 0 ==> g'.owner == o.cred.uid)
  {
  }

  lemma InsideMoves(at: map<Attempt, Opener>, t: Attempt, next: Option<PC>)
    requires t in at
    ensures |Inside(Move(at, t, next))| ==
              |Inside(at)| - (if Admitted(at[t].pc) then 1 else 0) + (if next.Some? && Admitted(next.value) then 1 else 0)
  {
    var others := Inside(at) - {t};
    assert Inside(at) == if Admitted(at[t].pc) then others + {t} else others;
    assert Inside(Move(at, t, next)) == if next.Some? && Admitted(next.value) then others + {t} else others;
  }

  lemma InvStep(s: State, t: Attempt, signal: bool, e: Event, s': State)
    requires Inv(s) && Step(s, t, signal, e, s')
    ensures Inv(s')
  {
    match e
    case Enter(o) =>
      assert Inside(s'.at) == Inside(s.at);
    case GoTo(next) =>
      LockEffect(s.g, t, s.at[t], signal, s'.g, next);
      CountEffect(s.g, t, s.at[t], signal, s'.g, next);
      InsideMoves(s.at, t, next);
      if s.g.count == 0 {
        assert Inside(s.at) == {};
        assert forall u :: u in s.at && Admitted(s.at[u].pc) ==> u in Inside(s.at);
      }
  }

  // ---- wake-ups ----

  predicate Asleep(s: State, t: Attempt) {
    t in s.at && s.at[t].pc == OSleep && t in s.g.queue
  }

  /** A release that has brought the count to zero and has yet to wake the queue. */
  predicate WillWake(o: Opener) {
    o.pc == RUnlock(true) || o.pc == RWake
  }

  ghost predicate WakePending(s: State) {
    exists u :: u in s.at && WillWake(s.at[u])
  }

  ghost predicate NobodyForgotten(s: State) {
    forall t :: Asleep(s, t) ==> !Available(s.g, s.at[t].cred) || WakePending(s)
  }

  /** The decrement after a failed inner open is followed by no wake-up. */
  ghost predicate SafeDrop(s: State) {
    s.g.count != 1 || (forall u :: !Asleep(s, u)) || WakePending(s)
  }

  ghost predicate DropIsSafe(s: State, t: Attempt) {
    t in s.at && s.at[t].pc == OFailDrop ==> SafeDrop(s)
  }

  lemma WakeEffect(g: Gate, t: Attempt, o: Opener, signal: bool, g': Gate, next: Option<PC>, c: Cred)
    requires GateStep(g, t, o, signal, g', next)
    ensures next == Some(OSleep) ==> !Available(g', o.cred)
    ensures !Available(g, c) && Available(g', c) ==>
              (g.count == 1 && (o.pc.OFailDrop? || next == Some(RUnlock(true)))) || o.pc.OTake?
    ensures WillWake(o) ==> g'.queue == {} || (next.Some? && WillWake(o.(pc := next.value)))
    ensures forall u :: u != t && u in g'.queue ==> u in g.queue
  {
  }

  lemma PendingStays(s: State, t: Attempt, signal: bool, e: Event, s': State)
    requires Step(s, t, signal, e, s') && WakePending(s)
    ensures s'.g.queue == {} || WakePending(s')
  {
    var w :| w in s.at && WillWake(s.at[w]);
    if w != t || e.Enter? {
      assert w in s'.at && s'.at[w] == s.at[w];
    } else {
      WakeEffect(s.g, t, s.at[t], signal, s'.g, e.next, s.at[t].cred);
      assert s'.g.queue != {} ==> w in s'.at && WillWake(s'.at[w]);
    }
  }

  lemma WakeStep(s: State, t: Attempt, signal: bool, e: Event, s': State)
    requires Inv(s) && NobodyForgotten(s) && Step(s, t, signal, e, s') && DropIsSafe(s, t)
    ensures NobodyForgotten(s')
  {
    forall u | Asleep(s', u) && Available(s'.g, s'.at[u].cred) ensures WakePending(s') {
      if WakePending(s) {
        PendingStays(s, t, signal, e, s');
      } else if e.GoTo? {
        WakeEffect(s.g, t, s.at[t], signal, s'.g, e.next, s'.at[u].cred);
        assert u != t && Asleep(s, u) && !Available(s.g, s.at[u].cred);
        TakerChangesNothing(s, t, signal, e, s', u);
        assert t in s'.at && WillWake(s'.at[t]);
      }
    }
  }

  /** Admitting one more does not open the gate for anybody else. */
  lemma TakerChangesNothing(s: State, t: Attempt, signal: bool, e: Event, s': State, u: Attempt)
    requires Inv(s) && Step(s, t, signal, e, s') && e.GoTo? && u in s.at && !Available(s.g, s.at[u].cred)
    ensures s.at[t].pc.OTake? ==> !Available(s'.g, s.at[u].cred)
  {
    assert s.g.count == |Inside(s.at)|;
  }

  /** Exactly when the drop is not safe does it leave a waiting opener behind. */
  lemma DropForgets(s: State, t: Attempt, signal: bool, e: Event, s': State)
    requires Inv(s) && NobodyForgotten(s) && Step(s, t, signal, e, s')
    requires t in s.at && s.at[t].pc == OFailDrop
    ensures NobodyForgotten(s') <==> SafeDrop(s)
  {
    forall u ensures Asleep(s', u) <==> Asleep(s, u) {
    }
    if SafeDrop(s) {
      WakeStep(s, t, signal, e, s');
    }
  }

  // ---- runs ----

  datatype Act = Act(t: Attempt, signal: bool, e: Event)

  ghost predicate Run(ss: seq<State>, acts: seq<Act>) {
    && |ss| == |acts| + 1
    && Init(ss[0])
    && forall i :: 0 <= i < |acts| ==> Step(ss[i], acts[i].t, acts[i].signal, acts[i].e, ss[i + 1])
  }

  ghost predicate SafeDrops(ss: seq<State>, acts: seq<Act>) {
    forall i :: 0 <= i < |acts| && i < |ss| ==> DropIsSafe(ss[i], acts[i].t)
  }

  lemma {:induction false} RunInv(ss: seq<State>, acts: seq<Act>, i: nat)
    requires Run(ss, acts) && i < |ss|
    ensures Inv(ss[i])
    ensures SafeDrops(ss, acts) ==> NobodyForgotten(ss[i])
  {
    if i == 0 {
      assert Inside(ss[0].at) == {};
    } else {
      RunInv(ss, acts, i - 1);
      var a := acts[i - 1];
      assert Step(ss[i - 1], a.t, a.signal, a.e, ss[i]);
      InvStep(ss[i - 1], a.t, a.signal, a.e, ss[i]);
      if SafeDrops(ss, acts) {
        assert DropIsSafe(ss[i - 1], a.t);
        WakeStep(ss[i - 1], a.t, a.signal, a.e, ss[i]);
      }
    }
  }

  /** The count is the number of admitted opens, so it never goes below zero; and while
      anybody is inside, everybody inside is the owner, has its effective uid, or may
      override. */
  lemma OneOwner(ss: seq<State>, acts: seq<Act>, i: nat)
    requires Run(ss, acts) && i < |ss|
    ensures ss[i].g.count == |Inside(ss[i].at)|
    ensures forall t :: t in Inside(ss[i].at) ==> Matches(ss[i].g.owner, ss[i].at[t].cred)
  {
    RunInv(ss, acts, i);
  }

  /** The owner changes only when nobody is inside, and then to the real uid of the one who
      comes in. Whoever comes in found the device free, was its owner by real or effective
      uid, or may override; and each of these is enough to be let in. */
  lemma OwnerIsStable(ss: seq<State>, acts: seq<Act>, i: nat)
    requires Run(ss, acts) && i < |acts|
    ensures ss[i].g.count > 0 ==> ss[i + 1].g.owner == ss[i].g.owner
    ensures forall t :: t in Inside(ss[i + 1].at) && t !in Inside(ss[i].at) ==>
              && t in ss[i].at
              && (ss[i].g.count == 0 ==> ss[i + 1].g.owner == ss[i].at[t].cred.uid)
              && var c := ss[i].at[t].cred;
              (ss[i].g.count == 0 || ss[i].g.owner == c.uid || ss[i].g.owner == c.euid || c.override)
    ensures var t := acts[i].t;
            t in ss[i].at && ss[i].at[t].pc == OTest ==>
              t in ss[i + 1].at
              && var c := ss[i].at[t].cred;
              ss[i + 1].at[t].pc ==
              if ss[i].g.count == 0 || ss[i].g.owner == c.uid || ss[i].g.owner == c.euid || c.override then OTake else ORefuse
  {
    RunInv(ss, acts, i);
    var a := acts[i];
    assert Step(ss[i], a.t, a.signal, a.e, ss[i + 1]);
    if a.e.GoTo? {
      CountEffect(ss[i].g, a.t, ss[i].at[a.t], a.signal, ss[i + 1].g, a.e.next);
    }
  }

  /** No lost wake-up: a sleeping opener is neither the owner, by real or effective uid, nor
      may it override, and somebody who is or may has the device; or a release is on its way
      to wake it; as long as no failing inner open closes the device silently. */
  lemma NoLostWakeup(ss: seq<State>, acts: seq<Act>, i: nat, t: Attempt)
    requires Run(ss, acts) && SafeDrops(ss, acts) && i < |ss| && Asleep(ss[i], t)
    ensures WakePending(ss[i])
            || var s, owner, c := ss[i], ss[i].g.owner, ss[i].at[t].cred;
            && s.g.count > 0 && owner != c.uid && owner != c.euid && !c.override
            && exists u :: u in Inside(s.at) && (owner == s.at[u].cred.uid || owner == s.at[u].cred.euid || s.at[u].cred.override)
  {
    RunInv(ss, acts, i);
    if !Available(ss[i].g, ss[i].at[t].cred) {
      assert Inside(ss[i].at) != {};
      var u :| u in Inside(ss[i].at);
      assert Matches(ss[i].g.owner, ss[i].at[u].cred);
    }
  }

  /** scull_uid: where every opener is non-blocking, nobody ever waits. */
  lemma {:induction false} NonBlockingNeverSleeps(ss: seq<State>, acts: seq<Act>, i: nat, t: Attempt)
    requires Run(ss, acts) && i < |ss|
    requires forall k :: 0 <= k < |acts| && acts[k].e.Enter? ==> acts[k].e.o.nonblock
    ensures ss[i].g.queue == {}
    ensures t in ss[i].at ==> ss[i].at[t].nonblock && ss[i].at[t].pc !in {OPeek, OPrepare, ORetest(false), ORetest(true), OSleep, OFinish}
  {
    if i > 0 {
      var a := acts[i - 1];
      assert Step(ss[i - 1], a.t, a.signal, a.e, ss[i]);
      NonBlockingNeverSleeps(ss, acts, i - 1, t);
      NonBlockingNeverSleeps(ss, acts, i - 1, a.t);
    }
  }

  // ---- nobody is stuck for good ----

  /** An attempt that can move on by itself; closing an open file is its user's choice. */
  ghost predicate CanRun(s: State, t: Attempt) {
    t in s.at && s.at[t].pc != Held && exists next, s' :: Step(s, t, false, GoTo(next), s')
  }

  lemma Unblocked(s: State, t: Attempt)
    requires t in s.at && s.at[t].pc != Held && !Asleep(s, t)
    requires s.at[t].pc in {OLock, OFailLock, RLock} ==> s.g.lock == None
    ensures CanRun(s, t)
  {
    var g, o := s.g, s.at[t];
    var g', next;
    match o.pc {
      case OLock => g', next := g.(lock := Some(t)), Some(OTest);
      case OTest => g', next := g, Some(if Available(g, o.cred) then OTake else ORefuse);
      case ORefuse => g', next := Unlock(g), if o.nonblock then None else Some(OPeek);
      case OPeek => g', next := g, Some(if Available(g, o.cred) then OLock else OPrepare);
      case OPrepare => g', next := g.(queue := g.queue + {t}), Some(ORetest(false));
      case ORetest(signalled) =>
        g', next := g, if Available(g, o.cred) then Some(OFinish) else if signalled then None else Some(OSleep);
      case OSleep => g', next := g, Some(OPrepare);
      case OFinish => g', next := g.(queue := g.queue - {t}), Some(OLock);
      case OTake => g', next := g.(owner := if g.count == 0 then o.cred.uid else g.owner, count := g.count + 1), Some(OUnlock);
      case OUnlock => g', next := Unlock(g), Some(OInner);
      case OInner => g', next := g, Some(Held);
      case OFailLock => g', next := g.(lock := Some(t)), Some(OFailDrop);
      case OFailDrop => g', next := g.(count := g.count - 1), Some(OFailUnlock);
      case OFailUnlock => g', next := Unlock(g), None;
      case RLock => g', next := g.(lock := Some(t)), Some(RDrop);
      case RDrop => g', next := g.(count := g.count - 1), Some(RUnlock(g.count - 1 == 0));
      case RUnlock(last) => g', next := Unlock(g), if last then Some(RWake) else None;
      case RWake => g', next := g.(queue := {}), None;
    }
    var s' := State(g', Move(s.at, t, next));
    assert Step(s, t, false, GoTo(next), s');
  }

  /** When nobody can move on, whoever is left has the device open, or sleeps because a
      holder of another user has it open. */
  lemma NeverStuck(ss: seq<State>, acts: seq<Act>, i: nat, t: Attempt)
    requires Run(ss, acts) && SafeDrops(ss, acts) && i < |ss|
    requires t in ss[i].at && forall u :: u in ss[i].at ==> !CanRun(ss[i], u)
    ensures ss[i].at[t].pc == Held
            || var s, owner, c := ss[i], ss[i].g.owner, ss[i].at[t].cred;
            && Asleep(s, t) && s.g.count > 0 && owner != c.uid && owner != c.euid && !c.override
            && exists u :: u in s.at && s.at[u].pc == Held
                           && (owner == s.at[u].cred.uid || owner == s.at[u].cred.euid || s.at[u].cred.override)
  {
    RunInv(ss, acts, i);
    var s := ss[i];
    if s.g.lock.Some? {
      Unblocked(s, s.g.lock.value);
    }
    forall u | u in s.at ensures s.at[u].pc == Held || Asleep(s, u) {
      if s.at[u].pc != Held && !Asleep(s, u) {
        Unblocked(s, u);
      }
    }
    if s.at[t].pc != Held {
      assert !WakePending(s);
      NoLostWakeup(ss, acts, i, t);
    }
  }

  // ---- a run in which a failing inner open leaves a waiter behind ----

  ghost predicate Reached(ss: seq<State>, acts: seq<Act>, s: State) {
    Run(ss, acts) && ss[|acts|] == s
  }

  lemma Come(ss: seq<State>, acts: seq<Act>, s: State, t: Attempt, o: Opener)
    returns (ss': seq<State>, acts': seq<Act>, s': State)
    requires Reached(ss, acts, s) && t !in s.at && o.pc.OLock?
    ensures s' == s.(at := s.at[t := o]) && Reached(ss', acts', s')
  {
    s' := s.(at := s.at[t := o]);
    ss', acts' := ss + [s'], acts + [Act(t, false, Enter(o))];
  }

  lemma Go(ss: seq<State>, acts: seq<Act>, s: State, t: Attempt, next: PC, g': Gate)
    returns (ss': seq<State>, acts': seq<Act>, s': State)
    requires Reached(ss, acts, s) && t in s.at && GateStep(s.g, t, s.at[t], false, g', Some(next))
    ensures s' == State(g', s.at[t := s.at[t].(pc := next)]) && Reached(ss', acts', s')
  {
    s' := State(g', s.at[t := s.at[t].(pc := next)]);
    ss', acts' := ss + [s'], acts + [Act(t, false, GoTo(Some(next)))];
  }

  const ALICE := Opener(OLock, Cred(1, 1, false), false)
  const BOB := Opener(OLock, Cred(2, 2, false), false)

  /** Attempt 0 is admitted and stands before its inner open. */
  lemma FirstComesIn() returns (ss: seq<State>, acts: seq<Act>, s: State)
    ensures Reached(ss, acts, s) && s == State(Gate(None, 1, 1, {}), map[0 := ALICE.(pc := OInner)])
  {
    var g := Gate(None, 0, 0, {});
    s := State(g, map[]);
    ss, acts := [s], [];
    ss, acts, s := Come(ss, acts, s, 0, ALICE);
    ss, acts, s := Go(ss, acts, s, 0, OTest, g.(lock := Some(0)));
    ss, acts, s := Go(ss, acts, s, 0, OTake, s.g);
    ss, acts, s := Go(ss, acts, s, 0, OUnlock, s.g.(owner := 1, count := 1));
    ss, acts, s := Go(ss, acts, s, 0, OInner, Unlock(s.g));
  }

  /** Attempt 1, of another user, goes to sleep. */
  lemma SecondFallsAsleep() returns (ss: seq<State>, acts: seq<Act>, s: State)
    ensures Reached(ss, acts, s)
    ensures s == State(Gate(None, 1, 1, {1}), map[0 := ALICE.(pc := OInner), 1 := BOB.(pc := OSleep)])
  {
    ss, acts, s := FirstComesIn();
    ss, acts, s := Come(ss, acts, s, 1, BOB);
    ss, acts, s := Go(ss, acts, s, 1, OTest, s.g.(lock := Some(1)));
    ss, acts, s := Go(ss, acts, s, 1, ORefuse, s.g);
    ss, acts, s := Go(ss, acts, s, 1, OPeek, Unlock(s.g));
    ss, acts, s := Go(ss, acts, s, 1, OPrepare, s.g);
    ss, acts, s := Go(ss, acts, s, 1, ORetest(false), s.g.(queue := {1}));
    ss, acts, s := Go(ss, acts, s, 1, OSleep, s.g);
  }

  /** Then the inner open of attempt 0 fails, and nobody wakes attempt 1 although the
      device is free. */
  lemma FailedOpenForgets() returns (ss: seq<State>, acts: seq<Act>, s: State)
    ensures Reached(ss, acts, s) && s.g.count == 0
    ensures Asleep(s, 1) && Available(s.g, s.at[1].cred) && !WakePending(s)
  {
    ss, acts, s := SecondFallsAsleep();
    ss, acts, s := Go(ss, acts, s, 0, OFailLock, s.g);
    ss, acts, s := Go(ss, acts, s, 0, OFailDrop, s.g.(lock := Some(0)));
    ss, acts, s := Go(ss, acts, s, 0, OFailUnlock, s.g.(count := 0));
  }
}
