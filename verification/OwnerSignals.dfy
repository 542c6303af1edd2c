/** How attempts to open scull_wuid end: what a signal does to an opener that waits, and for
    which reasons an attempt is over at all. */
module OwnerSignals {
  import opened Kernel
  import opened OwnerGate

  /** The opener is asleep or on its way into or out of the wait queue. */
  ghost predicate Waits(s: State, t: Attempt) {
    t in s.at && s.at[t].pc in {OPrepare, ORetest(false), ORetest(true), OSleep}
  }

  /** The device is free, or the opener is its owner by real or effective uid, or may override. */
  ghost predicate Open(s: State, t: Attempt)
    requires t in s.at
  {
    var c := s.at[t].cred;
    s.g.count == 0 || s.g.owner == c.uid || s.g.owner == c.euid || c.override
  }

  /** The steps it takes at most, with a signal, to the end of its wait. */
  ghost function Left(pc: PC): nat {
    if pc == ORetest(false) then 4
    else if pc == OSleep then 3
    else if pc == OPrepare then 2
    else if pc == ORetest(true) then 1
    else 0
  }

  ghost function OwnSteps(acts: seq<Act>, i: nat, j: nat, t: Attempt): nat
    requires i <= j <= |acts|
    decreases j
  {
    if j == i then 0 else OwnSteps(acts, i, j - 1, t) + if acts[j - 1].t == t then 1 else 0
  }

  /** Attempt t gets a signal and keeps it. */
  ghost predicate Signalled(acts: seq<Act>, i: nat, j: nat, t: Attempt)
    requires i <= j <= |acts|
  {
    forall k :: i <= k < j && acts[k].t == t ==> acts[k].signal
  }

  /** With a signal, a waiting opener goes for the lock exactly if its test finds the device
      open to it, otherwise it comes nearer to its return; it touches nothing but its place
      in the queue. */
  lemma SignalledStep(s: State, t: Attempt, e: Event, s': State)
    requires Waits(s, t) && Step(s, t, true, e, s')
    ensures s'.g == s.g.(queue := s'.g.queue)
    ensures t !in s'.at <==> s.at[t].pc == ORetest(true) && !Open(s, t)
    ensures t in s'.at && !Waits(s', t) <==> s.at[t].pc.ORetest? && Open(s, t)
    ensures t in s'.at && !Waits(s', t) ==> s'.at[t].pc == OFinish
    ensures Waits(s', t) ==> Left(s'.at[t].pc) < Left(s.at[t].pc)
  {
  }

  lemma {:induction false} StillWaiting(ss: seq<State>, acts: seq<Act>, i: nat, j: nat, t: Attempt)
    requires Run(ss, acts) && i <= j < |ss| && Signalled(acts, i, j, t)
    requires forall k :: i <= k <= j ==> Waits(ss[k], t)
    ensures Waits(ss[i], t) && Waits(ss[j], t)
    ensures Left(ss[j].at[t].pc) + OwnSteps(acts, i, j, t) <= Left(ss[i].at[t].pc)
    decreases j
  {
    if i < j {
      StillWaiting(ss, acts, i, j - 1, t);
      var a := acts[j - 1];
      assert Step(ss[j - 1], a.t, a.signal, a.e, ss[j]) && (a.t == t ==> a.signal);
      assert Waits(ss[j - 1], t) && Waits(ss[j], t);
      hide Run, Signalled, Waits, Left;
      if a.t == t {
        SignalledStep(ss[j - 1], t, a.e, ss[j]);
      } else {
        BystanderStays(ss[j - 1], a.t, a.signal, a.e, ss[j], t);
      }
    } else {
      assert Waits(ss[i], t);
    }
  }

  lemma BystanderStays(s: State, u: Attempt, signal: bool, e: Event, s': State, t: Attempt)
    requires Step(s, u, signal, e, s') && t in s.at && u != t
    ensures t in s'.at && s'.at[t] == s.at[t]
  {
  }

  /** A signalled opener leaves its wait within four steps of its own: it returns while it is
      shut out, or it has seen the device open to it and goes for the lock. */
  lemma SignalledOpenerLeaves(ss: seq<State>, acts: seq<Act>, i: nat, j: nat, t: Attempt)
    requires Run(ss, acts) && i <= j < |ss| && Waits(ss[i], t) && Signalled(acts, i, j, t)
    ensures OwnSteps(acts, i, j, t) >= 4 ==> exists k :: i < k <= j && !Waits(ss[k], t)
    ensures forall k :: i <= k < j && acts[k].t == t && Waits(ss[k], t) ==>
              && ss[k + 1].g == ss[k].g.(queue := ss[k + 1].g.queue)
              && (Waits(ss[k + 1], t)
                  || (t !in ss[k + 1].at && !Open(ss[k], t))
                  || (t in ss[k + 1].at && ss[k + 1].at[t].pc == OFinish && Open(ss[k], t)))
  {
    if forall k :: i <= k <= j ==> Waits(ss[k], t) {
      StillWaiting(ss, acts, i, j, t);
    } else {
      var k :| i <= k <= j && !Waits(ss[k], t);
      assert k != i;
    }
    forall k | i <= k < j && acts[k].t == t && Waits(ss[k], t)
      ensures ss[k + 1].g == ss[k].g.(queue := ss[k + 1].g.queue)
      ensures Waits(ss[k + 1], t)
              || (t !in ss[k + 1].at && !Open(ss[k], t))
              || (t in ss[k + 1].at && ss[k + 1].at[t].pc == OFinish && Open(ss[k], t))
    {
      assert Step(ss[k], acts[k].t, acts[k].signal, acts[k].e, ss[k + 1]);
      SignalledStep(ss[k], t, acts[k].e, ss[k + 1]);
    }
  }

  /** An attempt is over for one of five reasons: it must not block and is shut out, it got a
      signal in its wait while shut out, its inner open failed, or its file was released,
      as the last one or not. */
  lemma WhyAttemptsEnd(ss: seq<State>, acts: seq<Act>, i: nat, t: Attempt)
    requires Run(ss, acts) && i < |acts| && acts[i].t == t && t in ss[i].at && t !in ss[i + 1].at
    ensures var o := ss[i].at[t];
            || (o.pc == ORefuse && o.nonblock && ss[i].g.lock == Some(t) && !Open(ss[i], t))
            || (o.pc == ORetest(true) && !Open(ss[i], t))
            || (o.pc == OFailUnlock && ss[i].g.lock == Some(t))
            || (o.pc == RUnlock(false) && ss[i].g.lock == Some(t))
            || o.pc == RWake
    ensures ss[i + 1].g.count == ss[i].g.count && ss[i + 1].g.owner == ss[i].g.owner
  {
    RunInv(ss, acts, i);
    assert Step(ss[i], acts[i].t, acts[i].signal, acts[i].e, ss[i + 1]);
  }
}
