/** The gate fields of scull_single.c, scull_uid.c and scull_wuid.c as one thread changes
    them. What happens between threads is the subject of SingleGate and OwnerGate; here a
    call that nobody interrupts is shown to be a run of theirs. */
module GateDevices {
  import opened Kernel
  import OwnerGate
  import SingleGate

  // ---- one holder ----

  class ScullSingle {
    var available: int

    constructor ()
      ensures available == 1
    {
      available := 1;
    }

    /** scull_single_open; `inner` is what scull_dev_open answers. */
    method Open(inner: Result<()>) returns (r: Result<()>)
      modifies this
      ensures r == if old(available) == 1 then inner else Err(EBUSY)
      ensures available == old(available) - if r.Ok? then 1 else 0
    {
      available := available - 1;
      if available != 0 {
        available := available + 1;
        return Err(EBUSY);
      }
      r := inner;
      if r.Err? {
        available := available + 1;
      }
    }

    /** scull_single_release */
    method Release()
      modifies this
      ensures available == old(available) + 1
    {
      available := available + 1;
    }
  }

  /** The steps of a call that nobody disturbs. */
  function SingleEvents(free: bool, ok: bool): seq<SingleGate.Event> {
    if !free then [SingleGate.Try, SingleGate.BackOff]
    else if ok then [SingleGate.Try, SingleGate.Opened]
    else [SingleGate.Try, SingleGate.OpenFails, SingleGate.Undo]
  }

  /** They are steps of the protocol, and leave the counter as the method does. */
  lemma UndisturbedSingle(s: SingleGate.State, t: SingleGate.Attempt, ok: bool)
    returns (es: seq<SingleGate.Event>, ss: seq<SingleGate.State>)
    requires t !in s.at
    ensures es == SingleEvents(s.available == 1, ok)
    ensures |ss| == |es| + 1 && ss[0] == s
    ensures forall i :: 0 <= i < |es| ==> SingleGate.Step(ss[i], t, es[i], ss[i + 1])
    ensures var entered := s.available == 1 && ok;
            && ss[|es|].available == s.available - (if entered then 1 else 0)
            && ss[|es|].at == if entered then s.at[t := SingleGate.Holding] else s.at
  {
    es := SingleEvents(s.available == 1, ok);
    if s.available == 1 {
      var s1 := SingleGate.State(s.available - 1, s.at[t := SingleGate.Opening]);
      if ok {
        ss := [s, s1, s1.(at := s.at[t := SingleGate.Holding])];
      } else {
        ss := [s, s1, s1.(at := s.at[t := SingleGate.GivingUp]), s];
      }
    } else {
      ss := [s, SingleGate.State(s.available - 1, s.at[t := SingleGate.BackingOff]), s];
    }
  }

  /** A release is one step; after it nobody has the device, and the next opener is let in
      unless another one is still on its way back. */
  lemma UndisturbedClose(s: SingleGate.State, t: SingleGate.Attempt) returns (s': SingleGate.State)
    requires SingleGate.Inv(s) && t in s.at && s.at[t].Holding?
    ensures SingleGate.Step(s, t, SingleGate.Close, s') && s'.available == s.available + 1
    ensures SingleGate.Inside(s'.at) == {}
    ensures SingleGate.Admits(s') <==> SingleGate.Bouncing(s.at) == {}
  {
    s' := SingleGate.State(s.available + 1, s.at - {t});
    SingleGate.InvStep(s, t, SingleGate.Close, s');
    assert t in SingleGate.Inside(s.at);
    assert forall u :: u in SingleGate.Inside(s'.at) ==> u in SingleGate.Inside(s.at) && u != t;
    assert SingleGate.Inside(s'.at) == {};
    SingleGate.Sizes(s'.at);
    assert SingleGate.Bouncing(s'.at) == SingleGate.Bouncing(s.at);
  }

  // ---- one owner ----

  /** The gate fields of struct scull_uid and struct scull_wuid. */
  class OwnedDevice {
    var count: int
    var owner: OwnerGate.Uid

    /** The fields as a gate whose lock is free and on which nobody waits. */
    ghost function G(): OwnerGate.Gate
      reads this
    {
      OwnerGate.Gate(None, count, owner, {})
    }

    constructor ()
      ensures count == 0 && owner == 0
    {
      count, owner := 0, 0;
    }

    /** One pass of open under the lock (lines 22-37 of scull_wuid.c, 16-27 of scull_uid.c). */
    method Enter(c: OwnerGate.Cred) returns (admitted: bool)
      modifies this
      ensures admitted <==> OwnerGate.Available(old(G()), c)
      ensures admitted <==> old(count) == 0 || old(owner) == c.uid || old(owner) == c.euid || c.override
      ensures !admitted ==> count == old(count) && owner == old(owner)
      ensures admitted ==> G() == Entered(old(G()), c)
      ensures admitted ==> count == old(count) + 1 && owner == if old(count) == 0 then c.uid else old(owner)
    {
      admitted := !(count != 0 && owner != c.uid && owner != c.euid && !c.override);
      if admitted {
        if count == 0 {
          owner := c.uid;
        }
        count := count + 1;
      }
    }

    /** scull_uid_open: a failing inner open takes back the count, not the owner. */
    method Open(c: OwnerGate.Cred, inner: Result<()>) returns (r: Result<()>)
      modifies this
      ensures var open := old(count) == 0 || old(owner) == c.uid || old(owner) == c.euid || c.override;
              && r == (if open then inner else Err(EBUSY))
              && count == (if r.Ok? then old(count) + 1 else old(count))
              && owner == if open && old(count) == 0 then c.uid else old(owner)
    {
      var admitted := Enter(c);
      if !admitted {
        return Err(EBUSY);
      }
      r := inner;
      if r.Err? {
        count := count - 1;
      }
    }

    /** Release; scull_wuid wakes the waiters when `last`. */
    method Release() returns (last: bool)
      modifies this
      ensures count == old(count) - 1 && owner == old(owner)
      ensures last <==> old(count) == 1
    {
      count := count - 1;
      last := count == 0;
    }
  }

  function Entered(g: OwnerGate.Gate, c: OwnerGate.Cred): OwnerGate.Gate {
    g.(count := g.count + 1, owner := if g.count == 0 then c.uid else g.owner)
  }

  /** A run of one attempt's steps. */
  ghost predicate Steps(ss: seq<OwnerGate.State>, t: OwnerGate.Attempt, es: seq<OwnerGate.Event>) {
    && |ss| == |es| + 1
    && forall i :: 0 <= i < |es| ==> OwnerGate.Step(ss[i], t, false, es[i], ss[i + 1])
  }

  /** The steps of an opener that nobody disturbs: up to the inner open, back out, or up to
      the point where it starts to wait. */
  function EnterEvents(o: OwnerGate.Opener, admitted: bool): seq<OwnerGate.Event> {
    [OwnerGate.Enter(o), OwnerGate.GoTo(Some(OwnerGate.OTest))]
    + if admitted then [OwnerGate.GoTo(Some(OwnerGate.OTake)), OwnerGate.GoTo(Some(OwnerGate.OUnlock)), OwnerGate.GoTo(Some(OwnerGate.OInner))]
      else [OwnerGate.GoTo(Some(OwnerGate.ORefuse)), OwnerGate.GoTo(if o.nonblock then None else Some(OwnerGate.OPeek))]
  }

  /** It passes the gate in the steps of the protocol, exactly when the gate is open to it,
      and leaves the fields as the method does. */
  lemma UndisturbedEnter(s: OwnerGate.State, t: OwnerGate.Attempt, o: OwnerGate.Opener)
    returns (es: seq<OwnerGate.Event>, ss: seq<OwnerGate.State>)
    requires t !in s.at && o.pc.OLock? && s.g.lock == None
    ensures var g, c := s.g, o.cred;
            var open := g.count == 0 || g.owner == c.uid || g.owner == c.euid || c.override;
            && Steps(ss, t, es) && ss[0] == s && es == EnterEvents(o, open)
            && ss[|es|] ==
               if open then
                 OwnerGate.State(g.(count := g.count + 1, owner := if g.count == 0 then c.uid else g.owner), s.at[t := o.(pc := OwnerGate.OInner)])
               else if o.nonblock then s
               else s.(at := s.at[t := o.(pc := OwnerGate.OPeek)])
  {
    var locked := s.g.(lock := Some(t));
    es, ss := [OwnerGate.Enter(o)], [s, s.(at := s.at[t := o])];
    assert Steps(ss, t, es);
    hide Steps;
    ss := Onward(ss, t, es, locked, Some(OwnerGate.OTest));
    es := es + [OwnerGate.GoTo(Some(OwnerGate.OTest))];
    if OwnerGate.Available(s.g, o.cred) {
      var entered := Entered(locked, o.cred);
      ss := Onward(ss, t, es, locked, Some(OwnerGate.OTake));
      es := es + [OwnerGate.GoTo(Some(OwnerGate.OTake))];
      ss := Onward(ss, t, es, entered, Some(OwnerGate.OUnlock));
      es := es + [OwnerGate.GoTo(Some(OwnerGate.OUnlock))];
      ss := Onward(ss, t, es, OwnerGate.Unlock(entered), Some(OwnerGate.OInner));
      es := es + [OwnerGate.GoTo(Some(OwnerGate.OInner))];
      assert ss[|es|].at == s.at[t := o.(pc := OwnerGate.OInner)];
    } else {
      var next := if o.nonblock then None else Some(OwnerGate.OPeek);
      ss := Onward(ss, t, es, locked, Some(OwnerGate.ORefuse));
      es := es + [OwnerGate.GoTo(Some(OwnerGate.ORefuse))];
      ss := Onward(ss, t, es, s.g, next);
      es := es + [OwnerGate.GoTo(next)];
      assert ss[|es|].at == if o.nonblock then s.at else s.at[t := o.(pc := OwnerGate.OPeek)];
    }
  }

  /** The steps of a release; the last one out wakes the waiters. */
  function LeaveEvents(last: bool): seq<OwnerGate.Event> {
    [OwnerGate.GoTo(Some(OwnerGate.RLock)), OwnerGate.GoTo(Some(OwnerGate.RDrop)), OwnerGate.GoTo(Some(OwnerGate.RUnlock(last)))]
    + if last then [OwnerGate.GoTo(Some(OwnerGate.RWake)), OwnerGate.GoTo(None)] else [OwnerGate.GoTo(None)]
  }

  /** Undisturbed, a release ends where the method does. It is the last one exactly when
      nobody else is inside; then nobody is left in the queue and the gate is open to all. */
  lemma UndisturbedLeave(s: OwnerGate.State, t: OwnerGate.Attempt, c: OwnerGate.Cred)
    returns (es: seq<OwnerGate.Event>, ss: seq<OwnerGate.State>)
    requires OwnerGate.Inv(s) && t in s.at && s.at[t].pc.Held? && s.g.lock == None
    ensures var last := OwnerGate.Inside(s.at) == {t};
            && es == LeaveEvents(last) && Steps(ss, t, es) && ss[0] == s
            && ss[|es|] == OwnerGate.State(s.g.(count := s.g.count - 1, queue := if last then {} else s.g.queue), s.at - {t})
            && (last ==> OwnerGate.Available(ss[|es|].g, c))
  {
    OnlyOne(OwnerGate.Inside(s.at), t);
    hide OwnerGate.Inv, OwnerGate.Inside;
    es, ss := Leave(s, t, s.g.count == 1);
  }

  /** A run goes on with one more step of the same attempt. */
  lemma Onward(ss: seq<OwnerGate.State>, t: OwnerGate.Attempt, es: seq<OwnerGate.Event>, g: OwnerGate.Gate, next: Option<OwnerGate.PC>)
    returns (ss': seq<OwnerGate.State>)
    requires Steps(ss, t, es) && t in ss[|es|].at
    requires OwnerGate.GateStep(ss[|es|].g, t, ss[|es|].at[t], false, g, next)
    ensures ss' == ss + [OwnerGate.State(g, OwnerGate.Move(ss[|es|].at, t, next))]
    ensures Steps(ss', t, es + [OwnerGate.GoTo(next)])
  {
    hide OwnerGate.GateStep;
    ss' := ss + [OwnerGate.State(g, OwnerGate.Move(ss[|es|].at, t, next))];
  }

  lemma Leave(s: OwnerGate.State, t: OwnerGate.Attempt, last: bool)
    returns (es: seq<OwnerGate.Event>, ss: seq<OwnerGate.State>)
    requires t in s.at && s.at[t].pc.Held? && s.g.lock == None && last == (s.g.count == 1)
    ensures es == LeaveEvents(last) && Steps(ss, t, es) && ss[0] == s
    ensures ss[|es|] == OwnerGate.State(s.g.(count := s.g.count - 1, queue := if last then {} else s.g.queue), s.at - {t})
  {
    hide Steps;
    es, ss := [], [s];
    NoSteps(s, t);
    var locked := s.g.(lock := Some(t));
    var dropped := locked.(count := s.g.count - 1);
    ss := Onward(ss, t, es, s.g, Some(OwnerGate.RLock));
    es := es + [OwnerGate.GoTo(Some(OwnerGate.RLock))];
    ss := Onward(ss, t, es, locked, Some(OwnerGate.RDrop));
    es := es + [OwnerGate.GoTo(Some(OwnerGate.RDrop))];
    ss := Onward(ss, t, es, dropped, Some(OwnerGate.RUnlock(last)));
    es := es + [OwnerGate.GoTo(Some(OwnerGate.RUnlock(last)))];
    var g := OwnerGate.Unlock(dropped);
    if last {
      ss := Onward(ss, t, es, g, Some(OwnerGate.RWake));
      es := es + [OwnerGate.GoTo(Some(OwnerGate.RWake))];
      g := g.(queue := {});
    }
    ss := Onward(ss, t, es, g, None);
    es := es + [OwnerGate.GoTo(None)];
    assert ss[|es|].at == s.at - {t};
  }

  lemma NoSteps(s: OwnerGate.State, t: OwnerGate.Attempt)
    ensures Steps([s], t, [])
  {
  }

  lemma OnlyOne<T>(a: set<T>, x: T)
    requires x in a
    ensures |a| == 1 <==> a == {x}
  {
    assert |a| == |a - {x}| + 1;
    if |a| == 1 {
      assert a - {x} == {};
    }
  }
}
