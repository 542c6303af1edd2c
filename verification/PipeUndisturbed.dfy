/** Reads and writes of the pipe that no other thread disturbs: runs of the interleaving that
    end where the methods of ScullPipe do. */
module PipeUndisturbed {
  import opened Kernel
  import opened PipeRing
  import opened PipeProtocol

  /** The steps es of thread t lead from one state to another. */
  ghost predicate Leads(from: State, t: Tid, es: seq<Event>, to: State) {
    exists ss: seq<State> :: Path(ss, t, es) && ss[0] == from && ss[|es|] == to
  }

  ghost predicate Path(ss: seq<State>, t: Tid, es: seq<Event>) {
    && |ss| == |es| + 1
    && forall i :: 0 <= i < |es| ==> Step(ss[i], t, false, es[i], ss[i + 1])
  }

  lemma Arrive(s: State, t: Tid, c: Call) returns (s': State)
    requires t !in s.calls && MayEnter(s, c)
    ensures Leads(s, t, [Enter(c)], s') && s'.d == s.d && t in s'.calls && s'.calls[t] == c && s'.calls - {t} == s.calls
  {
    hide MayEnter;
    s' := s.(calls := s.calls[t := c]);
    assert s'.calls - {t} == s.calls;
    assert Path([s, s'], t, [Enter(c)]);
  }

  /** One more step of the call, which goes on or returns. */
  lemma Onward(from: State, t: Tid, es: seq<Event>, s: State, e: Event, d: Device) returns (s': State)
    requires Leads(from, t, es, s) && !e.Enter? && t in s.calls && DeviceStep(s.d, t, s.calls[t], false, e, d)
    ensures Leads(from, t, es + [e], s') && s'.d == d && s'.calls - {t} == s.calls - {t}
    ensures NextPC(e).Some? ==> t in s'.calls && s'.calls[t] == s.calls[t].(pc := NextPC(e).value)
    ensures NextPC(e).None? ==> s'.calls == s.calls - {t}
  {
    hide DeviceStep;
    s' := State(d, Move(s.calls, t, NextPC(e)));
    assert s'.calls - {t} == s.calls - {t};
    var ss :| Path(ss, t, es) && ss[0] == from && ss[|es|] == s;
    Longer(ss, t, es, e, s');
  }

  lemma Longer(ss: seq<State>, t: Tid, es: seq<Event>, e: Event, s: State)
    requires Path(ss, t, es) && Step(ss[|es|], t, false, e, s)
    ensures Path(ss + [s], t, es + [e]) && (ss + [s])[0] == ss[0] && (ss + [s])[|es| + 1] == s
  {
    hide Step;
  }

  /** What one pass under the mutex comes to. */
  datatype Outcome = Moved | Faulted | Refused | Waiting

  // ---- read ----

  lemma ReadOn(from: State, t: Tid, es: seq<Event>, s: State, pc: ReadPC, next: Option<ReadPC>, d: Device) returns (s': State)
    requires Leads(from, t, es, s) && t in s.calls && s.calls[t].pc == Read(pc)
    requires ReadStep(s.d, t, s.calls[t], pc, false, d, next)
    ensures Leads(from, t, es + [ReadTo(next)], s') && s'.d == d && s'.calls - {t} == s.calls - {t}
    ensures next.Some? ==> t in s'.calls && s'.calls[t] == s.calls[t].(pc := Read(next.value))
    ensures next.None? ==> s'.calls == s.calls - {t}
  {
    hide ReadStep, Leads;
    s' := Onward(from, t, es, s, ReadTo(next), d);
  }

  function ReadOutcome(d: Device, c: Call, faults: bool): Outcome {
    if d.rp == d.wp then if c.nonblock then Refused else Waiting else if faults then Faulted else Moved
  }

  function ReadEvents(r: Outcome, got: seq<byte>): seq<Event> {
    match r
    case Moved =>
      [ReadTo(Some(RCopy)), ReadTo(Some(RAdvance(got))), ReadTo(Some(RWrap)),
       ReadTo(Some(RRelease)), ReadTo(Some(RWake)), ReadTo(None)]
    case Faulted => [ReadTo(Some(RCopy)), ReadTo(Some(RAbort)), ReadTo(None)]
    case Refused => [ReadTo(Some(RUnlock)), ReadTo(None)]
    case Waiting => [ReadTo(Some(RUnlock)), ReadTo(Some(RPeek))]
  }

  function Got(d: Device, c: Call): seq<byte>
    requires InRange(d)
  {
    d.buf[d.rp..d.rp + ReadCount(d.rp, d.wp, d.cap, c.want)]
  }

  /** The device after that pass: the pointer, the bytes delivered, and the writers awake. */
  function AfterRead(d: Device, c: Call, r: Outcome): Device
    requires InRange(d)
  {
    if r.Moved? then d.(rp := Wrap(d.rp + |Got(d, c)|, d.cap), delivered := d.delivered + Got(d, c), outq := {}) else d
  }

  /** An undisturbed read takes the steps of the protocol; it moves the pointer over as
      many bytes as ScullPipe.Read does, fails or waits in the same cases, and leaves the
      mutex free. */
  lemma UndisturbedRead(s: State, t: Tid, c: Call, faults: bool) returns (s': State)
    requires t !in s.calls && MayEnter(s, c) && c.pc.Read? && s.d.lock == None && InRange(s.d)
    ensures var r := ReadOutcome(s.d, c, faults);
            && Leads(s, t, [Enter(c), ReadTo(Some(RTest))] + ReadEvents(r, Got(s.d, c)), s')
            && s'.d == AfterRead(s.d, c, r) && s'.calls - {t} == s.calls && (t in s'.calls <==> r.Waiting?)
            && (r.Waiting? ==> s'.calls[t] == c.(pc := Read(RPeek)))
  {
    s' := Arrive(s, t, c);
    hide MayEnter, Leads;
    s' := ReadOn(s, t, [Enter(c)], s', RLock, Some(RTest), s.d.(lock := Some(t)));
    assert [Enter(c)] + [ReadTo(Some(RTest))] == [Enter(c), ReadTo(Some(RTest))];
    hide ReadStep;
    match ReadOutcome(s.d, c, faults) {
      case Moved => s' := ReadMoves(s, t, [Enter(c), ReadTo(Some(RTest))], s', c);
      case Faulted => s' := ReadFaults(s, t, [Enter(c), ReadTo(Some(RTest))], s', c);
      case _ => s' := ReadWaits(s, t, [Enter(c), ReadTo(Some(RTest))], s', c);
    }
  }

  lemma ReadWaits(from: State, t: Tid, es: seq<Event>, s: State, c: Call) returns (s': State)
    requires Leads(from, t, es, s) && t in s.calls && s.calls[t] == c.(pc := Read(RTest)) && InRange(s.d) && s.d.rp == s.d.wp
    ensures var r := if c.nonblock then Refused else Waiting;
            && Leads(from, t, es + ReadEvents(r, Got(s.d, c)), s') && s'.d == Unlock(s.d)
            && s'.calls - {t} == s.calls - {t} && (t in s'.calls <==> !c.nonblock)
            && (!c.nonblock ==> s'.calls[t] == c.(pc := Read(RPeek)))
  {
    hide Leads;
    var next := if c.nonblock then None else Some(RPeek);
    s' := ReadOn(from, t, es, s, RTest, Some(RUnlock), s.d);
    s' := ReadOn(from, t, es + [ReadTo(Some(RUnlock))], s', RUnlock, next, Unlock(s.d));
    assert es + [ReadTo(Some(RUnlock))] + [ReadTo(next)] == es + [ReadTo(Some(RUnlock)), ReadTo(next)];
  }

  lemma ReadFaults(from: State, t: Tid, es: seq<Event>, s: State, c: Call) returns (s': State)
    requires Leads(from, t, es, s) && t in s.calls && s.calls[t] == c.(pc := Read(RTest)) && InRange(s.d) && s.d.rp != s.d.wp
    ensures Leads(from, t, es + ReadEvents(Faulted, Got(s.d, c)), s') && s' == State(Unlock(s.d), s.calls - {t})
  {
    hide Leads;
    var a, b, z := ReadTo(Some(RCopy)), ReadTo(Some(RAbort)), ReadTo(None);
    s' := ReadOn(from, t, es, s, RTest, Some(RCopy), s.d);
    s' := ReadOn(from, t, es + [a], s', RCopy, Some(RAbort), s.d);
    s' := ReadOn(from, t, es + [a] + [b], s', RAbort, None, Unlock(s.d));
    assert es + [a] + [b] + [z] == es + [a, b, z];
  }

  lemma ReadMoves(from: State, t: Tid, es: seq<Event>, s: State, c: Call) returns (s': State)
    requires Leads(from, t, es, s) && t in s.calls && s.calls[t] == c.(pc := Read(RTest)) && InRange(s.d) && s.d.rp != s.d.wp
    ensures Leads(from, t, es + ReadEvents(Moved, Got(s.d, c)), s')
    ensures s' == State(AfterRead(Unlock(s.d), c, Moved), s.calls - {t})
  {
    hide Leads;
    var got := Got(s.d, c);
    var moved := s.d.(rp := s.d.rp + |got|, delivered := s.d.delivered + got);
    var a, b, e := ReadTo(Some(RCopy)), ReadTo(Some(RAdvance(got))), ReadTo(Some(RWrap));
    s' := ReadOn(from, t, es, s, RTest, Some(RCopy), s.d);
    s' := ReadOn(from, t, es + [a], s', RCopy, Some(RAdvance(got)), s.d);
    s' := ReadOn(from, t, es + [a] + [b], s', RAdvance(got), Some(RWrap), moved);
    assert es + [a] + [b] + [e] == es + [a, b, e];
    hide ReadStep;
    s' := ReadEnds(from, t, es + [a, b, e], s');
    assert es + [a, b, e] + [ReadTo(Some(RRelease)), ReadTo(Some(RWake)), ReadTo(None)] == es + ReadEvents(Moved, got);
  }

  lemma ReadEnds(from: State, t: Tid, es: seq<Event>, s: State) returns (s': State)
    requires Leads(from, t, es, s) && t in s.calls && s.calls[t].pc == Read(RWrap)
    ensures Leads(from, t, es + [ReadTo(Some(RRelease)), ReadTo(Some(RWake)), ReadTo(None)], s')
    ensures s' == State(Unlock(s.d).(rp := Wrap(s.d.rp, s.d.cap), outq := {}), s.calls - {t})
  {
    hide Leads;
    var a, b, z := ReadTo(Some(RRelease)), ReadTo(Some(RWake)), ReadTo(None);
    var d := s.d.(rp := Wrap(s.d.rp, s.d.cap));
    s' := ReadOn(from, t, es, s, RWrap, Some(RRelease), d);
    s' := ReadOn(from, t, es + [a], s', RRelease, Some(RWake), Unlock(d));
    s' := ReadOn(from, t, es + [a] + [b], s', RWake, None, Unlock(d).(outq := {}));
    assert es + [a] + [b] + [z] == es + [a, b, z];
  }

  // ---- write ----

  lemma WriteOn(from: State, t: Tid, es: seq<Event>, s: State, pc: WritePC, next: Option<WritePC>, d: Device) returns (s': State)
    requires Leads(from, t, es, s) && t in s.calls && s.calls[t].pc == Write(pc)
    requires WriteStep(s.d, t, s.calls[t], pc, false, d, next)
    ensures Leads(from, t, es + [WriteTo(next)], s') && s'.d == d && s'.calls - {t} == s.calls - {t}
    ensures next.Some? ==> t in s'.calls && s'.calls[t] == s.calls[t].(pc := Write(next.value))
    ensures next.None? ==> s'.calls == s.calls - {t}
  {
    hide WriteStep, Leads;
    s' := Onward(from, t, es, s, WriteTo(next), d);
  }

  function WriteOutcome(d: Device, c: Call, faults: bool): Outcome
    requires InRange(d)
  {
    if SpaceFree(d.rp, d.wp, d.cap) == 0 then if c.nonblock then Refused else Waiting else if faults then Faulted else Moved
  }

  function WriteEvents(r: Outcome, n: nat): seq<Event> {
    match r
    case Moved =>
      [WriteTo(Some(WCopy)), WriteTo(Some(WAdvance(n))), WriteTo(Some(WWrap)),
       WriteTo(Some(WRelease)), WriteTo(Some(WWake)), WriteTo(None)]
    case Faulted => [WriteTo(Some(WCopy)), WriteTo(Some(WAbort)), WriteTo(None)]
    case Refused => [WriteTo(Some(WUnlock)), WriteTo(None)]
    case Waiting => [WriteTo(Some(WUnlock)), WriteTo(Some(WPrepare))]
  }

  /** How many bytes a write on a ring with room takes. */
  function Taken(d: Device, c: Call): (n: nat)
    requires InRange(d)
    ensures n <= |c.data| && d.wp + n <= d.cap
  {
    if SpaceFree(d.rp, d.wp, d.cap) == 0 then 0
    else
      WriteFits(d.buf, d.rp, d.wp, |c.data|);
      WriteCount(d.rp, d.wp, d.cap, |c.data|)
  }

  /** The device after that pass: the bytes, the pointer, and the readers awake. */
  function AfterWrite(d: Device, c: Call, r: Outcome): Device
    requires InRange(d)
  {
    var n := Taken(d, c);
    if r.Moved? then d.(buf := Splice(d.buf, d.wp, c.data[..n]), wp := Wrap(d.wp + n, d.cap), accepted := d.accepted + c.data[..n], inq := {})
    else d
  }

  /** The same for a write: it stores and accepts what ScullPipe.Write does. A fault can
      change free bytes of the buffer only; this run is one in which it changes none. */
  lemma UndisturbedWrite(s: State, t: Tid, c: Call, faults: bool) returns (s': State)
    requires t !in s.calls && MayEnter(s, c) && c.pc.Write? && s.d.lock == None && InRange(s.d)
    ensures var r := WriteOutcome(s.d, c, faults);
            && Leads(s, t, [Enter(c), WriteTo(Some(WTest))] + WriteEvents(r, Taken(s.d, c)), s')
            && s'.d == AfterWrite(s.d, c, r) && s'.calls - {t} == s.calls && (t in s'.calls <==> r.Waiting?)
            && (r.Waiting? ==> s'.calls[t] == c.(pc := Write(WPrepare)))
  {
    s' := Arrive(s, t, c);
    hide MayEnter, Leads;
    s' := WriteOn(s, t, [Enter(c)], s', WLock, Some(WTest), s.d.(lock := Some(t)));
    assert [Enter(c)] + [WriteTo(Some(WTest))] == [Enter(c), WriteTo(Some(WTest))];
    hide WriteStep;
    match WriteOutcome(s.d, c, faults) {
      case Moved => s' := WriteMoves(s, t, [Enter(c), WriteTo(Some(WTest))], s', c);
      case Faulted => s' := WriteFaults(s, t, [Enter(c), WriteTo(Some(WTest))], s', c);
      case _ => s' := WriteWaits(s, t, [Enter(c), WriteTo(Some(WTest))], s', c);
    }
  }

  lemma WriteWaits(from: State, t: Tid, es: seq<Event>, s: State, c: Call) returns (s': State)
    requires Leads(from, t, es, s) && t in s.calls && s.calls[t] == c.(pc := Write(WTest)) && InRange(s.d)
    requires SpaceFree(s.d.rp, s.d.wp, s.d.cap) == 0
    ensures var r := if c.nonblock then Refused else Waiting;
            && Leads(from, t, es + WriteEvents(r, Taken(s.d, c)), s') && s'.d == Unlock(s.d)
            && s'.calls - {t} == s.calls - {t} && (t in s'.calls <==> !c.nonblock)
            && (!c.nonblock ==> s'.calls[t] == c.(pc := Write(WPrepare)))
  {
    hide Leads, SpaceFree;
    var next := if c.nonblock then None else Some(WPrepare);
    s' := WriteOn(from, t, es, s, WTest, Some(WUnlock), s.d);
    s' := WriteOn(from, t, es + [WriteTo(Some(WUnlock))], s', WUnlock, next, Unlock(s.d));
    assert es + [WriteTo(Some(WUnlock))] + [WriteTo(next)] == es + [WriteTo(Some(WUnlock)), WriteTo(next)];
  }

  lemma WriteFaults(from: State, t: Tid, es: seq<Event>, s: State, c: Call) returns (s': State)
    requires Leads(from, t, es, s) && t in s.calls && s.calls[t] == c.(pc := Write(WTest)) && InRange(s.d)
    requires SpaceFree(s.d.rp, s.d.wp, s.d.cap) != 0
    ensures Leads(from, t, es + WriteEvents(Faulted, Taken(s.d, c)), s') && s' == State(Unlock(s.d), s.calls - {t})
  {
    hide Leads, SpaceFree, WriteCount;
    var a, b, z := WriteTo(Some(WCopy)), WriteTo(Some(WAbort)), WriteTo(None);
    var n := Taken(s.d, c);
    assert s.d.buf == Splice(s.d.buf, s.d.wp, s.d.buf[s.d.wp..s.d.wp + n]);
    assert s.d == s.d.(buf := s.d.buf);
    s' := WriteOn(from, t, es, s, WTest, Some(WCopy), s.d);
    s' := WriteOn(from, t, es + [a], s', WCopy, Some(WAbort), s.d);
    s' := WriteOn(from, t, es + [a] + [b], s', WAbort, None, Unlock(s.d));
    assert es + [a] + [b] + [z] == es + [a, b, z];
  }

  lemma WriteMoves(from: State, t: Tid, es: seq<Event>, s: State, c: Call) returns (s': State)
    requires Leads(from, t, es, s) && t in s.calls && s.calls[t] == c.(pc := Write(WTest)) && InRange(s.d)
    requires SpaceFree(s.d.rp, s.d.wp, s.d.cap) != 0
    ensures Leads(from, t, es + WriteEvents(Moved, Taken(s.d, c)), s')
    ensures s' == State(AfterWrite(Unlock(s.d), c, Moved), s.calls - {t})
  {
    hide Leads, SpaceFree, WriteCount;
    var n := Taken(s.d, c);
    var stored := s.d.(buf := Splice(s.d.buf, s.d.wp, c.data[..n]));
    var moved := stored.(wp := s.d.wp + n, accepted := s.d.accepted + c.data[..n]);
    hide Splice;
    var a, b, e := WriteTo(Some(WCopy)), WriteTo(Some(WAdvance(n))), WriteTo(Some(WWrap));
    s' := WriteOn(from, t, es, s, WTest, Some(WCopy), s.d);
    s' := WriteOn(from, t, es + [a], s', WCopy, Some(WAdvance(n)), stored);
    s' := WriteOn(from, t, es + [a] + [b], s', WAdvance(n), Some(WWrap), moved);
    assert es + [a] + [b] + [e] == es + [a, b, e];
    hide WriteStep;
    s' := WriteEnds(from, t, es + [a, b, e], s');
    assert es + [a, b, e] + [WriteTo(Some(WRelease)), WriteTo(Some(WWake)), WriteTo(None)] == es + WriteEvents(Moved, n);
  }

  lemma WriteEnds(from: State, t: Tid, es: seq<Event>, s: State) returns (s': State)
    requires Leads(from, t, es, s) && t in s.calls && s.calls[t].pc == Write(WWrap)
    ensures Leads(from, t, es + [WriteTo(Some(WRelease)), WriteTo(Some(WWake)), WriteTo(None)], s')
    ensures s' == State(Unlock(s.d).(wp := Wrap(s.d.wp, s.d.cap), inq := {}), s.calls - {t})
  {
    hide Leads;
    var a, b, z := WriteTo(Some(WRelease)), WriteTo(Some(WWake)), WriteTo(None);
    var d := s.d.(wp := Wrap(s.d.wp, s.d.cap));
    s' := WriteOn(from, t, es, s, WWrap, Some(WRelease), d);
    s' := WriteOn(from, t, es + [a], s', WRelease, Some(WWake), Unlock(d));
    s' := WriteOn(from, t, es + [a] + [b], s', WWake, None, Unlock(d).(inq := {}));
    assert es + [a] + [b] + [z] == es + [a, b, z];
  }
}
