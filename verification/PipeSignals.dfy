/** How calls on the pipe end: what a signal does to a thread that waits, and for which
    reasons a read, a write or an open returns at all. */
module PipeSignals {
  import opened Kernel
  import opened PipeRing
  import opened PipeProtocol
  import opened PipeTheorems

  /** How many of the steps i .. j are steps of thread t. */
  ghost function OwnSteps(acts: seq<Act>, i: nat, j: nat, t: Tid): nat
    requires i <= j <= |acts|
    decreases j
  {
    if j == i then 0 else OwnSteps(acts, i, j - 1, t) + if acts[j - 1].t == t then 1 else 0
  }

  /** Thread t gets a signal and keeps it: every step it takes between i and j sees it. */
  ghost predicate Signalled(acts: seq<Act>, i: nat, j: nat, t: Tid)
    requires i <= j <= |acts|
  {
    forall k :: i <= k < j && acts[k].t == t ==> acts[k].signal
  }

  /** The call has not returned from i to j. */
  ghost predicate InCall(ss: seq<State>, i: nat, j: nat, t: Tid) {
    forall k :: i <= k <= j && k < |ss| ==> t in ss[k].calls
  }

  // ---- a writer that waits for room ----

  /** Inside the wait of scull_getwritespace, with the steps it takes at most to its end. */
  ghost function WriterLeft(pc: PC): nat {
    if pc == Write(WPrepare) then 4
    else if pc == Write(WRetest) then 3
    else if pc == Write(WSleep) then 2
    else if pc == Write(WFinish) then 1
    else 0
  }

  ghost predicate WriterWaits(s: State, t: Tid) {
    t in s.calls && s.calls[t].pc in {Write(WPrepare), Write(WRetest), Write(WSleep), Write(WFinish)}
  }

  /** With a signal, a waiting writer only comes nearer to its return; it touches nothing but
      its place in the wait queue, and the last step of the wait returns. */
  lemma SignalledWriterStep(s: State, t: Tid, e: Event, s': State)
    requires WriterWaits(s, t) && Step(s, t, true, e, s')
    ensures s'.d == s.d.(outq := s'.d.outq)
    ensures s.calls[t].pc == Write(WFinish) ==> t !in s'.calls
    ensures t in s'.calls ==> WriterWaits(s', t) && WriterLeft(s'.calls[t].pc) < WriterLeft(s.calls[t].pc)
  {
  }

  /** As long as the call has not returned, it is in its wait. */
  lemma {:induction false} StaysInWait(ss: seq<State>, acts: seq<Act>, i: nat, j: nat, t: Tid)
    requires Run(ss, acts) && i <= j < |ss| && WriterWaits(ss[i], t) && Signalled(acts, i, j, t)
    requires forall k :: i <= k <= j ==> t in ss[k].calls
    ensures WriterWaits(ss[j], t)
    decreases j
  {
    if i < j {
      var a := acts[j - 1];
      StaysInWait(ss, acts, i, j - 1, t);
      assert Step(ss[j - 1], a.t, a.signal, a.e, ss[j]) && (a.t == t ==> a.signal) && t in ss[j].calls;
      hide Run, Signalled, WriterWaits;
      WaitGoesOn(ss[j - 1], a, ss[j], t);
    }
  }

  lemma WaitGoesOn(s: State, a: Act, s': State, t: Tid)
    requires WriterWaits(s, t) && Step(s, a.t, a.signal, a.e, s') && (a.t == t ==> a.signal) && t in s'.calls
    ensures WriterWaits(s', t)
    ensures WriterLeft(s'.calls[t].pc) + (if a.t == t then 1 else 0) <= WriterLeft(s.calls[t].pc)
  {
    if a.t == t {
      SignalledWriterStep(s, t, a.e, s');
    } else {
      BystanderStays(s, a.t, a.signal, a.e, s', t);
    }
    hide Step;
  }

  lemma {:induction false} StillWriting(ss: seq<State>, acts: seq<Act>, i: nat, j: nat, t: Tid)
    requires Run(ss, acts) && i <= j < |ss| && Signalled(acts, i, j, t)
    requires forall k :: i <= k <= j ==> WriterWaits(ss[k], t)
    ensures WriterWaits(ss[i], t) && WriterWaits(ss[j], t)
    ensures WriterLeft(ss[j].calls[t].pc) + OwnSteps(acts, i, j, t) <= WriterLeft(ss[i].calls[t].pc)
    decreases j
  {
    if i < j {
      StillWriting(ss, acts, i, j - 1, t);
      var a := acts[j - 1];
      assert Step(ss[j - 1], a.t, a.signal, a.e, ss[j]) && (a.t == t ==> a.signal);
      assert WriterWaits(ss[j - 1], t) && WriterWaits(ss[j], t);
      assert t in ss[j].calls;
      hide Run, Signalled, WriterWaits, WriterLeft, Step;
      WaitGoesOn(ss[j - 1], a, ss[j], t);
    } else {
      assert WriterWaits(ss[i], t);
    }
  }

  lemma BystanderStays(s: State, u: Tid, signal: bool, e: Event, s': State, t: Tid)
    requires Step(s, u, signal, e, s') && t in s.calls && u != t
    ensures t in s'.calls && s'.calls[t] == s.calls[t]
  {
    hide DeviceStep, MayEnter;
  }

  /** A signalled writer returns: within four steps of its own, whatever the others do in the
      meantime, and without the mutex, the ring or its history being touched by it. */
  lemma SignalledWriterReturns(ss: seq<State>, acts: seq<Act>, i: nat, j: nat, t: Tid)
    requires Run(ss, acts) && i <= j < |ss| && WriterWaits(ss[i], t) && Signalled(acts, i, j, t)
    ensures OwnSteps(acts, i, j, t) >= 4 ==> exists k :: i < k <= j && t !in ss[k].calls
    ensures forall k :: i <= k < j && acts[k].t == t && InCall(ss, i, k, t) ==>
              ss[k + 1].d == ss[k].d.(outq := ss[k + 1].d.outq)
  {
    if InCall(ss, i, j, t) {
      forall k | i <= k <= j ensures WriterWaits(ss[k], t) {
        StaysInWait(ss, acts, i, k, t);
      }
      StillWriting(ss, acts, i, j, t);
    } else {
      var k :| i <= k <= j && k < |ss| && t !in ss[k].calls;
      assert k != i;
    }
    forall k | i <= k < j && acts[k].t == t && InCall(ss, i, k, t)
      ensures ss[k + 1].d == ss[k].d.(outq := ss[k + 1].d.outq)
    {
      StaysInWait(ss, acts, i, k, t);
      assert Step(ss[k], acts[k].t, acts[k].signal, acts[k].e, ss[k + 1]);
      SignalledWriterStep(ss[k], t, acts[k].e, ss[k + 1]);
    }
  }

  // ---- a reader that waits for data ----

  ghost predicate ReaderWaits(s: State, t: Tid) {
    t in s.calls && s.calls[t].pc in {Read(RPrepare), Read(RRetest(false)), Read(RRetest(true)), Read(RSleep)}
  }

  ghost function ReaderLeft(pc: PC): nat {
    if pc == Read(RRetest(false)) then 4
    else if pc == Read(RSleep) then 3
    else if pc == Read(RPrepare) then 2
    else if pc == Read(RRetest(true)) then 1
    else 0
  }

  /** With a signal, a waiting reader goes for the data exactly if its test sees some,
      otherwise it comes nearer to its return; it touches nothing but its place in the queue. */
  lemma SignalledReaderStep(s: State, t: Tid, e: Event, s': State)
    requires ReaderWaits(s, t) && Step(s, t, true, e, s')
    ensures s'.d == s.d.(inq := s'.d.inq)
    ensures t !in s'.calls <==> s.calls[t].pc == Read(RRetest(true)) && s.d.rp == s.d.wp
    ensures t in s'.calls && !ReaderWaits(s', t) <==> s.calls[t].pc.r.RRetest? && s.d.rp != s.d.wp
    ensures t in s'.calls && !ReaderWaits(s', t) ==> s'.calls[t].pc == Read(RFinish)
    ensures ReaderWaits(s', t) ==> ReaderLeft(s'.calls[t].pc) < ReaderLeft(s.calls[t].pc)
  {
  }

  lemma {:induction false} StillReading(ss: seq<State>, acts: seq<Act>, i: nat, j: nat, t: Tid)
    requires Run(ss, acts) && i <= j < |ss| && Signalled(acts, i, j, t)
    requires forall k :: i <= k <= j ==> ReaderWaits(ss[k], t)
    ensures ReaderWaits(ss[i], t) && ReaderWaits(ss[j], t)
    ensures ReaderLeft(ss[j].calls[t].pc) + OwnSteps(acts, i, j, t) <= ReaderLeft(ss[i].calls[t].pc)
    decreases j
  {
    if i < j {
      StillReading(ss, acts, i, j - 1, t);
      var a := acts[j - 1];
      assert Step(ss[j - 1], a.t, a.signal, a.e, ss[j]) && (a.t == t ==> a.signal);
      assert ReaderWaits(ss[j - 1], t) && ReaderWaits(ss[j], t);
      hide Run, Signalled, ReaderWaits, ReaderLeft;
      if a.t == t {
        SignalledReaderStep(ss[j - 1], t, a.e, ss[j]);
      } else {
        BystanderStays(ss[j - 1], a.t, a.signal, a.e, ss[j], t);
      }
    } else {
      assert ReaderWaits(ss[i], t);
    }
  }

  /** A signalled reader leaves its wait within four steps of its own: it returns, or it has
      seen data and goes for the mutex. Nothing but the wait queue is touched by it. */
  lemma SignalledReaderLeaves(ss: seq<State>, acts: seq<Act>, i: nat, j: nat, t: Tid)
    requires Run(ss, acts) && i <= j < |ss| && ReaderWaits(ss[i], t) && Signalled(acts, i, j, t)
    ensures OwnSteps(acts, i, j, t) >= 4 ==> exists k :: i < k <= j && !ReaderWaits(ss[k], t)
    ensures forall k :: i <= k < j && acts[k].t == t && ReaderWaits(ss[k], t) ==>
              && ss[k + 1].d == ss[k].d.(inq := ss[k + 1].d.inq)
              && (ReaderWaits(ss[k + 1], t)
                  || (t !in ss[k + 1].calls && ss[k].d.rp == ss[k].d.wp)
                  || (t in ss[k + 1].calls && ss[k + 1].calls[t].pc == Read(RFinish) && ss[k].d.rp != ss[k].d.wp))
  {
    if forall k :: i <= k <= j ==> ReaderWaits(ss[k], t) {
      StillReading(ss, acts, i, j, t);
    } else {
      var k :| i <= k <= j && !ReaderWaits(ss[k], t);
      assert k != i;
    }
    forall k | i <= k < j && acts[k].t == t && ReaderWaits(ss[k], t)
      ensures ss[k + 1].d == ss[k].d.(inq := ss[k + 1].d.inq)
      ensures ReaderWaits(ss[k + 1], t)
              || (t !in ss[k + 1].calls && ss[k].d.rp == ss[k].d.wp)
              || (t in ss[k + 1].calls && ss[k + 1].calls[t].pc == Read(RFinish) && ss[k].d.rp != ss[k].d.wp)
    {
      assert Step(ss[k], acts[k].t, acts[k].signal, acts[k].e, ss[k + 1]);
      SignalledReaderStep(ss[k], t, acts[k].e, ss[k + 1]);
    }
  }

  // ---- why calls return ----

  /** A read returns for one of five reasons: a signal at the mutex, a signal in its wait on
      an empty pipe, an empty pipe if it must not block, a fault, or success. Except for the
      last it leaves the ring and its history alone. */
  lemma WhyReadsReturn(ss: seq<State>, acts: seq<Act>, i: nat, t: Tid)
    requires Run(ss, acts) && i < |acts| && acts[i].t == t
    requires t in ss[i].calls && ss[i].calls[t].pc.Read? && t !in ss[i + 1].calls
    ensures var c, d, d' := ss[i].calls[t], ss[i].d, ss[i + 1].d;
            && d' == d.(lock := d'.lock, outq := d'.outq)
            && (|| (c.pc.r == RLock && acts[i].signal)
                || (c.pc.r == RRetest(true) && d.rp == d.wp)
                || (c.pc.r == RUnlock && c.nonblock && d.lock == Some(t) && d.rp == d.wp)
                || (c.pc.r == RAbort && d.lock == Some(t))
                || c.pc.r == RWake)
  {
    RunInv(ss, acts, i);
    assert Step(ss[i], acts[i].t, acts[i].signal, acts[i].e, ss[i + 1]);
    ReaderKnows(ss[i], t);
    hide Inv;
  }

  lemma ReaderKnows(s: State, t: Tid)
    requires Inv(s) && t in s.calls && s.calls[t].pc.Read?
    ensures s.calls[t].pc.r == RUnlock ==> s.d.lock == Some(t) && s.d.rp == s.d.wp
    ensures s.calls[t].pc.r == RAbort ==> s.d.lock == Some(t)
  {
    assert CallInv(s.d.files, s.calls[t]);
  }

  /** The same for a write; here the wait ends with a signal in its last step. */
  lemma WhyWritesReturn(ss: seq<State>, acts: seq<Act>, i: nat, t: Tid)
    requires Run(ss, acts) && i < |acts| && acts[i].t == t
    requires t in ss[i].calls && ss[i].calls[t].pc.Write? && t !in ss[i + 1].calls
    ensures var c, d, d' := ss[i].calls[t], ss[i].d, ss[i + 1].d;
            && d' == d.(lock := d'.lock, inq := d'.inq, outq := d'.outq)
            && (|| (c.pc.w == WLock && acts[i].signal)
                || (c.pc.w == WFinish && acts[i].signal)
                || (c.pc.w == WUnlock && c.nonblock && d.lock == Some(t) && 0 < d.cap && d.wp <= d.cap
                    && SpaceFree(d.rp, d.wp, d.cap) == 0)
                || (c.pc.w == WAbort && d.lock == Some(t))
                || c.pc.w == WWake)
  {
    RunInv(ss, acts, i);
    assert Step(ss[i], acts[i].t, acts[i].signal, acts[i].e, ss[i + 1]);
    WriterKnows(ss[i], t);
    hide Inv;
  }

  lemma WriterKnows(s: State, t: Tid)
    requires Inv(s) && t in s.calls && s.calls[t].pc.Write?
    ensures s.calls[t].pc.w == WUnlock ==>
              s.d.lock == Some(t) && 0 < s.d.cap && s.d.wp <= s.d.cap && SpaceFree(s.d.rp, s.d.wp, s.d.cap) == 0
    ensures s.calls[t].pc.w == WAbort ==> s.d.lock == Some(t)
  {
    assert CallInv(s.d.files, s.calls[t]);
  }

  /** An open returns for a signal at the mutex, for lack of memory, or having reset the pipe. */
  lemma WhyOpensReturn(ss: seq<State>, acts: seq<Act>, i: nat, t: Tid)
    requires Run(ss, acts) && i < |acts| && acts[i].t == t
    requires t in ss[i].calls && ss[i].calls[t].pc.Open? && t !in ss[i + 1].calls
    ensures var c, d, d' := ss[i].calls[t], ss[i].d, ss[i + 1].d;
            && d' == d.(lock := d'.lock)
            && (|| (c.pc.o == OLock && acts[i].signal)
                || (c.pc.o == OAbort && d.buf == [])
                || (c.pc.o == OUnlock && d.live))
  {
    RunInv(ss, acts, i);
    assert Step(ss[i], acts[i].t, acts[i].signal, acts[i].e, ss[i + 1]);
    assert OpenerInv(ss[i].d, ss[i].calls[t]);
    hide Inv;
  }

  // ---- the life of the buffer ----

  /** Whoever stands here answers for the buffer: an open that has not counted itself yet,
      or a close that has yet to look whether it was the last. */
  ghost predicate Answers(pc: PC) {
    pc in {Open(OResetWp), Open(OResetRp), Open(OCount), Close(CFree)}
  }

  ghost predicate Owned(s: State) {
    s.d.buf != [] ==> s.d.files != map[] || exists u :: u in s.calls && Answers(s.calls[u].pc)
  }

  lemma OwnedStep(s: State, t: Tid, signal: bool, e: Event, s': State)
    requires Inv(s) && Owned(s) && Step(s, t, signal, e, s')
    ensures Owned(s')
  {
    if s'.d.buf != [] && s'.d.files == map[] {
      if !e.Enter? {
        OwnerMoves(s.d, t, s.calls[t], signal, e, s'.d);
      }
      hide Inv, DeviceStep;
      if t in s'.calls && !e.Enter? && Answers(s'.calls[t].pc) {
      } else {
        assert s.d.buf != [] && s.d.files == map[];
        var u :| u in s.calls && Answers(s.calls[u].pc);
        assert u != t && u in s'.calls && s'.calls[u] == s.calls[u];
      }
    }
  }

  /** A step that leaves a buffer and no file either found it so, or answers for it. */
  lemma OwnerMoves(d: Device, t: Tid, c: Call, signal: bool, e: Event, d': Device)
    requires DeviceStep(d, t, c, signal, e, d') && CountInv(d) && 0 < d.cap
    ensures d'.buf != [] && d'.files == map[] ==>
              (NextPC(e).Some? && Answers(NextPC(e).value)) || (d.buf != [] && d.files == map[] && !Answers(c.pc))
  {
    match c.pc
    case Read(_) => MoveKeepsCounts(d, t, c, signal, e, d'); hide DeviceStep;
    case Write(_) => MoveKeepsCounts(d, t, c, signal, e, d'); hide DeviceStep;
    case Open(_) => OpenerMoves(d, t, c, signal, e, d'); hide DeviceStep;
    case Close(_) =>
      NoFiles(d.files);
      hide Readers, Writers;
  }

  lemma OpenerMoves(d: Device, t: Tid, c: Call, signal: bool, e: Event, d': Device)
    requires DeviceStep(d, t, c, signal, e, d') && c.pc.Open?
    ensures d'.buf != [] && d'.files == map[] ==>
              (NextPC(e).Some? && Answers(NextPC(e).value)) || (d.buf != [] && d.files == map[] && !Answers(c.pc))
  {
    if c.pc == Open(OCount) {
      assert c.fid in d'.files;
    }
  }

  lemma NoFiles(files: map<Fid, Mode>)
    ensures files == map[] ==> Readers(files) == {} && Writers(files) == {}
  {
  }

  /** The buffer does not outlive its users: with no file open and no open or close under way,
      it has been freed. */
  lemma {:induction false} BufferIsFreed(ss: seq<State>, acts: seq<Act>, i: nat)
    requires Run(ss, acts) && i < |ss|
    ensures Owned(ss[i])
    ensures ss[i].d.files == map[] && (forall u :: u in ss[i].calls ==> !ss[i].calls[u].pc.Open? && !ss[i].calls[u].pc.Close?) ==>
              ss[i].d.buf == []
  {
    if i > 0 {
      BufferIsFreed(ss, acts, i - 1);
      RunInv(ss, acts, i - 1);
      var a := acts[i - 1];
      assert Step(ss[i - 1], a.t, a.signal, a.e, ss[i]);
      OwnedStep(ss[i - 1], a.t, a.signal, a.e, ss[i]);
    }
  }

  // ---- non-blocking calls ----

  /** A call that must not block never enters a wait. */
  lemma {:induction false} NonBlockingNeverWaits(ss: seq<State>, acts: seq<Act>, i: nat, t: Tid)
    requires Run(ss, acts) && i < |ss| && t in ss[i].calls && ss[i].calls[t].nonblock
    ensures !ReaderWaits(ss[i], t) && !WriterWaits(ss[i], t)
    ensures ss[i].calls[t].pc !in {Read(RPeek), Read(RFinish)}
  {
    if i > 0 {
      var a := acts[i - 1];
      assert Step(ss[i - 1], a.t, a.signal, a.e, ss[i]);
      if t in ss[i - 1].calls && ss[i - 1].calls[t].nonblock {
        NonBlockingNeverWaits(ss, acts, i - 1, t);
      }
    }
  }
}
