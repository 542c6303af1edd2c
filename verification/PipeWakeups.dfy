/** Wake-ups of the pipe, step by step: no reader is ever left asleep on data, and a writer
    is left asleep on space exactly by a store of an open that resets the pipe under it. */
module PipeWakeups {
  import opened Kernel
  import opened Arithmetic
  import opened PipeRing
  import opened PipeProtocol

  // ---- sleeping and announcing ----

  predicate ReaderAsleep(s: State, t: Tid) {
    t in s.calls && s.calls[t].pc == Read(RSleep) && t in s.d.inq
  }

  predicate WriterAsleep(s: State, t: Tid) {
    t in s.calls && s.calls[t].pc == Write(WSleep) && t in s.d.outq
  }

  /** A writer that has moved wp and has yet to wake the readers. */
  predicate WriterWillWake(c: Call) {
    c.pc.Write? && (c.pc.w.WWrap? || c.pc.w.WRelease? || c.pc.w.WWake?)
  }

  /** A reader that has moved rp and has yet to wake the writers. */
  predicate ReaderWillWake(c: Call) {
    c.pc.Read? && (c.pc.r.RWrap? || c.pc.r.RRelease? || c.pc.r.RWake?)
  }

  ghost predicate InqWakePending(s: State) {
    exists u :: u in s.calls && WriterWillWake(s.calls[u])
  }

  ghost predicate OutqWakePending(s: State) {
    exists u :: u in s.calls && ReaderWillWake(s.calls[u])
  }

  ghost predicate Full(d: Device) {
    0 < d.cap && d.wp <= d.cap && SpaceFree(d.rp, d.wp, d.cap) == 0
  }

  /** An open has stored wp and has yet to store rp. */
  ghost predicate Resetting(s: State) {
    exists u :: u in s.calls && s.calls[u].pc == Open(OResetRp)
  }

  ghost predicate NoReaderForgotten(s: State) {
    forall t :: ReaderAsleep(s, t) ==> s.d.rp == s.d.wp || InqWakePending(s) || Resetting(s)
  }

  ghost predicate NoWriterForgotten(s: State) {
    forall t :: WriterAsleep(s, t) ==> Full(s.d) || OutqWakePending(s)
  }

  // ---- readers ----

  /** How a step can bear on sleeping readers: an empty pipe looks non-empty after a
      writer's update, and that writer then still has to wake `inq`, or after the first
      store of a reset, and the second one makes it look empty again. */
  lemma InqEffect(d: Device, t: Tid, c: Call, signal: bool, e: Event, d': Device)
    requires DeviceStep(d, t, c, signal, e, d') && d.cap == d'.cap && OpenerInv(d, c)
    requires HoldsLock(c.pc) && (c.pc.Read? || c.pc.Write?) ==> d.live && RingOk(d, Some(c))
    ensures NextPC(e) == Some(Read(RSleep)) ==> d'.rp == d'.wp
    ensures d.rp == d.wp && d'.rp != d'.wp ==>
              NextPC(e).Some? && (WriterWillWake(c.(pc := NextPC(e).value)) || NextPC(e).value == Open(OResetRp))
    ensures c.pc == Open(OResetRp) ==> d'.rp == d'.wp
    ensures WriterWillWake(c) ==> d'.inq == {} || (NextPC(e).Some? && WriterWillWake(c.(pc := NextPC(e).value)))
    ensures forall u :: u != t && u in d'.inq ==> u in d.inq
  {
  }

  /** The mutex holder works on a live ring. */
  lemma HolderIsLive(s: State, t: Tid)
    requires Inv(s) && t in s.calls && HoldsLock(s.calls[t].pc) && (s.calls[t].pc.Read? || s.calls[t].pc.Write?)
    ensures s.d.live && RingOk(s.d, Some(s.calls[t])) && Holder(s) == Some(s.calls[t])
  {
    assert CallInv(s.d.files, s.calls[t]);
  }

  lemma ReadersStep(s: State, t: Tid, signal: bool, e: Event, s': State)
    requires Inv(s) && NoReaderForgotten(s) && Step(s, t, signal, e, s')
    ensures NoReaderForgotten(s')
  {
    if !e.Enter? {
      var c := s.calls[t];
      CapStays(s.d, t, c, signal, e, s'.d);
      if HoldsLock(c.pc) && (c.pc.Read? || c.pc.Write?) {
        HolderIsLive(s, t);
      }
      InqEffect(s.d, t, c, signal, e, s'.d);
    }
    hide Inv, DeviceStep;
    forall u | ReaderAsleep(s', u) ensures s'.d.rp == s'.d.wp || InqWakePending(s') || Resetting(s') {
      if e.Enter? {
        assert ReaderAsleep(s, u);
        if InqWakePending(s) {
          var w :| w in s.calls && WriterWillWake(s.calls[w]);
          assert w in s'.calls && s'.calls[w] == s.calls[w];
        } else if Resetting(s) {
          var w :| w in s.calls && s.calls[w].pc == Open(OResetRp);
          assert w in s'.calls && s'.calls[w] == s.calls[w];
        }
      } else if u != t && s'.d.rp != s'.d.wp {
        assert ReaderAsleep(s, u);
        if s.d.rp == s.d.wp {
          assert t in s'.calls && (WriterWillWake(s'.calls[t]) || s'.calls[t].pc == Open(OResetRp));
        } else if InqWakePending(s) {
          var w :| w in s.calls && WriterWillWake(s.calls[w]);
          assert w in s'.calls && WriterWillWake(s'.calls[w]);
        } else {
          var w :| w in s.calls && s.calls[w].pc == Open(OResetRp);
          assert w != t && w in s'.calls && s'.calls[w] == s.calls[w];
        }
      }
    }
  }

  // ---- writers ----

  lemma WrapKeepsSpace(d: Device)
    requires |d.buf| == d.cap && d.rp < d.cap && d.wp <= d.cap && (d.wp == d.cap ==> d.rp > 0)
    ensures SpaceFree(d.rp, Wrap(d.wp, d.cap), d.cap) == SpaceFree(d.rp, d.wp, d.cap)
  {
    if d.wp == d.cap {
      SpaceAndUnread(d.buf, d.rp, 0);
      assert (d.rp + d.cap - d.wp) % d.cap == d.rp;
    }
  }

  /** The two stores of a reset. */
  predicate Stores(pc: PC) {
    pc in {Open(OResetWp), Open(OResetRp)}
  }

  /** The mirror image for writers; the exceptions are the two stores of an open. */
  lemma OutqEffect(d: Device, t: Tid, c: Call, signal: bool, e: Event, d': Device)
    requires DeviceStep(d, t, c, signal, e, d') && d.cap == d'.cap
    requires HoldsLock(c.pc) && (c.pc.Read? || c.pc.Write?) ==> d.live && RingOk(d, Some(c))
    ensures NextPC(e) == Some(Write(WSleep)) ==> Full(d')
    ensures Full(d) && !Full(d') && !Stores(c.pc) ==>
              NextPC(e).Some? && ReaderWillWake(c.(pc := NextPC(e).value))
    ensures ReaderWillWake(c) ==> d'.outq == {} || (NextPC(e).Some? && ReaderWillWake(c.(pc := NextPC(e).value)))
    ensures forall u :: u != t && u in d'.outq ==> u in d.outq
  {
    if c.pc.Write? {
      WriterOutq(d, t, c, signal, e, d');
    }
  }

  lemma WriterOutq(d: Device, t: Tid, c: Call, signal: bool, e: Event, d': Device)
    requires DeviceStep(d, t, c, signal, e, d') && d.cap == d'.cap && c.pc.Write?
    requires HoldsLock(c.pc) ==> d.live && RingOk(d, Some(c))
    ensures NextPC(e) == Some(Write(WSleep)) ==> Full(d')
    ensures Full(d) ==> Full(d')
    ensures forall u :: u != t && u in d'.outq ==> u in d.outq
  {
    if c.pc == Write(WWrap) {
      WrapKeepsSpace(d);
    }
  }

  /** A store of an open is safe for writers if it finds none asleep, or if a wake-up for
      them is still to come. */
  ghost predicate SafeReset(s: State) {
    (forall u :: !WriterAsleep(s, u)) || OutqWakePending(s)
  }

  ghost predicate ResetIsSafe(s: State, t: Tid) {
    t in s.calls && Stores(s.calls[t].pc) ==> SafeReset(s)
  }

  lemma PendingStays(s: State, t: Tid, signal: bool, e: Event, s': State, w: Tid)
    requires Step(s, t, signal, e, s') && w in s.calls && ReaderWillWake(s.calls[w])
    ensures s'.d.outq == {} || OutqWakePending(s')
  {
    if w == t && s'.d.outq != {} {
      assert t in s'.calls && ReaderWillWake(s'.calls[t]);
    } else if w != t {
      assert w in s'.calls && s'.calls[w] == s.calls[w];
    }
  }

  lemma WritersStep(s: State, t: Tid, signal: bool, e: Event, s': State)
    requires Inv(s) && NoWriterForgotten(s) && Step(s, t, signal, e, s') && ResetIsSafe(s, t)
    ensures NoWriterForgotten(s')
  {
    if !e.Enter? {
      var c := s.calls[t];
      CapStays(s.d, t, c, signal, e, s'.d);
      if HoldsLock(c.pc) && (c.pc.Read? || c.pc.Write?) {
        HolderIsLive(s, t);
      }
      OutqEffect(s.d, t, c, signal, e, s'.d);
    }
    forall u | WriterAsleep(s', u) ensures Full(s'.d) || OutqWakePending(s') {
      if !Full(s'.d) && (e.Enter? || u != t) {
        assert WriterAsleep(s, u);
        if OutqWakePending(s) {
          var w :| w in s.calls && ReaderWillWake(s.calls[w]);
          PendingStays(s, t, signal, e, s', w);
        } else {
          assert t in s'.calls && ReaderWillWake(s'.calls[t]);
        }
      }
    }
  }

  /** A store of an open forgets a writer exactly when it is not safe and the pipe does not
      look full after it: the source does not wake `outq` there. After the second store it
      looks full only if the ring has no usable slot at all; after the first one also if
      rp stands at 1. */
  lemma ResetForgetsWriters(s: State, t: Tid, signal: bool, e: Event, s': State)
    requires Inv(s) && NoWriterForgotten(s) && Step(s, t, signal, e, s')
    requires t in s.calls && Stores(s.calls[t].pc)
    ensures s.calls[t].pc == Open(OResetWp) ==> (NoWriterForgotten(s') <==> SafeReset(s) || s.d.cap == 1 || s.d.rp == 1)
    ensures s.calls[t].pc == Open(OResetRp) ==> (NoWriterForgotten(s') <==> SafeReset(s) || s.d.cap == 1)
  {
    StoredPointers(s, t, signal, e, s');
    forall u ensures WriterAsleep(s', u) <==> WriterAsleep(s, u) {
    }
    if SafeReset(s) {
      WritersStep(s, t, signal, e, s');
    }
    hide Inv;
    if OutqWakePending(s') {
      var w :| w in s'.calls && ReaderWillWake(s'.calls[w]);
      assert w in s.calls && ReaderWillWake(s.calls[w]);
    }
  }

  /** When the pipe looks full after a store. */
  lemma StoredPointers(s: State, t: Tid, signal: bool, e: Event, s': State)
    requires Inv(s) && Step(s, t, signal, e, s') && t in s.calls && Stores(s.calls[t].pc)
    ensures s.calls[t].pc == Open(OResetWp) && s.d.live ==> (Full(s'.d) <==> s.d.cap == 1 || s.d.rp == 1)
    ensures s.calls[t].pc == Open(OResetRp) ==> (Full(s'.d) <==> s.d.cap == 1)
  {
    assert s'.d.cap == s.d.cap > 0 && s'.d.wp == 0;
    if s.calls[t].pc == Open(OResetWp) {
      assert s'.d.rp == s.d.rp && (s.d.live ==> s.d.rp < s.d.cap);
    } else {
      assert s'.d.rp == 0;
    }
    hide Inv, Step, SpaceFree;
    if s'.d.rp < s.d.cap {
      SpaceMidReset(s'.d.rp, s.d.cap);
    }
  }

  /** The space that shows while wp is 0. */
  lemma SpaceMidReset(rp: nat, cap: nat)
    requires rp < cap
    ensures SpaceFree(rp, 0, cap) == 0 <==> rp == 1 || cap == 1
  {
    if rp > 0 {
      assert rp + cap == 1 * cap + rp;
      DivUnique(rp + cap, cap, 1, rp);
    }
  }
}
