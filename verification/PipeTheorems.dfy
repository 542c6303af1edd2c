/** What holds in every run of the pipe, for any number of threads, files and
    interleavings. */
module PipeTheorems {
  import opened Kernel
  import opened Arithmetic
  import opened PipeRing
  import opened PipeProtocol
  import opened PipeWakeups

  datatype Act = Act(t: Tid, signal: bool, e: Event)

  ghost predicate Run(ss: seq<State>, acts: seq<Act>) {
    && |ss| == |acts| + 1
    && Init(ss[0])
    && forall i :: 0 <= i < |acts| ==> Step(ss[i], acts[i].t, acts[i].signal, acts[i].e, ss[i + 1])
  }

  /** Runs in which no store of an open resets the pipe under a sleeping writer. */
  ghost predicate SafeResets(ss: seq<State>, acts: seq<Act>) {
    forall i :: 0 <= i < |acts| && i < |ss| ==> ResetIsSafe(ss[i], acts[i].t)
  }

  lemma {:induction false} RunInv(ss: seq<State>, acts: seq<Act>, i: nat)
    requires Run(ss, acts) && i < |ss|
    ensures Inv(ss[i]) && NoReaderForgotten(ss[i])
    ensures SafeResets(ss, acts) ==> NoWriterForgotten(ss[i])
  {
    if i == 0 {
      InvInit(ss[0]);
    } else {
      RunInv(ss, acts, i - 1);
      var a := acts[i - 1];
      assert Step(ss[i - 1], a.t, a.signal, a.e, ss[i]);
      InvStep(ss[i - 1], a.t, a.signal, a.e, ss[i]);
      ReadersStep(ss[i - 1], a.t, a.signal, a.e, ss[i]);
      if SafeResets(ss, acts) {
        assert ResetIsSafe(ss[i - 1], a.t);
        WritersStep(ss[i - 1], a.t, a.signal, a.e, ss[i]);
      }
    }
  }

  /** The bytes in the ring, with the pointers as they are after the wrap. */
  function InRing(d: Device): seq<byte>
    requires d.rp <= d.cap && d.wp <= d.cap && |d.buf| == d.cap
  {
    Unread(d.buf, Wrap(d.rp, d.cap), Wrap(d.wp, d.cap))
  }

  /** The bytes that wait to be read: accepted since the last open, not yet delivered. */
  function Waiting(d: Device): seq<byte> {
    if |d.delivered| <= |d.accepted| then d.accepted[|d.delivered|..] else []
  }

  predicate Sound(d: Device) {
    d.live && |d.buf| == d.cap && d.rp <= d.cap && d.wp <= d.cap
  }

  predicate NothingToRead(d: Device) {
    Sound(d) && Waiting(d) == []
  }

  predicate NoRoom(d: Device) {
    Sound(d) && |Waiting(d)| == d.cap - 1
  }

  /** The mutex holder stands before this step. */
  predicate HolderAt(s: State, pc: PC) {
    s.d.lock.Some? && s.d.lock.value in s.calls && s.calls[s.d.lock.value].pc == pc
  }

  lemma MidResetFacts(s: State)
    requires Inv(s)
    ensures Resetting(s) <==> HolderAt(s, Open(OResetRp))
    ensures s.d.live && Resetting(s) ==> MidReset(s.d)
    ensures s.d.live && !Resetting(s) ==> Fifo(s.d)
  {
  }

  lemma RingFacts(s: State)
    requires Inv(s) && s.d.live
    ensures s.d.rp <= s.d.cap && s.d.wp <= s.d.cap && |s.d.buf| == s.d.cap
    ensures s.d.rp == s.d.cap ==> s.d.wp < s.d.cap
    ensures s.d.wp == s.d.cap ==> 0 < s.d.rp < s.d.cap
    ensures s.d.lock == None ==> s.d.rp < s.d.cap && s.d.wp < s.d.cap
    ensures s.d.rp == s.d.cap ==> HolderAt(s, Read(RWrap))
    ensures InRing(s.d) == Unread(s.d.buf, s.d.rp, s.d.wp)
  {
    WrapIsSilent(s.d.buf, s.d.rp, s.d.wp);
  }

  /** First in, first out: since the last open, what the reads have delivered is a
      prefix of what the writes have accepted, and the rest is what the ring holds; only
      between the two stores of an open does the ring show more than nothing. */
  lemma FirstInFirstOut(ss: seq<State>, acts: seq<Act>, i: nat)
    requires Run(ss, acts) && i < |ss| && ss[i].d.live
    ensures var d := ss[i].d;
            && d.rp <= d.cap && d.wp <= d.cap && |d.buf| == d.cap
            && d.delivered <= d.accepted && |Waiting(d)| < d.cap
            && (!Resetting(ss[i]) ==> Waiting(d) == InRing(d))
            && (Resetting(ss[i]) ==> HolderAt(ss[i], Open(OResetRp)) && d.wp == 0 && d.accepted == d.delivered == [])
  {
    RunInv(ss, acts, i);
    RingFacts(ss[i]);
    MidResetFacts(ss[i]);
  }

  /** The tests made without the mutex. Outside of a reset, "full" is exact at every moment,
      and "no data" errs only while a reader stands between the two halves of its pointer
      update, and then on the optimistic side. Between the two stores of a reset the pipe is
      empty; it looks full exactly if rp stands at 1, and it looks non-empty exactly if rp
      is not 0 yet. */
  lemma UnlockedTests(ss: seq<State>, acts: seq<Act>, i: nat)
    requires Run(ss, acts) && i < |ss| && ss[i].d.live && 2 <= ss[i].d.cap
    ensures var s, d := ss[i], ss[i].d;
            && d.rp <= d.cap && d.wp <= d.cap && |d.buf| == d.cap
            && (!Resetting(s) ==>
                  && (SpaceFree(d.rp, d.wp, d.cap) == 0 <==> |Waiting(d)| == d.cap - 1)
                  && (d.rp == d.wp ==> Waiting(d) == [])
                  && (d.rp != d.wp && Waiting(d) == [] <==> d.rp == d.cap && d.wp == 0))
            && (d.rp == d.cap ==> HolderAt(s, Read(RWrap)))
            && (Resetting(s) ==>
                  && HolderAt(s, Open(OResetRp)) && Waiting(d) == []
                  && (SpaceFree(d.rp, d.wp, d.cap) == 0 <==> d.rp == 1)
                  && (d.rp != d.wp <==> d.rp != 0))
  {
    RunInv(ss, acts, i);
    RingFacts(ss[i]);
    MidResetFacts(ss[i]);
    var d := ss[i].d;
    hide Inv;
    SpaceAndUnread(d.buf, Wrap(d.rp, d.cap), Wrap(d.wp, d.cap));
    SpaceAcrossWrap(d.rp, d.wp, d.cap);
    if Resetting(ss[i]) {
      SpaceMidReset(d.rp, d.cap);
    }
  }

  lemma SpaceAcrossWrap(rp: nat, wp: nat, cap: nat)
    requires 0 < cap && rp <= cap && wp <= cap && (rp == cap ==> wp < cap) && (wp == cap ==> 0 < rp < cap)
    ensures SpaceFree(rp, wp, cap) ==
              if rp == cap && wp == 0 then -1 else SpaceFree(Wrap(rp, cap), Wrap(wp, cap), cap)
  {
    if rp == cap && wp == 0 {
      assert rp + cap - wp == 2 * cap + 0;
      DivUnique(rp + cap - wp, cap, 2, 0);
    } else if rp == cap {
      assert rp + cap - wp == 1 * cap + (cap - wp);
      DivUnique(rp + cap - wp, cap, 1, cap - wp);
      DivUnique(cap - wp, cap, 0, cap - wp);
    } else if wp == cap {
      DivUnique(rp, cap, 0, rp);
      assert rp + cap == 1 * cap + rp;
      DivUnique(rp + cap, cap, 1, rp);
    }
  }

  /** Whoever is inside a read or a write finds the buffer there; the counters are the
      numbers of open files; a call that has returned does not hold the mutex. */
  lemma LockAndLifetime(ss: seq<State>, acts: seq<Act>, i: nat, t: Tid)
    requires Run(ss, acts) && i < |ss|
    ensures var s := ss[i];
            && s.d.nreaders == |Readers(s.d.files)| && s.d.nwriters == |Writers(s.d.files)|
            && (s.d.lock == Some(t) <==> t in s.calls && HoldsLock(s.calls[t].pc))
            && (t in s.calls && (s.calls[t].pc.Read? || s.calls[t].pc.Write?) ==>
                  s.d.live && |s.d.buf| == s.d.cap && 0 < s.d.nreaders + s.d.nwriters)
  {
    RunInv(ss, acts, i);
    var s := ss[i];
    if t in s.calls && (s.calls[t].pc.Read? || s.calls[t].pc.Write?) {
      var c := s.calls[t];
      assert CallInv(s.d.files, c);
      assert c.fid in Readers(s.d.files) || c.fid in Writers(s.d.files);
    }
  }

  /** The ring, its history, the counters and the buffer change only in a step of the
      thread that holds the mutex. */
  lemma TouchedOnlyUnderLock(ss: seq<State>, acts: seq<Act>, i: nat)
    requires Run(ss, acts) && i < |acts|
    ensures var d, d' := ss[i].d, ss[i + 1].d;
            d.lock == Some(acts[i].t) || d' == d.(lock := d'.lock, inq := d'.inq, outq := d'.outq)
  {
    RunInv(ss, acts, i);
    var a := acts[i];
    assert Step(ss[i], a.t, a.signal, a.e, ss[i + 1]);
    if !a.e.Enter? && ss[i].d.lock != Some(a.t) {
      OnlyUnderLock(ss[i].d, a.t, ss[i].calls[a.t], a.signal, a.e, ss[i + 1].d);
    }
  }

  /** No lost wake-up. A reader that sleeps has nothing to read, or a writer is still on
      its way to wake it; a writer that sleeps has no room, or a reader is on its way to
      wake it, or an open has not finished its reset, as long as the stores of opens are
      safe; so the two sides never sleep together with nobody on the way. */
  lemma NoLostWakeup(ss: seq<State>, acts: seq<Act>, i: nat, r: Tid, w: Tid)
    requires Run(ss, acts) && i < |ss|
    ensures ReaderAsleep(ss[i], r) ==> NothingToRead(ss[i].d) || InqWakePending(ss[i])
    ensures SafeResets(ss, acts) && WriterAsleep(ss[i], w) ==>
              NoRoom(ss[i].d) || OutqWakePending(ss[i]) || HolderAt(ss[i], Open(OResetRp))
    ensures SafeResets(ss, acts) && ReaderAsleep(ss[i], r) && WriterAsleep(ss[i], w) && 2 <= ss[i].d.cap ==>
              InqWakePending(ss[i]) || OutqWakePending(ss[i]) || HolderAt(ss[i], Open(OResetRp))
  {
    RunInv(ss, acts, i);
    var s := ss[i];
    if ReaderAsleep(s, r) {
      LockAndLifetime(ss, acts, i, r);
      SleepingReader(s, r);
    }
    if WriterAsleep(s, w) {
      LockAndLifetime(ss, acts, i, w);
      if SafeResets(ss, acts) {
        SleepingWriter(s, w);
      }
    }
  }

  lemma SleepingReader(s: State, t: Tid)
    requires Inv(s) && NoReaderForgotten(s) && ReaderAsleep(s, t) && s.d.live
    ensures NothingToRead(s.d) || InqWakePending(s)
  {
    RingFacts(s);
    MidResetFacts(s);
    hide Inv;
  }

  lemma SleepingWriter(s: State, t: Tid)
    requires Inv(s) && NoWriterForgotten(s) && WriterAsleep(s, t) && s.d.live
    ensures NoRoom(s.d) || OutqWakePending(s) || HolderAt(s, Open(OResetRp))
  {
    RingFacts(s);
    MidResetFacts(s);
    hide Inv;
    SpaceAcrossWrap(s.d.rp, s.d.wp, s.d.cap);
    SpaceAndUnread(s.d.buf, Wrap(s.d.rp, s.d.cap), Wrap(s.d.wp, s.d.cap));
  }

  // ---- the pipe as a whole never locks up ----

  /** A thread that can move on by itself, without a signal. */
  ghost predicate CanRun(s: State, t: Tid) {
    exists e, s' :: Step(s, t, false, e, s') && !e.Enter?
  }

  predicate WaitsForLock(pc: PC) {
    pc in {Read(RLock), Write(WLock), Open(OLock), Close(CLock)}
  }

  lemma ReaderCanRun(d: Device, t: Tid, c: Call, pc: ReadPC) returns (d': Device, next: Option<ReadPC>)
    requires pc.RLock? ==> d.lock == None
    requires pc.RSleep? ==> t !in d.inq
    requires HoldsLock(Read(pc)) ==> ReadHolder(d, pc)
    ensures ReadStep(d, t, c, pc, false, d', next)
  {
    match pc
    case RLock => d', next := d.(lock := Some(t)), Some(RTest);
    case RTest => d', next := d, Some(if d.rp == d.wp then RUnlock else RCopy);
    case RUnlock => d', next := Unlock(d), if c.nonblock then None else Some(RPeek);
    case RPeek => d', next := d, Some(if d.rp != d.wp then RLock else RPrepare);
    case RPrepare => d', next := d.(inq := d.inq + {t}), Some(RRetest(false));
    case RRetest(signalled) =>
      d', next := d, if d.rp != d.wp then Some(RFinish) else if signalled then None else Some(RSleep);
    case RSleep => d', next := d, Some(RPrepare);
    case RFinish => d', next := d.(inq := d.inq - {t}), Some(RLock);
    case RCopy =>
      ReadFits(d.buf, d.rp, d.wp, c.want);
      d', next := d, Some(RAbort);
    case RAdvance(got) => d', next := d.(rp := d.rp + |got|, delivered := d.delivered + got), Some(RWrap);
    case RWrap => d', next := d.(rp := Wrap(d.rp, d.cap)), Some(RRelease);
    case RAbort => d', next := Unlock(d), None;
    case RRelease => d', next := Unlock(d), Some(RWake);
    case RWake => d', next := d.(outq := {}), None;
  }

  lemma WriterCanRun(d: Device, t: Tid, c: Call, pc: WritePC) returns (d': Device, next: Option<WritePC>)
    requires pc.WLock? ==> d.lock == None
    requires pc.WSleep? ==> t !in d.outq
    requires HoldsLock(Write(pc)) ==> WriteHolder(d, c.data, pc)
    requires 0 < d.cap && d.wp <= d.cap
    ensures WriteStep(d, t, c, pc, false, d', next)
  {
    match pc
    case WLock => d', next := d.(lock := Some(t)), Some(WTest);
    case WTest => d', next := d, Some(if SpaceFree(d.rp, d.wp, d.cap) == 0 then WUnlock else WCopy);
    case WUnlock => d', next := Unlock(d), if c.nonblock then None else Some(WPrepare);
    case WPrepare => d', next := d.(outq := d.outq + {t}), Some(WRetest);
    case WRetest => d', next := d, Some(if SpaceFree(d.rp, d.wp, d.cap) == 0 then WSleep else WFinish);
    case WSleep => d', next := d, Some(WFinish);
    case WFinish => d', next := d.(outq := d.outq - {t}), Some(WLock);
    case WCopy =>
      WriteFits(d.buf, d.rp, d.wp, |c.data|);
      var n := WriteCount(d.rp, d.wp, d.cap, |c.data|);
      d', next := d.(buf := Splice(d.buf, d.wp, c.data[..n])), Some(WAdvance(n));
    case WAdvance(n) => d', next := d.(wp := d.wp + n, accepted := d.accepted + c.data[..n]), Some(WWrap);
    case WWrap => d', next := d.(wp := Wrap(d.wp, d.cap)), Some(WRelease);
    case WAbort => d', next := Unlock(d), None;
    case WRelease => d', next := Unlock(d), Some(WWake);
    case WWake => d', next := d.(inq := {}), None;
  }

  lemma OpenerCanRun(d: Device, t: Tid, c: Call, pc: OpenPC) returns (d': Device, next: Option<OpenPC>)
    requires pc.OLock? ==> d.lock == None
    ensures OpenStep(d, t, c, pc, false, d', next)
  {
    match pc
    case OLock => d', next := d.(lock := Some(t)), Some(OAlloc);
    case OAlloc => d', next := d, Some(if d.buf != [] then OResetWp else OAbort);
    case OResetWp => d', next := d.(wp := 0, accepted := [], delivered := []), Some(OResetRp);
    case OResetRp => d', next := d.(rp := 0, live := true), Some(OCount);
    case OCount =>
      d', next := d.(nreaders := d.nreaders + Tick(c.mode.read), nwriters := d.nwriters + Tick(c.mode.write),
                     files := d.files[c.fid := c.mode]), Some(OUnlock);
    case OAbort => d', next := Unlock(d), None;
    case OUnlock => d', next := Unlock(d), None;
  }

  lemma CloserCanRun(d: Device, t: Tid, c: Call, pc: ClosePC) returns (d': Device, next: Option<ClosePC>)
    requires pc.CLock? ==> d.lock == None
    ensures CloseStep(d, t, c, pc, d', next)
  {
    match pc
    case CLock => d', next := d.(lock := Some(t)), Some(CDrop);
    case CDrop =>
      d', next := d.(nreaders := d.nreaders - Tick(c.mode.read), nwriters := d.nwriters - Tick(c.mode.write),
                     files := d.files - {c.fid}), Some(CFree);
    case CFree => d', next := if d.nreaders == 0 && d.nwriters == 0 then d.(buf := [], live := false) else d, Some(CUnlock);
    case CUnlock => d', next := Unlock(d), None;
  }

  /** Only a taken mutex or a sleep in a wait queue stops a thread. */
  lemma Unblocked(s: State, t: Tid)
    requires Inv(s) && t in s.calls
    requires WaitsForLock(s.calls[t].pc) ==> s.d.lock == None
    requires !ReaderAsleep(s, t) && !WriterAsleep(s, t)
    ensures CanRun(s, t)
  {
    var c := s.calls[t];
    if HoldsLock(c.pc) && (c.pc.Read? || c.pc.Write?) {
      HolderIsLive(s, t);
    }
    var d';
    var e: Event;
    match c.pc {
      case Read(pc) =>
        var next;
        d', next := ReaderCanRun(s.d, t, c, pc);
        e := ReadTo(next);
      case Write(pc) =>
        assert CallInv(s.d.files, c);
        RingFacts(s);
        var next;
        d', next := WriterCanRun(s.d, t, c, pc);
        e := WriteTo(next);
      case Open(pc) =>
        var next;
        d', next := OpenerCanRun(s.d, t, c, pc);
        e := OpenTo(next);
      case Close(pc) =>
        var next;
        d', next := CloserCanRun(s.d, t, c, pc);
        e := CloseTo(next);
    }
    var s' := State(d', Move(s.calls, t, NextPC(e)));
    assert Step(s, t, false, e, s');
  }

  /** No lock-up: when nobody inside a call can move on, then either all of them are
      readers asleep on an empty pipe or all of them are writers asleep on a full one. */
  lemma NeverStuck(ss: seq<State>, acts: seq<Act>, i: nat)
    requires Run(ss, acts) && SafeResets(ss, acts) && i < |ss| && 2 <= ss[i].d.cap
    requires forall t :: t in ss[i].calls ==> !CanRun(ss[i], t)
    ensures (forall t :: t in ss[i].calls ==> ReaderAsleep(ss[i], t) && NothingToRead(ss[i].d))
            || (forall t :: t in ss[i].calls ==> WriterAsleep(ss[i], t) && NoRoom(ss[i].d))
  {
    RunInv(ss, acts, i);
    var s := ss[i];
    if s.d.lock.Some? {
      Unblocked(s, s.d.lock.value);
    }
    forall t | t in s.calls ensures ReaderAsleep(s, t) || WriterAsleep(s, t) {
      if !ReaderAsleep(s, t) && !WriterAsleep(s, t) {
        Unblocked(s, t);
      }
    }
    assert !InqWakePending(s) && !OutqWakePending(s);
    forall r, w | r in s.calls && w in s.calls ensures !(ReaderAsleep(s, r) && WriterAsleep(s, w)) {
      NoLostWakeup(ss, acts, i, r, w);
    }
    forall t | t in s.calls ensures ReaderAsleep(s, t) ==> NothingToRead(s.d) {
      NoLostWakeup(ss, acts, i, t, t);
    }
    forall t | t in s.calls ensures WriterAsleep(s, t) ==> NoRoom(s.d) {
      NoLostWakeup(ss, acts, i, t, t);
    }
  }
}
