/** Runs of the pipe in which an open leaves a writer asleep on an empty pipe, for every
    capacity: the wake-up claim for writers needs its condition on both stores of an open. */
module PipeStranded {
  import opened Kernel
  import opened Arithmetic
  import opened PipeRing
  import opened PipeProtocol
  import opened PipeWakeups
  import opened PipeTheorems

  const RW := Mode(true, true)

  /** An empty pipe; file 0 is open for reading and writing. */
  function Opened(buf: seq<byte>): Device {
    Device(|buf|, buf, None, 0, 0, 1, 1, {}, {}, map[0 := RW], true, [], [])
  }

  /** The same, full. */
  function Filled(buf: seq<byte>): Device
    requires 2 <= |buf|
  {
    Opened(buf).(wp := |buf| - 1, accepted := buf[..|buf| - 1])
  }

  /** The numbers that the steps below come to. */
  lemma RingNumbers(cap: nat)
    requires 2 <= cap
    ensures SpaceFree(0, 0, cap) == cap - 1 && WriteCount(0, 0, cap, cap - 1) == cap - 1
    ensures SpaceFree(0, cap - 1, cap) == 0 && SpaceFree(1, 0, cap) == 0
    ensures ReadCount(0, cap - 1, cap, 1) == 1 && Wrap(cap - 1, cap) == cap - 1 && Wrap(1, cap) == 1
  {
    DivUnique(1, cap, 0, 1);
    assert 1 + cap == 1 * cap + 1;
    DivUnique(1 + cap, cap, 1, 1);
  }

  /** A run, and the state it has reached. */
  ghost predicate Reached(ss: seq<State>, acts: seq<Act>, s: State) {
    Run(ss, acts) && ss[|acts|] == s
  }

  lemma Extend(ss: seq<State>, acts: seq<Act>, s: State, t: Tid, e: Event, s': State)
    returns (ss': seq<State>, acts': seq<Act>)
    requires Reached(ss, acts, s) && Step(s, t, false, e, s')
    ensures Reached(ss', acts', s')
    ensures ss' == ss + [s'] && acts' == acts + [Act(t, false, e)]
  {
    ss', acts' := ss + [s'], acts + [Act(t, false, e)];
  }

  /** Moves thread t on in its call. */
  lemma Go(ss: seq<State>, acts: seq<Act>, s: State, t: Tid, e: Event, d': Device)
    returns (ss': seq<State>, acts': seq<Act>, s': State)
    requires Reached(ss, acts, s) && !e.Enter? && t in s.calls && DeviceStep(s.d, t, s.calls[t], false, e, d')
    ensures s' == State(d', Move(s.calls, t, NextPC(e))) && Reached(ss', acts', s')
  {
    s' := State(d', Move(s.calls, t, NextPC(e)));
    ss', acts' := Extend(ss, acts, s, t, e, s');
  }

  lemma OpenFirst(buf: seq<byte>) returns (ss: seq<State>, acts: seq<Act>)
    requires 2 <= |buf|
    ensures Reached(ss, acts, State(Opened(buf), map[]))
  {
    var d := Device(|buf|, [], None, 0, 0, 0, 0, {}, {}, map[], false, [], []);
    var s := State(d, map[]);
    ss, acts := [s], [];
    var c := Call(Open(OLock), 0, RW, false, 0, []);
    var s1 := s.(calls := map[0 := c]);
    ss, acts := Extend(ss, acts, s, 0, Enter(c), s1);
    hide Reached, Inv;
    d := d.(lock := Some(0));
    ss, acts, s := Go(ss, acts, s1, 0, OpenTo(Some(OAlloc)), d);
    d := d.(buf := buf);
    ss, acts, s := Go(ss, acts, s, 0, OpenTo(Some(OResetWp)), d);
    ss, acts, s := Go(ss, acts, s, 0, OpenTo(Some(OResetRp)), d);
    d := d.(live := true);
    ss, acts, s := Go(ss, acts, s, 0, OpenTo(Some(OCount)), d);
    d := d.(nreaders := 1, nwriters := 1, files := map[0 := RW]);
    ss, acts, s := Go(ss, acts, s, 0, OpenTo(Some(OUnlock)), d);
    ss, acts, s := Go(ss, acts, s, 0, OpenTo(None), Unlock(d));
    assert s == State(Opened(buf), map[]);
  }

  /** A write that fills the pipe. */
  function Filling(buf: seq<byte>): Call
    requires 2 <= |buf|
  {
    Call(Write(WLock), 0, RW, false, 0, buf[..|buf| - 1])
  }

  lemma EnterWrite(ss0: seq<State>, acts0: seq<Act>, buf: seq<byte>) returns (ss: seq<State>, acts: seq<Act>)
    requires 2 <= |buf| && Reached(ss0, acts0, State(Opened(buf), map[]))
    ensures Reached(ss, acts, State(Opened(buf).(lock := Some(0)), map[0 := Filling(buf).(pc := Write(WAdvance(|buf| - 1)))]))
  {
    var d := Opened(buf);
    var s := State(d, map[]);
    var c := Filling(buf);
    var n := |buf| - 1;
    RingNumbers(|buf|);
    hide Reached, SpaceFree, WriteCount;
    var s1 := s.(calls := map[0 := c]);
    ss, acts := Extend(ss0, acts0, s, 0, Enter(c), s1);
    d := d.(lock := Some(0));
    ss, acts, s := Go(ss, acts, s1, 0, WriteTo(Some(WTest)), d);
    ss, acts, s := Go(ss, acts, s, 0, WriteTo(Some(WCopy)), d);
    assert c.data[..n] == c.data && Splice(buf, 0, c.data) == buf;
    assert d == d.(buf := d.buf);
    ss, acts, s := Go(ss, acts, s, 0, WriteTo(Some(WAdvance(n))), d);
    assert s.calls == map[0 := c.(pc := Write(WAdvance(n)))];
  }

  lemma FillUp(ss0: seq<State>, acts0: seq<Act>, buf: seq<byte>) returns (ss: seq<State>, acts: seq<Act>)
    requires 2 <= |buf|
    requires Reached(ss0, acts0, State(Opened(buf).(lock := Some(0)), map[0 := Filling(buf).(pc := Write(WAdvance(|buf| - 1)))]))
    ensures Reached(ss, acts, State(Filled(buf), map[]))
  {
    var n := |buf| - 1;
    var d := Opened(buf).(lock := Some(0));
    var s := State(d, map[0 := Filling(buf).(pc := Write(WAdvance(n)))]);
    hide Reached;
    d := d.(wp := n, accepted := buf[..n]);
    assert [] + Filling(buf).data[..n] == buf[..n];
    ss, acts, s := Go(ss0, acts0, s, 0, WriteTo(Some(WWrap)), d);
    ss, acts, s := Go(ss, acts, s, 0, WriteTo(Some(WRelease)), d);
    d := Unlock(d);
    ss, acts, s := Go(ss, acts, s, 0, WriteTo(Some(WWake)), d);
    ss, acts, s := Go(ss, acts, s, 0, WriteTo(None), d);
    assert s == State(Filled(buf), map[]);
  }

  /** Another write, which finds the pipe full. */
  function Blocked(pc: WritePC): Call {
    Call(Write(pc), 0, RW, false, 0, [7])
  }

  /** It has seen that and given back the mutex. */
  lemma FindFull(ss0: seq<State>, acts0: seq<Act>, buf: seq<byte>) returns (ss: seq<State>, acts: seq<Act>)
    requires 2 <= |buf| && Reached(ss0, acts0, State(Filled(buf), map[]))
    ensures Reached(ss, acts, State(Filled(buf), map[0 := Blocked(WPrepare)]))
  {
    var d := Filled(buf);
    var s := State(d, map[]);
    var s1 := s.(calls := map[0 := Blocked(WLock)]);
    RingNumbers(|buf|);
    hide Reached, SpaceFree;
    ss, acts := Extend(ss0, acts0, s, 0, Enter(Blocked(WLock)), s1);
    d := d.(lock := Some(0));
    ss, acts, s := Go(ss, acts, s1, 0, WriteTo(Some(WTest)), d);
    ss, acts, s := Go(ss, acts, s, 0, WriteTo(Some(WUnlock)), d);
    d := Unlock(d);
    ss, acts, s := Go(ss, acts, s, 0, WriteTo(Some(WPrepare)), d);
    assert s == State(Filled(buf), map[0 := Blocked(WPrepare)]);
  }

  lemma Fill(cap: nat) returns (ss: seq<State>, acts: seq<Act>, buf: seq<byte>)
    requires 2 <= cap
    ensures |buf| == cap && Reached(ss, acts, State(Filled(buf), map[0 := Blocked(WPrepare)]))
  {
    buf := seq(cap, _ => 7 as byte);
    ss, acts := OpenFirst(buf);
    ss, acts := EnterWrite(ss, acts, buf);
    ss, acts := FillUp(ss, acts, buf);
    ss, acts := FindFull(ss, acts, buf);
  }

  // ---- a writer that was asleep when the open came ----

  lemma FallAsleep(ss0: seq<State>, acts0: seq<Act>, buf: seq<byte>) returns (ss: seq<State>, acts: seq<Act>)
    requires 2 <= |buf| && Reached(ss0, acts0, State(Filled(buf), map[0 := Blocked(WPrepare)]))
    ensures Reached(ss, acts, State(Filled(buf).(outq := {0}), map[0 := Blocked(WSleep)]))
  {
    var d := Filled(buf).(outq := {0});
    var s := State(Filled(buf), map[0 := Blocked(WPrepare)]);
    RingNumbers(|buf|);
    hide Reached, SpaceFree;
    ss, acts, s := Go(ss0, acts0, s, 0, WriteTo(Some(WRetest)), d);
    ss, acts, s := Go(ss, acts, s, 0, WriteTo(Some(WSleep)), d);
    assert s == State(d, map[0 := Blocked(WSleep)]);
  }

  /** Another open of the pipe, by thread 1. */
  function Opening(pc: OpenPC): Call {
    Call(Open(pc), 1, RW, false, 0, [])
  }

  /** It comes as far as its first store. */
  lemma BeginReset(ss0: seq<State>, acts0: seq<Act>, s0: State) returns (ss: seq<State>, acts: seq<Act>)
    requires Reached(ss0, acts0, s0) && s0.d.lock == None && s0.d.buf != [] && s0.d.files == map[0 := RW]
    requires 0 in s0.calls && s0.calls.Keys == {0} && s0.calls[0].fid == 0
    ensures Reached(ss, acts, State(s0.d.(lock := Some(1)), s0.calls[1 := Opening(OResetWp)]))
  {
    var s := s0.(calls := s0.calls[1 := Opening(OLock)]);
    ss, acts := Extend(ss0, acts0, s0, 1, Enter(Opening(OLock)), s);
    hide Reached;
    var d := s0.d.(lock := Some(1));
    ss, acts, s := Go(ss, acts, s, 1, OpenTo(Some(OAlloc)), d);
    ss, acts, s := Go(ss, acts, s, 1, OpenTo(Some(OResetWp)), d);
    assert s == State(d, s0.calls[1 := Opening(OResetWp)]);
  }

  lemma StoreWp(ss0: seq<State>, acts0: seq<Act>, s0: State) returns (ss: seq<State>, acts: seq<Act>, s: State)
    requires Reached(ss0, acts0, s0) && 1 in s0.calls && s0.calls[1] == Opening(OResetWp)
    ensures Reached(ss, acts, s) && ss == ss0 + [s] && acts == acts0 + [Act(1, false, OpenTo(Some(OResetRp)))]
    ensures s == State(s0.d.(wp := 0, accepted := [], delivered := []), s0.calls[1 := Opening(OResetRp)])
  {
    s := State(s0.d.(wp := 0, accepted := [], delivered := []), s0.calls[1 := Opening(OResetRp)]);
    ss, acts := Extend(ss0, acts0, s0, 1, OpenTo(Some(OResetRp)), s);
  }

  lemma StoreRp(ss0: seq<State>, acts0: seq<Act>, s0: State) returns (ss: seq<State>, acts: seq<Act>, s: State)
    requires Reached(ss0, acts0, s0) && 1 in s0.calls && s0.calls[1] == Opening(OResetRp)
    ensures Reached(ss, acts, s) && ss == ss0 + [s] && acts == acts0 + [Act(1, false, OpenTo(Some(OCount)))]
    ensures s == State(s0.d.(rp := 0, live := true), s0.calls[1 := Opening(OCount)])
  {
    s := State(s0.d.(rp := 0, live := true), s0.calls[1 := Opening(OCount)]);
    ss, acts := Extend(ss0, acts0, s0, 1, OpenTo(Some(OCount)), s);
  }

  /** What a stranded writer looks like. */
  ghost predicate Stranded(s: State) {
    WriterAsleep(s, 0) && NothingToRead(s.d) && !Full(s.d) && !OutqWakePending(s)
  }

  lemma AfterReset(s: State, buf: seq<byte>)
    requires 2 <= |buf| && s.d.cap == |buf| && s.d.buf == buf && s.d.live && s.d.rp == s.d.wp == 0
    requires s.d.accepted == s.d.delivered == [] && s.d.outq == {0}
    requires s.calls == map[0 := Blocked(WSleep), 1 := Opening(OCount)]
    ensures Stranded(s)
  {
  }

  /** Such a run has an unsafe store. */
  lemma NotSafe(ss: seq<State>, acts: seq<Act>, s: State)
    requires Reached(ss, acts, s) && Stranded(s)
    ensures !NoWriterForgotten(s) && !SafeResets(ss, acts)
  {
    if SafeResets(ss, acts) {
      RunInv(ss, acts, |acts|);
    }
  }

  /** For every capacity: an open empties the pipe under a sleeping writer, which sleeps on,
      and nobody will wake it. */
  lemma OpenStrandsAWriter(cap: nat) returns (ss: seq<State>, acts: seq<Act>, s: State)
    requires 2 <= cap
    ensures Reached(ss, acts, s) && s.d.cap == cap && Stranded(s)
    ensures !NoWriterForgotten(s) && !SafeResets(ss, acts)
  {
    hide Reached, Stranded;
    var buf;
    ss, acts, buf := Fill(cap);
    ss, acts := FallAsleep(ss, acts, buf);
    s := State(Filled(buf).(outq := {0}), map[0 := Blocked(WSleep)]);
    ss, acts := BeginReset(ss, acts, s);
    s := State(s.d.(lock := Some(1)), s.calls[1 := Opening(OResetWp)]);
    ss, acts, s := StoreWp(ss, acts, s);
    ss, acts, s := StoreRp(ss, acts, s);
    assert s.calls == map[0 := Blocked(WSleep), 1 := Opening(OCount)];
    AfterReset(s, buf);
    NotSafe(ss, acts, s);
  }

  // ---- a writer that falls asleep between the two stores ----

  /** A read of one byte, by thread 2. */
  function Reading(pc: ReadPC): Call {
    Call(Read(pc), 0, RW, false, 1, [])
  }

  /** The full pipe without its oldest byte. */
  function OneTaken(buf: seq<byte>): Device
    requires 2 <= |buf|
  {
    Filled(buf).(rp := 1, delivered := buf[..1])
  }

  lemma TakeOne(ss0: seq<State>, acts0: seq<Act>, buf: seq<byte>) returns (ss: seq<State>, acts: seq<Act>)
    requires 2 <= |buf| && Reached(ss0, acts0, State(Filled(buf), map[0 := Blocked(WPrepare)]))
    ensures Reached(ss, acts, State(OneTaken(buf).(lock := Some(2)), map[0 := Blocked(WPrepare), 2 := Reading(RWrap)]))
  {
    RingNumbers(|buf|);
    var d := Filled(buf);
    var s := State(d, map[0 := Blocked(WPrepare)]);
    var s1 := s.(calls := s.calls[2 := Reading(RLock)]);
    ss, acts := Extend(ss0, acts0, s, 2, Enter(Reading(RLock)), s1);
    hide Reached, ReadCount;
    d := d.(lock := Some(2));
    ss, acts, s := Go(ss, acts, s1, 2, ReadTo(Some(RTest)), d);
    ss, acts, s := Go(ss, acts, s, 2, ReadTo(Some(RCopy)), d);
    assert buf[0..1] == buf[..1] && [] + buf[..1] == buf[..1];
    ss, acts, s := Go(ss, acts, s, 2, ReadTo(Some(RAdvance(buf[..1]))), d);
    ss, acts, s := Go(ss, acts, s, 2, ReadTo(Some(RWrap)), OneTaken(buf).(lock := Some(2)));
    assert s.calls == map[0 := Blocked(WPrepare), 2 := Reading(RWrap)];
  }

  /** The reader leaves, having woken a queue that the writer has not joined yet; only then
      does the writer join it. */
  lemma JoinLate(ss0: seq<State>, acts0: seq<Act>, buf: seq<byte>) returns (ss: seq<State>, acts: seq<Act>)
    requires 2 <= |buf|
    requires Reached(ss0, acts0, State(OneTaken(buf).(lock := Some(2)), map[0 := Blocked(WPrepare), 2 := Reading(RWrap)]))
    ensures Reached(ss, acts, State(OneTaken(buf).(outq := {0}), map[0 := Blocked(WRetest)]))
  {
    RingNumbers(|buf|);
    hide Reached;
    var d := OneTaken(buf);
    var s := State(d.(lock := Some(2)), map[0 := Blocked(WPrepare), 2 := Reading(RWrap)]);
    ss, acts, s := Go(ss0, acts0, s, 2, ReadTo(Some(RRelease)), d.(lock := Some(2)));
    ss, acts, s := Go(ss, acts, s, 2, ReadTo(Some(RWake)), d);
    ss, acts, s := Go(ss, acts, s, 2, ReadTo(None), d);
    assert s == State(d, map[0 := Blocked(WPrepare)]);
    ss, acts, s := Go(ss, acts, s, 0, WriteTo(Some(WRetest)), d.(outq := {0}));
    assert s == State(d.(outq := {0}), map[0 := Blocked(WRetest)]);
  }

  /** The re-test between the stores sees rp == 1 and wp == 0, which looks full. */
  lemma FallAsleepMidReset(ss0: seq<State>, acts0: seq<Act>, s0: State) returns (ss: seq<State>, acts: seq<Act>, s: State)
    requires Reached(ss0, acts0, s0) && 2 <= s0.d.cap && s0.d.rp == 1 && s0.d.wp == 0
    requires 0 in s0.calls && s0.calls[0] == Blocked(WRetest)
    ensures Reached(ss, acts, s) && s == State(s0.d, s0.calls[0 := Blocked(WSleep)])
    ensures ss == ss0 + [s] && acts == acts0 + [Act(0, false, WriteTo(Some(WSleep)))]
  {
    RingNumbers(s0.d.cap);
    s := State(s0.d, s0.calls[0 := Blocked(WSleep)]);
    ss, acts := Extend(ss0, acts0, s0, 0, WriteTo(Some(WSleep)), s);
  }

  /** For every capacity, and with nobody asleep when the reset begins: a writer that
      re-tests between the two stores goes to sleep on a pipe that has room, and the second
      store leaves it there. The first store of this run is safe, the second is not. */
  lemma SpuriousFullStrandsAWriter(cap: nat) returns (ss: seq<State>, acts: seq<Act>, s: State)
    requires 2 <= cap
    ensures Reached(ss, acts, s) && s.d.cap == cap && Stranded(s)
    ensures !NoWriterForgotten(s) && !SafeResets(ss, acts)
    ensures var n := |acts|;
            && 3 <= n && acts[n - 3].t == 1 && acts[n - 3].e == OpenTo(Some(OResetRp)) && SafeReset(ss[n - 3])
            && acts[n - 2] == Act(0, false, WriteTo(Some(WSleep))) && HolderAt(ss[n - 2], Open(OResetRp)) && Full(ss[n - 2].d)
            && acts[n - 1].t == 1 && acts[n - 1].e == OpenTo(Some(OCount)) && !SafeReset(ss[n - 1])
  {
    hide Reached, Stranded;
    var buf;
    ss, acts, buf := Fill(cap);
    ss, acts := TakeOne(ss, acts, buf);
    ss, acts := JoinLate(ss, acts, buf);
    var s0 := State(OneTaken(buf).(outq := {0}), map[0 := Blocked(WRetest)]);
    ss, acts := BeginReset(ss, acts, s0);
    var s1 := State(s0.d.(lock := Some(1)), s0.calls[1 := Opening(OResetWp)]);
    ReachedLast(ss, acts, s1);
    var s2, s3;
    ss, acts, s2 := StoreWp(ss, acts, s1);
    ss, acts, s3 := FallAsleepMidReset(ss, acts, s2);
    ReachedLast(ss, acts, s3);
    ss, acts, s := StoreRp(ss, acts, s3);
    ReachedLast(ss, acts, s);
    assert s.calls == map[0 := Blocked(WSleep), 1 := Opening(OCount)];
    AfterReset(s, buf);
    NotSafe(ss, acts, s);
    MidNumbers(s1, s2, s3, buf);
  }

  lemma ReachedLast(ss: seq<State>, acts: seq<Act>, s: State)
    requires Reached(ss, acts, s)
    ensures |ss| == |acts| + 1 && ss[|acts|] == s
  {
  }

  lemma MidNumbers(s1: State, s2: State, s3: State, buf: seq<byte>)
    requires 2 <= |buf| && s1.d == OneTaken(buf).(outq := {0}, lock := Some(1))
    requires s1.calls == map[0 := Blocked(WRetest), 1 := Opening(OResetWp)]
    requires s2 == State(s1.d.(wp := 0, accepted := [], delivered := []), s1.calls[1 := Opening(OResetRp)])
    requires s3 == State(s2.d, s2.calls[0 := Blocked(WSleep)])
    ensures SafeReset(s1) && HolderAt(s2, Open(OResetRp)) && Full(s2.d) && !SafeReset(s3)
  {
    RingNumbers(|buf|);
    assert WriterAsleep(s3, 0);
  }
}
