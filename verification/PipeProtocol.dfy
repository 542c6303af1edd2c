/** scull_pipe.c as an interleaving of any number of threads.

    Every shared access of the source is a step of its own: taking and releasing the
    mutex, the tests made with and without it, joining and leaving a wait queue,
    each half of the two-step pointer updates, each of the two stores of a reset, and the
    wake-up after the unlock. Memory is sequentially consistent, and one evaluation of
    `spacefree` or of `rp != wp` is one step. */
module PipeProtocol {
  import opened Kernel
  import opened PipeRing

  type Tid = nat
  type Fid = nat

  datatype Mode = Mode(read: bool, write: bool)

  /** Where a thread stands; the name is what it does next.
      R: scull_pipe_read, W: scull_pipe_write, O: scull_pipe_open, C: scull_pipe_release. */
  datatype ReadPC =
    | RLock | RTest | RUnlock | RPeek | RPrepare | RRetest(signalled: bool) | RSleep | RFinish
    | RCopy | RAdvance(got: seq<byte>) | RWrap | RAbort | RRelease | RWake
  datatype WritePC =
    | WLock | WTest | WUnlock | WPrepare | WRetest | WSleep | WFinish
    | WCopy | WAdvance(n: nat) | WWrap | WAbort | WRelease | WWake
  datatype OpenPC = OLock | OAlloc | OResetWp | OResetRp | OCount | OAbort | OUnlock
  datatype ClosePC = CLock | CDrop | CFree | CUnlock
  datatype PC = Read(r: ReadPC) | Write(w: WritePC) | Open(o: OpenPC) | Close(c: ClosePC)

  /** A system call in progress: on which open file, with which arguments. */
  datatype Call = Call(pc: PC, fid: Fid, mode: Mode, nonblock: bool, want: nat, data: seq<byte>)

  /** The device. A thread in a wait queue is not runnable while it is in schedule(). */
  datatype Device = Device(
    cap: nat,                  // scull_p_buffer
    buf: seq<byte>,            // [] while no buffer is allocated
    lock: Option<Tid>,         // the mutex and who holds it
    rp: nat, wp: nat,
    nreaders: int, nwriters: int,
    inq: set<Tid>, outq: set<Tid>,
    files: map<Fid, Mode>,     // files that are open and not yet being closed down
    // history since the last reset by an open
    live: bool,                // the buffer is allocated and its pointers have been set
    accepted: seq<byte>, delivered: seq<byte>)

  /** The device and the threads that are inside a call. */
  datatype State = State(d: Device, calls: map<Tid, Call>)

  predicate Init(s: State) {
    && 0 < s.d.cap
    && s == State(Device(s.d.cap, [], None, 0, 0, 0, 0, {}, {}, map[], false, [], []), map[])
  }

  /** Between a successful lock and the matching unlock. */
  predicate HoldsLock(pc: PC) {
    match pc
    case Read(r) => r.RTest? || r.RUnlock? || r.RCopy? || r.RAdvance? || r.RWrap? || r.RAbort? || r.RRelease?
    case Write(w) => w.WTest? || w.WUnlock? || w.WCopy? || w.WAdvance? || w.WWrap? || w.WAbort? || w.WRelease?
    case Open(o) => !o.OLock?
    case Close(c) => !c.CLock?
  }

  // ---- steps ----

  /** mutex_lock_interruptible: takes a free mutex, or gives up on a signal (next == None). */
  predicate LockOrQuit(d: Device, t: Tid, signal: bool, d': Device, locked: bool) {
    if locked then d.lock == None && d' == d.(lock := Some(t)) else signal && d' == d
  }

  function Unlock(d: Device): Device {
    d.(lock := None)
  }

  /** The pointers a thread may use once it knows that a buffer is there. */
  predicate InRange(d: Device) {
    d.rp < d.cap && d.wp < d.cap && |d.buf| == d.cap
  }

  /** One step of scull_pipe_read; next is None when the call returns. */
  predicate ReadStep(d: Device, t: Tid, c: Call, pc: ReadPC, signal: bool, d': Device, next: Option<ReadPC>) {
    match pc
    case RLock => LockOrQuit(d, t, signal, d', next == Some(RTest)) && next in {Some(RTest), None}
    case RTest => d' == d && next == Some(if d.rp == d.wp then RUnlock else RCopy)
    case RUnlock => d' == Unlock(d) && next == if c.nonblock then None else Some(RPeek)
    // wait_event_interruptible(inq, rp != wp)
    case RPeek => d' == d && next == Some(if d.rp != d.wp then RLock else RPrepare)
    case RPrepare => d' == d.(inq := if signal then d.inq - {t} else d.inq + {t}) && next == Some(RRetest(signal))
    case RRetest(signalled) =>
      d' == d && next == if d.rp != d.wp then Some(RFinish) else if signalled then None else Some(RSleep)
    case RSleep => (t !in d.inq || signal) && d' == d && next == Some(RPrepare)
    case RFinish => d' == d.(inq := d.inq - {t}) && next == Some(RLock)
    // data is there
    case RCopy =>
      && InRange(d) && d' == d
      && var n := ReadCount(d.rp, d.wp, d.cap, c.want);
      && d.rp + n <= d.cap
      && next in {Some(RAdvance(d.buf[d.rp..d.rp + n])), Some(RAbort)}
    case RAdvance(got) => d' == d.(rp := d.rp + |got|, delivered := d.delivered + got) && next == Some(RWrap)
    case RWrap => d' == d.(rp := Wrap(d.rp, d.cap)) && next == Some(RRelease)
    case RAbort => d' == Unlock(d) && next == None
    case RRelease => d' == Unlock(d) && next == Some(RWake)
    case RWake => d' == d.(outq := {}) && next == None
  }

  /** One step of scull_pipe_write, with scull_getwritespace inlined. */
  predicate WriteStep(d: Device, t: Tid, c: Call, pc: WritePC, signal: bool, d': Device, next: Option<WritePC>) {
    match pc
    case WLock => LockOrQuit(d, t, signal, d', next == Some(WTest)) && next in {Some(WTest), None}
    case WTest =>
      && 0 < d.cap && d.wp <= d.cap && d' == d
      && next == Some(if SpaceFree(d.rp, d.wp, d.cap) == 0 then WUnlock else WCopy)
    case WUnlock => d' == Unlock(d) && next == if c.nonblock then None else Some(WPrepare)
    case WPrepare => d' == d.(outq := d.outq + {t}) && next == Some(WRetest)
    case WRetest =>
      && 0 < d.cap && d.wp <= d.cap && d' == d
      && next == Some(if SpaceFree(d.rp, d.wp, d.cap) == 0 then WSleep else WFinish)
    case WSleep => (t !in d.outq || signal) && d' == d && next == Some(WFinish)
    case WFinish => d' == d.(outq := d.outq - {t}) && next == if signal then None else Some(WLock)
    // space is there
    case WCopy =>
      && InRange(d)
      && var n := WriteCount(d.rp, d.wp, d.cap, |c.data|);
      && 0 <= n <= |c.data| && d.wp + n <= d.cap
      && |d'.buf| == d.cap && d' == d.(buf := d'.buf)
      && (|| (next == Some(WAdvance(n)) && d'.buf == Splice(d.buf, d.wp, c.data[..n]))
          || (next == Some(WAbort) && d'.buf == Splice(d.buf, d.wp, d'.buf[d.wp..d.wp + n])))
    case WAdvance(n) =>
      && n <= |c.data|
      && d' == d.(wp := d.wp + n, accepted := d.accepted + c.data[..n]) && next == Some(WWrap)
    case WWrap => d' == d.(wp := Wrap(d.wp, d.cap)) && next == Some(WRelease)
    case WAbort => d' == Unlock(d) && next == None
    case WRelease => d' == Unlock(d) && next == Some(WWake)
    case WWake => d' == d.(inq := {}) && next == None
  }

  function Tick(b: bool): int {
    if b then 1 else 0
  }

  predicate OpenStep(d: Device, t: Tid, c: Call, pc: OpenPC, signal: bool, d': Device, next: Option<OpenPC>) {
    match pc
    case OLock => LockOrQuit(d, t, signal, d', next == Some(OAlloc)) && next in {Some(OAlloc), None}
    case OAlloc =>
      if d.buf != [] then d' == d && next == Some(OResetWp)
      else || (next == Some(OAbort) && d' == d)
           || (next == Some(OResetWp) && |d'.buf| == d.cap && d' == d.(buf := d'.buf))
    // rp = wp = buffer: two stores
    case OResetWp => d' == d.(wp := 0, accepted := [], delivered := []) && next == Some(OResetRp)
    case OResetRp => d' == d.(rp := 0, live := true) && next == Some(OCount)
    case OCount =>
      && d' == d.(nreaders := d.nreaders + Tick(c.mode.read), nwriters := d.nwriters + Tick(c.mode.write),
                  files := d.files[c.fid := c.mode])
      && next == Some(OUnlock)
    case OAbort => d' == Unlock(d) && next == None
    case OUnlock => d' == Unlock(d) && next == None
  }

  predicate CloseStep(d: Device, t: Tid, c: Call, pc: ClosePC, d': Device, next: Option<ClosePC>) {
    match pc
    case CLock => d.lock == None && d' == d.(lock := Some(t)) && next == Some(CDrop)
    case CDrop =>
      && d' == d.(nreaders := d.nreaders - Tick(c.mode.read), nwriters := d.nwriters - Tick(c.mode.write),
                  files := d.files - {c.fid})
      && next == Some(CFree)
    case CFree =>
      && d' == (if d.nreaders == 0 && d.nwriters == 0 then d.(buf := [], live := false) else d)
      && next == Some(CUnlock)
    case CUnlock => d' == Unlock(d) && next == None
  }

  /** What happens: a thread enters a call, or moves on in the one it is in (None: returns). */
  datatype Event =
    | Enter(call: Call)
    | ReadTo(r: Option<ReadPC>) | WriteTo(w: Option<WritePC>) | OpenTo(o: Option<OpenPC>) | CloseTo(c: Option<ClosePC>)

  /** The virtual file system lets a thread read or write only on a file opened for
      that, and calls release once, when no call uses the file any more. */
  predicate MayEnter(s: State, c: Call) {
    match c.pc
    case Read(r) => r.RLock? && Usable(s, c.fid) && s.d.files[c.fid].read
    case Write(w) => w.WLock? && Usable(s, c.fid) && s.d.files[c.fid].write
    case Open(o) => o.OLock? && c.fid !in s.d.files && Unused(s, c.fid)
    case Close(p) => p.CLock? && c.fid in s.d.files && c.mode == s.d.files[c.fid] && Unused(s, c.fid)
  }

  predicate Usable(s: State, fid: Fid) {
    && fid in s.d.files
    && forall u :: u in s.calls && (s.calls[u].pc.Open? || s.calls[u].pc.Close?) ==> s.calls[u].fid != fid
  }

  predicate Unused(s: State, fid: Fid) {
    forall u :: u in s.calls ==> s.calls[u].fid != fid
  }

  function Move(calls: map<Tid, Call>, t: Tid, pc: Option<PC>): map<Tid, Call>
    requires t in calls
  {
    if pc.None? then calls - {t} else calls[t := calls[t].(pc := pc.value)]
  }

  function NextPC(e: Event): Option<PC>
    requires !e.Enter?
  {
    match e
    case ReadTo(r) => if r.None? then None else Some(Read(r.value))
    case WriteTo(w) => if w.None? then None else Some(Write(w.value))
    case OpenTo(o) => if o.None? then None else Some(Open(o.value))
    case CloseTo(c) => if c.None? then None else Some(Close(c.value))
  }

  predicate DeviceStep(d: Device, t: Tid, c: Call, signal: bool, e: Event, d': Device) {
    match c.pc
    case Read(pc) => e.ReadTo? && ReadStep(d, t, c, pc, signal, d', e.r)
    case Write(pc) => e.WriteTo? && WriteStep(d, t, c, pc, signal, d', e.w)
    case Open(pc) => e.OpenTo? && OpenStep(d, t, c, pc, signal, d', e.o)
    case Close(pc) => e.CloseTo? && CloseStep(d, t, c, pc, d', e.c)
  }

  predicate Step(s: State, t: Tid, signal: bool, e: Event, s': State) {
    if e.Enter? then t !in s.calls && MayEnter(s, e.call) && s' == s.(calls := s.calls[t := e.call])
    else
      && t in s.calls
      && DeviceStep(s.d, t, s.calls[t], signal, e, s'.d)
      && s'.calls == Move(s.calls, t, NextPC(e))
  }

  // ---- the mutex ----

  ghost predicate LockInv(s: State) {
    && (forall t :: t in s.calls ==> (HoldsLock(s.calls[t].pc) <==> s.d.lock == Some(t)))
    && (s.d.lock.Some? ==> s.d.lock.value in s.calls)
  }

  /** A step takes the mutex only when it is free and gives back only its own. */
  lemma LockEffect(d: Device, t: Tid, c: Call, signal: bool, e: Event, d': Device)
    requires DeviceStep(d, t, c, signal, e, d')
    requires HoldsLock(c.pc) <==> d.lock == Some(t)
    ensures (NextPC(e).Some? && HoldsLock(NextPC(e).value)) <==> d'.lock == Some(t)
    ensures d'.lock == d.lock || (d.lock == None && d'.lock == Some(t)) || (d.lock == Some(t) && d'.lock == None)
  {
    hide DeviceStep;
    match c.pc
    case Read(_) => ReadLock(d, t, c, signal, e, d');
    case Write(_) => WriteLock(d, t, c, signal, e, d');
    case Open(_) => OpenLock(d, t, c, signal, e, d');
    case Close(_) => CloseLock(d, t, c, signal, e, d');
  }

  /** How a step bears on the mutex. */
  ghost predicate LockMoves(d: Device, t: Tid, next: Option<PC>, d': Device) {
    && ((next.Some? && HoldsLock(next.value)) <==> d'.lock == Some(t))
    && (d'.lock == d.lock || (d.lock == None && d'.lock == Some(t)) || (d.lock == Some(t) && d'.lock == None))
  }

  lemma ReadLock(d: Device, t: Tid, c: Call, signal: bool, e: Event, d': Device)
    requires c.pc.Read? && DeviceStep(d, t, c, signal, e, d') && (HoldsLock(c.pc) <==> d.lock == Some(t))
    ensures LockMoves(d, t, NextPC(e), d')
  {
  }

  lemma WriteLock(d: Device, t: Tid, c: Call, signal: bool, e: Event, d': Device)
    requires c.pc.Write? && DeviceStep(d, t, c, signal, e, d') && (HoldsLock(c.pc) <==> d.lock == Some(t))
    ensures LockMoves(d, t, NextPC(e), d')
  {
  }

  lemma OpenLock(d: Device, t: Tid, c: Call, signal: bool, e: Event, d': Device)
    requires c.pc.Open? && DeviceStep(d, t, c, signal, e, d') && (HoldsLock(c.pc) <==> d.lock == Some(t))
    ensures LockMoves(d, t, NextPC(e), d')
  {
  }

  lemma CloseLock(d: Device, t: Tid, c: Call, signal: bool, e: Event, d': Device)
    requires c.pc.Close? && DeviceStep(d, t, c, signal, e, d') && (HoldsLock(c.pc) <==> d.lock == Some(t))
    ensures LockMoves(d, t, NextPC(e), d')
  {
  }

  lemma LockStep(s: State, t: Tid, signal: bool, e: Event, s': State)
    requires LockInv(s) && Step(s, t, signal, e, s')
    ensures LockInv(s')
  {
    if !e.Enter? {
      LockEffect(s.d, t, s.calls[t], signal, e, s'.d);
    }
  }

  // ---- open files, counters and the life of the buffer ----

  function Readers(files: map<Fid, Mode>): set<Fid> {
    set f | f in files && files[f].read
  }

  function Writers(files: map<Fid, Mode>): set<Fid> {
    set f | f in files && files[f].write
  }

  ghost predicate CallInv(files: map<Fid, Mode>, c: Call) {
    match c.pc
    case Read(_) => c.fid in files && files[c.fid].read
    case Write(_) => c.fid in files && files[c.fid].write
    case Open(o) => o.OUnlock? || c.fid !in files
    case Close(p) => p.CLock? || p.CDrop? ==> c.fid in files && files[c.fid] == c.mode
  }

  /** A file that is being opened or closed is in nobody else's hands. */
  ghost predicate FilesInv(s: State) {
    && (forall t :: t in s.calls ==> CallInv(s.d.files, s.calls[t]))
    && (forall t, u :: t in s.calls && u in s.calls && t != u && (s.calls[t].pc.Open? || s.calls[t].pc.Close?)
          ==> s.calls[t].fid != s.calls[u].fid)
  }

  lemma FilesEffect(d: Device, t: Tid, c: Call, signal: bool, e: Event, d': Device)
    requires DeviceStep(d, t, c, signal, e, d') && CallInv(d.files, c)
    ensures NextPC(e).Some? ==> CallInv(d'.files, c.(pc := NextPC(e).value))
    ensures d'.files == d.files || ((c.pc.Open? || c.pc.Close?) && forall f :: f != c.fid ==> (f in d'.files <==> f in d.files))
    ensures forall f :: f != c.fid && f in d.files && f in d'.files ==> d'.files[f] == d.files[f]
  {
  }

  lemma FilesStep(s: State, t: Tid, signal: bool, e: Event, s': State)
    requires FilesInv(s) && Step(s, t, signal, e, s')
    ensures FilesInv(s')
  {
    if !e.Enter? {
      FilesEffect(s.d, t, s.calls[t], signal, e, s'.d);
    }
  }

  /** The counters are the numbers of open files in each mode, and there is a buffer
      with valid pointers as long as one file is open for reading or writing. */
  ghost predicate CountInv(d: Device) {
    && d.nreaders == |Readers(d.files)|
    && d.nwriters == |Writers(d.files)|
    && (d.buf == [] || |d.buf| == d.cap)
    && (d.live ==> d.buf != [])
    && (forall f :: f in d.files && (d.files[f].read || d.files[f].write) ==> d.live)
  }

  /** What a thread that opens the device knows about the buffer. */
  ghost predicate OpenerInv(d: Device, c: Call) {
    && (c.pc in {Open(OResetWp), Open(OResetRp)} ==> d.buf != [])
    && (c.pc == Open(OResetRp) ==> d.wp == 0 && d.accepted == d.delivered == [])
    && (c.pc == Open(OAbort) ==> d.buf == [])
    && (c.pc in {Open(OCount), Open(OUnlock)} ==> d.live)
  }

  lemma OpenReaders(files: map<Fid, Mode>, fid: Fid, mode: Mode)
    requires fid !in files
    ensures |Readers(files[fid := mode])| == |Readers(files)| + Tick(mode.read)
  {
    var more := if mode.read then {fid} else {};
    assert Readers(files[fid := mode]) == Readers(files) + more && Readers(files) !! more;
  }

  lemma OpenWriters(files: map<Fid, Mode>, fid: Fid, mode: Mode)
    requires fid !in files
    ensures |Writers(files[fid := mode])| == |Writers(files)| + Tick(mode.write)
  {
    var more := if mode.write then {fid} else {};
    assert Writers(files[fid := mode]) == Writers(files) + more && Writers(files) !! more;
  }

  lemma CloseCounts(files: map<Fid, Mode>, fid: Fid)
    requires fid in files
    ensures |Readers(files - {fid})| == |Readers(files)| - Tick(files[fid].read)
    ensures |Writers(files - {fid})| == |Writers(files)| - Tick(files[fid].write)
  {
    var files' := files - {fid};
    assert files'[fid := files[fid]] == files;
    OpenReaders(files', fid, files[fid]);
    OpenWriters(files', fid, files[fid]);
  }

  lemma NobodyLeft(d: Device)
    requires CountInv(d) && d.nreaders == 0 && d.nwriters == 0
    ensures forall f :: f in d.files ==> !d.files[f].read && !d.files[f].write
  {
    forall f | f in d.files ensures !d.files[f].read && !d.files[f].write {
      assert f !in Readers(d.files) && f !in Writers(d.files);
    }
  }

  /** Reads and writes touch neither the counters nor the life of the buffer. */
  lemma MoveKeepsCounts(d: Device, t: Tid, c: Call, signal: bool, e: Event, d': Device)
    requires DeviceStep(d, t, c, signal, e, d') && (c.pc.Read? || c.pc.Write?)
    ensures d'.nreaders == d.nreaders && d'.nwriters == d.nwriters && d'.files == d.files
    ensures d'.live == d.live && d'.cap == d.cap && (d'.buf == d.buf || |d'.buf| == |d.buf| == d.cap)
  {
  }

  lemma CountEffect(d: Device, t: Tid, c: Call, signal: bool, e: Event, d': Device)
    requires DeviceStep(d, t, c, signal, e, d')
    requires 0 < d.cap && CountInv(d) && CallInv(d.files, c) && OpenerInv(d, c)
    ensures CountInv(d') && (NextPC(e).Some? ==> OpenerInv(d', c.(pc := NextPC(e).value)))
  {
    match c.pc
    case Read(_) => MoveKeepsCounts(d, t, c, signal, e, d');
    case Write(_) => MoveKeepsCounts(d, t, c, signal, e, d');
    case Open(pc) =>
      if pc.OCount? {
        OpenReaders(d.files, c.fid, c.mode);
        OpenWriters(d.files, c.fid, c.mode);
      }
    case Close(pc) =>
      if pc.CDrop? {
        CloseCounts(d.files, c.fid);
      } else if pc.CFree? && d.nreaders == 0 && d.nwriters == 0 {
        NobodyLeft(d);
      }
  }

  // ---- the ring and the history of its bytes ----

  /** Everything accepted since the last open is either delivered or waits in the ring. */
  ghost predicate Fifo(d: Device) {
    && d.rp <= |d.buf| && d.wp <= |d.buf|
    && d.accepted == d.delivered + Unread(d.buf, d.rp, d.wp)
  }

  /** What a reader that holds the mutex knows about the pointers and the bytes it moves. */
  ghost predicate ReadHolder(d: Device, pc: ReadPC) {
    && |d.buf| == d.cap && d.rp <= d.cap && d.wp < d.cap
    && (!pc.RWrap? ==> d.rp < d.cap)
    && (pc.RCopy? || pc.RAdvance? ==> d.rp != d.wp)
    && (pc.RUnlock? ==> d.rp == d.wp)
    && (pc.RAdvance? ==>
          && d.rp + |pc.got| <= d.cap && (d.rp < d.wp ==> d.rp + |pc.got| <= d.wp)
          && pc.got == d.buf[d.rp..d.rp + |pc.got|])
  }

  ghost predicate WriteHolder(d: Device, data: seq<byte>, pc: WritePC) {
    && |d.buf| == d.cap && d.rp < d.cap && d.wp <= d.cap
    && (if pc.WWrap? then d.wp == d.cap ==> d.rp > 0 else d.wp < d.cap)
    && (pc.WCopy? || pc.WAdvance? ==> SpaceFree(d.rp, d.wp, d.cap) != 0)
    && (pc.WUnlock? ==> SpaceFree(d.rp, d.wp, d.cap) == 0)
    && (pc.WAdvance? ==>
          && pc.n <= |data|
          && d.wp + pc.n <= d.cap && (d.wp < d.rp ==> d.wp + pc.n < d.rp) && (d.rp == 0 ==> d.wp + pc.n < d.cap)
          && d.buf[d.wp..d.wp + pc.n] == data[..pc.n])
  }

  /** An opener between its two stores: the history is empty, the pointers do not say so yet. */
  ghost predicate MidReset(d: Device) {
    |d.buf| == d.cap && d.rp < d.cap && d.wp == 0 && d.accepted == d.delivered == []
  }

  /** The state of the ring, given the call of the thread that holds the mutex. */
  ghost predicate RingOk(d: Device, holder: Option<Call>) {
    d.live ==>
      if holder.Some? && holder.value.pc == Open(OResetRp) then MidReset(d)
      else
        && Fifo(d)
        && match holder {
             case None => InRange(d)
             case Some(c) =>
               match c.pc
               case Read(pc) => ReadHolder(d, pc)
               case Write(pc) => WriteHolder(d, c.data, pc)
               case _ => InRange(d)
           }
  }

  ghost function Holder(s: State): Option<Call> {
    if s.d.lock.Some? && s.d.lock.value in s.calls then Some(s.calls[s.d.lock.value]) else None
  }

  lemma ReadRing(d: Device, t: Tid, c: Call, pc: ReadPC, signal: bool, d': Device, next: Option<ReadPC>)
    requires Fifo(d) && HoldsLock(Read(pc)) && ReadHolder(d, pc)
    requires ReadStep(d, t, c, pc, signal, d', next)
    ensures Fifo(d') && if next.Some? && HoldsLock(Read(next.value)) then ReadHolder(d', next.value) else InRange(d')
  {
    hide Unread;
    if pc.RCopy? {
      ReadFits(d.buf, d.rp, d.wp, c.want);
    } else if pc.RAdvance? {
      AdvanceDelivers(d, pc.got);
    } else if pc.RWrap? {
      WrapIsSilent(d.buf, d.rp, d.wp);
    }
  }

  lemma AdvanceDelivers(d: Device, got: seq<byte>)
    requires Fifo(d) && ReadHolder(d, RAdvance(got))
    ensures Fifo(d.(rp := d.rp + |got|, delivered := d.delivered + got))
  {
    hide Unread;
    TakeFront(d.buf, d.rp, d.wp, |got|);
    Regroup(d.delivered, got, Unread(d.buf, d.rp + |got|, d.wp));
  }

  lemma AdvanceAccepts(d: Device, data: seq<byte>, n: nat)
    requires Fifo(d) && WriteHolder(d, data, WAdvance(n))
    ensures Fifo(d.(wp := d.wp + n, accepted := d.accepted + data[..n]))
  {
    hide Unread;
    PutBehind(d.buf, d.rp, d.wp, n);
    Regroup(d.delivered, Unread(d.buf, d.rp, d.wp), data[..n]);
  }

  lemma CopyKeeps(d: Device, data: seq<byte>, bytes: seq<byte>)
    requires Fifo(d) && WriteHolder(d, data, WCopy) && |bytes| == WriteCount(d.rp, d.wp, d.cap, |data|)
    ensures |bytes| <= |data| && d.wp + |bytes| <= d.cap
    ensures var d' := d.(buf := Splice(d.buf, d.wp, bytes));
            && Fifo(d') && InRange(d')
            && (bytes == data[..|bytes|] ==> WriteHolder(d', data, WAdvance(|bytes|)))
  {
    WriteFits(d.buf, d.rp, d.wp, |data|);
    StoreKeeps(d.buf, d.rp, d.wp, bytes);
  }

  lemma WriteRing(d: Device, t: Tid, c: Call, pc: WritePC, signal: bool, d': Device, next: Option<WritePC>)
    requires Fifo(d) && HoldsLock(Write(pc)) && WriteHolder(d, c.data, pc)
    requires WriteStep(d, t, c, pc, signal, d', next)
    ensures Fifo(d')
    ensures if next.Some? && HoldsLock(Write(next.value)) then WriteHolder(d', c.data, next.value) else InRange(d')
  {
    if pc.WCopy? {
      var n := WriteCount(d.rp, d.wp, d.cap, |c.data|);
      CopyKeeps(d, c.data, if next == Some(WAbort) then d'.buf[d.wp..d.wp + n] else c.data[..n]);
    } else if pc.WAdvance? {
      AdvanceAccepts(d, c.data, pc.n);
    } else if pc.WWrap? {
      WrapIsSilent(d.buf, d.rp, d.wp);
    }
  }

  /** A thread without the mutex does not touch the ring, nor does a close before it frees it. */
  lemma OtherRing(d: Device, t: Tid, c: Call, signal: bool, e: Event, d': Device)
    requires DeviceStep(d, t, c, signal, e, d') && (c.pc.Close? || !HoldsLock(c.pc))
    ensures d'.live ==> d.live && SameRing(d, d')
    ensures NextPC(e).Some? && HoldsLock(NextPC(e).value) ==>
              (HoldsLock(c.pc) || d.lock == None) && Unmoved(NextPC(e).value)
  {
  }

  /** Points where the holder of the mutex has not yet decided to move bytes. */
  ghost predicate Unmoved(pc: PC) {
    pc in {Read(RTest), Write(WTest), Open(OAlloc)} || pc.Close?
  }

  ghost predicate SameRing(d: Device, d': Device) {
    && d'.cap == d.cap && d'.buf == d.buf && d'.rp == d.rp && d'.wp == d.wp
    && d'.accepted == d.accepted && d'.delivered == d.delivered
  }

  /** An open changes the ring only by emptying it, in two halves. */
  lemma OpenRing(d: Device, t: Tid, c: Call, pc: OpenPC, signal: bool, d': Device, next: Option<OpenPC>)
    requires OpenStep(d, t, c, pc, signal, d', next)
    requires 0 < d.cap && CountInv(d) && OpenerInv(d, c) && c.pc == Open(pc) && HoldsLock(c.pc)
    requires d.live ==> if pc.OResetRp? then MidReset(d) else Fifo(d) && InRange(d)
    ensures d'.live ==> if next == Some(OResetRp) then MidReset(d') else Fifo(d') && InRange(d')
  {
  }

  /** The call of the holder after thread t, in call c, has moved on. */
  ghost function NewHolder(c: Call, e: Event, holder: Option<Call>): Option<Call>
    requires !e.Enter?
  {
    if NextPC(e).Some? && HoldsLock(NextPC(e).value) then Some(c.(pc := NextPC(e).value))
    else if HoldsLock(c.pc) then None else holder
  }

  lemma ReaderKeepsRing(d: Device, t: Tid, c: Call, signal: bool, e: Event, d': Device)
    requires c.pc.Read? && HoldsLock(c.pc) && RingOk(d, Some(c)) && DeviceStep(d, t, c, signal, e, d')
    ensures RingOk(d', NewHolder(c, e, Some(c)))
  {
    MoveKeepsLife(d, t, c, signal, e, d');
    assert NextPC(e) == if e.r.None? then None else Some(Read(e.r.value));
    if d'.live {
      ReadRing(d, t, c, c.pc.r, signal, d', e.r);
      hide DeviceStep, Fifo, ReadHolder, InRange;
    }
  }

  lemma WriterKeepsRing(d: Device, t: Tid, c: Call, signal: bool, e: Event, d': Device)
    requires c.pc.Write? && HoldsLock(c.pc) && RingOk(d, Some(c)) && DeviceStep(d, t, c, signal, e, d')
    ensures RingOk(d', NewHolder(c, e, Some(c)))
  {
    MoveKeepsLife(d, t, c, signal, e, d');
    assert NextPC(e) == if e.w.None? then None else Some(Write(e.w.value));
    if d'.live {
      WriteRing(d, t, c, c.pc.w, signal, d', e.w);
      hide DeviceStep, Fifo, WriteHolder, InRange;
    }
  }

  lemma MoveKeepsLife(d: Device, t: Tid, c: Call, signal: bool, e: Event, d': Device)
    requires DeviceStep(d, t, c, signal, e, d') && (c.pc.Read? || c.pc.Write?)
    ensures d'.live == d.live
  {
  }

  lemma OpenerKeepsRing(d: Device, t: Tid, c: Call, signal: bool, e: Event, d': Device)
    requires 0 < d.cap && CountInv(d) && OpenerInv(d, c)
    requires c.pc.Open? && HoldsLock(c.pc) && RingOk(d, Some(c)) && DeviceStep(d, t, c, signal, e, d')
    ensures RingOk(d', NewHolder(c, e, Some(c)))
  {
    OpenRing(d, t, c, c.pc.o, signal, d', e.o);
    assert NextPC(e) == if e.o.None? then None else Some(Open(e.o.value));
    hide DeviceStep, CountInv, OpenerInv;
  }

  lemma BystanderKeepsRing(d: Device, t: Tid, c: Call, signal: bool, e: Event, d': Device, holder: Option<Call>)
    requires c.pc.Close? || !HoldsLock(c.pc)
    requires (HoldsLock(c.pc) ==> holder == Some(c)) && (d.lock == None ==> holder == None)
    requires RingOk(d, holder) && DeviceStep(d, t, c, signal, e, d')
    ensures RingOk(d', NewHolder(c, e, holder))
  {
    OtherRing(d, t, c, signal, e, d');
    SameRingOk(d, d', holder, NewHolder(c, e, holder));
  }

  lemma SameRingOk(d: Device, d': Device, holder: Option<Call>, holder': Option<Call>)
    requires d'.live ==> d.live && SameRing(d, d')
    requires RingOk(d, holder)
    requires holder' == holder
             || ((holder == None || holder.value.pc.Close?) && (holder' == None || Unmoved(holder'.value.pc)))
    ensures RingOk(d', holder')
  {
  }

  lemma RingEffect(d: Device, t: Tid, c: Call, signal: bool, e: Event, d': Device, holder: Option<Call>)
    requires DeviceStep(d, t, c, signal, e, d')
    requires 0 < d.cap && CountInv(d) && OpenerInv(d, c) && RingOk(d, holder)
    requires (HoldsLock(c.pc) ==> holder == Some(c)) && (d.lock == None ==> holder == None)
    ensures RingOk(d', NewHolder(c, e, holder))
  {
    if c.pc.Close? || !HoldsLock(c.pc) {
      BystanderKeepsRing(d, t, c, signal, e, d', holder);
    } else if c.pc.Read? {
      ReaderKeepsRing(d, t, c, signal, e, d');
    } else if c.pc.Write? {
      WriterKeepsRing(d, t, c, signal, e, d');
    } else {
      OpenerKeepsRing(d, t, c, signal, e, d');
    }
  }

  lemma HolderMoves(s: State, t: Tid, signal: bool, e: Event, s': State)
    requires LockInv(s) && Step(s, t, signal, e, s') && !e.Enter?
    ensures Holder(s') == NewHolder(s.calls[t], e, Holder(s))
  {
    LockEffect(s.d, t, s.calls[t], signal, e, s'.d);
  }

  lemma RingStep(s: State, t: Tid, signal: bool, e: Event, s': State)
    requires 0 < s.d.cap && LockInv(s) && CountInv(s.d) && RingOk(s.d, Holder(s))
    requires t in s.calls ==> OpenerInv(s.d, s.calls[t])
    requires Step(s, t, signal, e, s')
    ensures RingOk(s'.d, Holder(s'))
  {
    if e.Enter? {
      assert Holder(s') == Holder(s);
    } else {
      HolderMoves(s, t, signal, e, s');
      RingEffect(s.d, t, s.calls[t], signal, e, s'.d, Holder(s));
    }
  }

  // ---- the invariant of all runs ----

  ghost predicate Inv(s: State) {
    && 0 < s.d.cap
    && LockInv(s)
    && FilesInv(s)
    && CountInv(s.d)
    && (forall t :: t in s.calls ==> OpenerInv(s.d, s.calls[t]))
    && RingOk(s.d, Holder(s))
  }

  /** Without the mutex a thread changes nothing but the wait queues and the mutex itself. */
  lemma OnlyUnderLock(d: Device, t: Tid, c: Call, signal: bool, e: Event, d': Device)
    requires DeviceStep(d, t, c, signal, e, d') && !HoldsLock(c.pc)
    ensures d' == d.(lock := d'.lock, inq := d'.inq, outq := d'.outq)
  {
  }

  lemma CapStays(d: Device, t: Tid, c: Call, signal: bool, e: Event, d': Device)
    requires DeviceStep(d, t, c, signal, e, d')
    ensures d'.cap == d.cap
  {
  }

  lemma InvInit(s: State)
    requires Init(s)
    ensures Inv(s)
  {
    assert Readers(s.d.files) == {} && Writers(s.d.files) == {};
  }

  lemma InvStep(s: State, t: Tid, signal: bool, e: Event, s': State)
    requires Inv(s) && Step(s, t, signal, e, s')
    ensures Inv(s')
  {
    LockStep(s, t, signal, e, s');
    FilesStep(s, t, signal, e, s');
    RingStep(s, t, signal, e, s');
    CountStep(s, t, signal, e, s');
  }

  lemma CountStep(s: State, t: Tid, signal: bool, e: Event, s': State)
    requires 0 < s.d.cap && LockInv(s) && FilesInv(s) && CountInv(s.d)
    requires forall u :: u in s.calls ==> OpenerInv(s.d, s.calls[u])
    requires Step(s, t, signal, e, s')
    ensures 0 < s'.d.cap && CountInv(s'.d)
    ensures forall u :: u in s'.calls ==> OpenerInv(s'.d, s'.calls[u])
  {
    if !e.Enter? {
      var c := s.calls[t];
      CapStays(s.d, t, c, signal, e, s'.d);
      CountEffect(s.d, t, c, signal, e, s'.d);
      hide CountInv, FilesInv;
      forall u | u in s'.calls && u != t ensures OpenerInv(s'.d, s'.calls[u]) {
        assert OpenerInv(s.d, s.calls[u]);
        if HoldsLock(s.calls[t].pc) {
          assert !HoldsLock(s.calls[u].pc);
          NoOpener(s'.d, s.calls[u]);
        } else {
          OnlyUnderLock(s.d, t, c, signal, e, s'.d);
        }
      }
    }
  }

  /** Without the mutex an opener knows nothing. */
  lemma NoOpener(d: Device, c: Call)
    requires !HoldsLock(c.pc)
    ensures OpenerInv(d, c)
  {
  }
}
