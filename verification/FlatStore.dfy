/** What a scull device is to its users: a size, and a byte for every position of every
    quantum that has been allocated. Steps, and what holds over every run of them. */
module FlatStore {
  import opened Kernel
  import opened Arithmetic
  import opened Positions

  const DEFAULT_SCULL_QUANTUM := 4000
  const DEFAULT_SCULL_QSET := 1000

  datatype Store = Store(size: nat, mem: imap<nat, byte>, quantum: int, qset: int, newQuantum: int, newQset: int)

  /** A transfer at pos reaches the bytes from `at` on; the two differ only far out (Landing). */
  datatype Event =
    | Wrote(pos: nat, at: nat, data: seq<byte>, n: nat) // returned n
    | WriteFault(pos: nat, at: nat, n: nat)             // -EFAULT somewhere among n bytes
    | ReadBytes(pos: nat, at: nat, count: nat, bytes: seq<byte>)
    | NoEffect                                          // a call that failed otherwise
    | Trimmed
    | SetQuantum(q: int)                       // ioctl: Set, Tell, eXchange, sHift
    | ResetGeometry                            // ioctl: RESET

  /** How many of count bytes fit before the end of the quantum. */
  function Fit(quantum: int, pos: nat, count: nat): (n: nat)
    requires 0 < quantum
    ensures n <= count && (0 < count ==> 0 < n)
    ensures pos % quantum + n <= quantum
    ensures n == count || (pos + n) % quantum == 0
  {
    NextMultiple(pos, quantum);
    Min(count, quantum - pos % quantum)
  }

  lemma NextMultiple(pos: nat, d: nat)
    requires 0 < d
    ensures (pos + (d - pos % d)) % d == 0
  {
    assert pos == pos / d * d + pos % d;
    DivUnique(pos + (d - pos % d), d, pos / d + 1, 0);
  }

  /** The bytes after n bytes at pos have been written or smeared: the quantum of pos is
      allocated, everything outside [pos, pos + n) stays as it was, and what is new is
      zero if blocks are cleared. */
  ghost predicate Touched(mem: imap<nat, byte>, mem': imap<nat, byte>, quantum: int, pos: nat, n: nat, zeroed: bool)
    requires 0 < quantum
  {
    && (forall x: nat :: x in mem' <==> x in mem || x / quantum == pos / quantum)
    && (forall x: nat :: x in mem && !(pos <= x < pos + n) ==> mem'[x] == mem[x])
    && (forall x: nat :: zeroed && x in mem' && x !in mem && !(pos <= x < pos + n) ==> mem'[x] == 0)
  }

  /** A quantum is made available, then n bytes in it change. */
  lemma ThenChanged(a: imap<nat, byte>, b: imap<nat, byte>, c: imap<nat, byte>, quantum: int, pos: nat, n: nat, zeroed: bool)
    requires 0 < quantum && Touched(a, b, quantum, pos, 0, zeroed)
    requires c.Keys == b.Keys && forall x: nat :: x in c && !(pos <= x < pos + n) ==> c[x] == b[x]
    ensures Touched(a, c, quantum, pos, n, zeroed)
  {
  }

  /** These bytes stand at pos and behind it. */
  ghost predicate Spells(mem: imap<nat, byte>, pos: nat, bytes: seq<byte>) {
    forall x: nat :: pos <= x < pos + |bytes| ==> x in mem && mem[x] == bytes[x - pos]
  }

  /** What a read finds: nothing at or past the end or in a hole, otherwise the stored
      bytes up to count, the size and the end of the quantum. */
  ghost predicate ReadFinds(s: Store, pos: nat, at: nat, count: nat, bytes: seq<byte>) {
    if s.size <= pos || at !in s.mem then bytes == []
    else
      && 0 < s.quantum
      && |bytes| == Fit(s.quantum, at, Min(count, s.size - pos))
      && Spells(s.mem, at, bytes)
  }

  ghost predicate Step(zeroed: bool, s: Store, e: Event, s': Store) {
    match e
    case Wrote(pos, at, data, n) =>
      && Usable(s.quantum, s.qset) && at == Landing(pos, s.quantum, s.qset)
      && n == Fit(s.quantum, at, |data|)
      && Touched(s.mem, s'.mem, s.quantum, at, n, zeroed)
      && Spells(s'.mem, at, data[..n])
      && s' == s.(mem := s'.mem, size := if s.size < pos + n then pos + n else s.size)
    case WriteFault(pos, at, n) =>
      && Usable(s.quantum, s.qset) && at == Landing(pos, s.quantum, s.qset)
      && at % s.quantum + n <= s.quantum
      && Touched(s.mem, s'.mem, s.quantum, at, n, zeroed)
      && s' == s.(mem := s'.mem)
    case ReadBytes(pos, at, count, bytes) =>
      at == Landing(pos, s.quantum, s.qset) && ReadFinds(s, pos, at, count, bytes) && s' == s
    case NoEffect => s' == s
    case Trimmed => s' == Store(0, imap[], s.newQuantum, s.newQset, s.newQuantum, s.newQset)
    case SetQuantum(q) => s' == s.(newQuantum := ToInt32(q))
    case ResetGeometry => s' == s.(newQuantum := DEFAULT_SCULL_QUANTUM, newQset := DEFAULT_SCULL_QSET)
  }

  /** A device with nothing in it. */
  ghost predicate Empty(s: Store) {
    s.size == 0 && s.mem == imap[]
  }

  ghost predicate Run(zeroed: bool, ss: seq<Store>, es: seq<Event>) {
    && |ss| == |es| + 1
    && Empty(ss[0])
    && forall i :: 0 <= i < |es| ==> Step(zeroed, ss[i], es[i], ss[i + 1])
  }

  // ---- what the history says ----

  /** The last thing that happened to a position since the last trim. */
  datatype Mark = Untouched | Exactly(b: byte) | Smeared

  function LastWrite(es: seq<Event>, x: nat): Mark {
    if es == [] then Untouched
    else
      var older := es[..|es| - 1];
      match es[|es| - 1]
      case Wrote(_, at, data, n) => if at <= x < at + n && n <= |data| then Exactly(data[x - at]) else LastWrite(older, x)
      case WriteFault(_, at, n) => if at <= x < at + n then Smeared else LastWrite(older, x)
      case Trimmed => Untouched
      case _ => LastWrite(older, x)
  }

  /** Whether a write has got as far as copying into this quantum since the last trim. */
  function Reached(es: seq<Event>, quantum: int, block: int): bool
    requires 0 < quantum
  {
    if es == [] then false
    else
      var older := es[..|es| - 1];
      match es[|es| - 1]
      case Wrote(_, at, _, _) => at / quantum == block || Reached(older, quantum, block)
      case WriteFault(_, at, _) => at / quantum == block || Reached(older, quantum, block)
      case Trimmed => false
      case _ => Reached(older, quantum, block)
  }

  /** The largest end position of a successful write since the last trim. */
  function EndOfWrites(es: seq<Event>): nat {
    if es == [] then 0
    else
      var end := EndOfWrites(es[..|es| - 1]);
      match es[|es| - 1]
      case Wrote(pos, _, _, n) => if end < pos + n then pos + n else end
      case Trimmed => 0
      case _ => end
  }

  /** The quantum last asked for by an ioctl, and the one in force since the last trim. */
  function Asked(es: seq<Event>, start: int): int {
    if es == [] then start
    else
      match es[|es| - 1]
      case SetQuantum(q) => ToInt32(q)
      case ResetGeometry => DEFAULT_SCULL_QUANTUM
      case _ => Asked(es[..|es| - 1], start)
  }

  function InForce(es: seq<Event>, start: int): int {
    if es == [] then start
    else if es[|es| - 1].Trimmed? then Asked(es[..|es| - 1], start)
    else InForce(es[..|es| - 1], start)
  }

  predicate NoFaults(es: seq<Event>) {
    forall i :: 0 <= i < |es| ==> !es[i].WriteFault?
  }

  // ---- theorems over all runs ----

  lemma Prefix(zeroed: bool, ss: seq<Store>, es: seq<Event>)
    requires Run(zeroed, ss, es) && es != []
    ensures Run(zeroed, ss[..|es|], es[..|es| - 1])
    ensures Step(zeroed, ss[|es| - 1], es[|es| - 1], ss[|es|])
  {
  }

  /** The size is the largest end position ever written; a faulting or refused write,
      and any read, leaves it alone. */
  lemma {:induction false} SizeIsEndOfWrites(zeroed: bool, ss: seq<Store>, es: seq<Event>)
    requires Run(zeroed, ss, es)
    ensures ss[|es|].size == EndOfWrites(es)
  {
    if es != [] {
      Prefix(zeroed, ss, es);
      SizeIsEndOfWrites(zeroed, ss[..|es|], es[..|es| - 1]);
    }
  }

  /** A position is backed by memory exactly when a write has reached its quantum. */
  lemma {:induction false} HolesAreUnwrittenQuanta(zeroed: bool, ss: seq<Store>, es: seq<Event>, x: nat)
    requires Run(zeroed, ss, es) && 0 < ss[|es|].quantum
    ensures x in ss[|es|].mem <==> Reached(es, ss[|es|].quantum, x / ss[|es|].quantum)
  {
    if es != [] {
      Prefix(zeroed, ss, es);
      if !es[|es| - 1].Trimmed? {
        HolesAreUnwrittenQuanta(zeroed, ss[..|es|], es[..|es| - 1], x);
      }
    }
  }

  /** Every position holds the last byte written there; with cleared blocks and no
      faults, a backed position that was never written holds zero. */
  lemma {:induction false} LastWriteWins(zeroed: bool, ss: seq<Store>, es: seq<Event>, x: nat)
    requires Run(zeroed, ss, es)
    ensures LastWrite(es, x).Exactly? ==> x in ss[|es|].mem && ss[|es|].mem[x] == LastWrite(es, x).b
    ensures zeroed && x in ss[|es|].mem && LastWrite(es, x) == Untouched ==> ss[|es|].mem[x] == 0
    ensures NoFaults(es) ==> !LastWrite(es, x).Smeared?
  {
    if es != [] {
      Prefix(zeroed, ss, es);
      LastWriteWins(zeroed, ss[..|es|], es[..|es| - 1], x);
    }
  }

  /** What a read returns, in terms of the writes before it alone. */
  lemma ReadReturnsLastWritten(zeroed: bool, ss: seq<Store>, es: seq<Event>, i: nat, k: nat)
    requires Run(zeroed, ss, es) && i < |es| && es[i].ReadBytes? && k < |es[i].bytes|
    ensures var x := es[i].at + k;
            && es[i].pos + k < EndOfWrites(es[..i]) && k < es[i].count
            && (LastWrite(es[..i], x).Exactly? ==> es[i].bytes[k] == LastWrite(es[..i], x).b)
            && (zeroed && LastWrite(es[..i], x) == Untouched ==> es[i].bytes[k] == 0)
  {
    assert Step(zeroed, ss[i], es[i], ss[i + 1]);
    assert Run(zeroed, ss[..i + 1], es[..i]);
    LastWriteWins(zeroed, ss[..i + 1], es[..i], es[i].at + k);
    SizeIsEndOfWrites(zeroed, ss[..i + 1], es[..i]);
  }

  /** A read comes back empty-handed only where there is nothing to read, in a hole, or
      when nothing was asked for. */
  lemma EmptyReads(zeroed: bool, ss: seq<Store>, es: seq<Event>, i: nat)
    requires Run(zeroed, ss, es) && i < |es| && es[i].ReadBytes? && 0 < ss[i].quantum
    ensures es[i].bytes == [] <==>
              || es[i].count == 0
              || EndOfWrites(es[..i]) <= es[i].pos
              || !Reached(es[..i], ss[i].quantum, es[i].at / ss[i].quantum)
  {
    assert Step(zeroed, ss[i], es[i], ss[i + 1]);
    assert Run(zeroed, ss[..i + 1], es[..i]);
    HolesAreUnwrittenQuanta(zeroed, ss[..i + 1], es[..i], es[i].at);
    SizeIsEndOfWrites(zeroed, ss[..i + 1], es[..i]);
  }

  /** A transfer reaches its own position exactly below 2^32 items. */
  lemma OwnPosition(zeroed: bool, ss: seq<Store>, es: seq<Event>, i: nat)
    requires Run(zeroed, ss, es) && i < |es| && Usable(ss[i].quantum, ss[i].qset)
    requires es[i].Wrote? || es[i].WriteFault? || es[i].ReadBytes?
    ensures es[i].at == es[i].pos <==> es[i].pos < UINT_RANGE * (ss[i].quantum * ss[i].qset)
  {
    assert Step(zeroed, ss[i], es[i], ss[i + 1]);
    LandingFacts(es[i].pos, ss[i].quantum, ss[i].qset);
  }

  /** scull_full never changes its qset, and the quantum in force is the one asked for
      before the last trim: an ioctl never reaches stored data. */
  lemma {:induction false} GeometryIsDeferred(zeroed: bool, ss: seq<Store>, es: seq<Event>)
    requires Run(zeroed, ss, es)
    requires ss[0].quantum == ss[0].newQuantum && ss[0].qset == ss[0].newQset == DEFAULT_SCULL_QSET
    ensures var s := ss[|es|];
            && s.quantum == InForce(es, ss[0].quantum) && s.newQuantum == Asked(es, ss[0].quantum)
            && s.qset == s.newQset == DEFAULT_SCULL_QSET
  {
    if es != [] {
      Prefix(zeroed, ss, es);
      GeometryIsDeferred(zeroed, ss[..|es|], es[..|es| - 1]);
    }
  }

  /** The place that a transfer computes for pos is in bounds and the right one exactly
      while the quantum in force lies in 1 .. 2147483 and an int can hold the item number;
      an ioctl can set any other quantum, and a seek reaches any position. */
  lemma WriteIsDefined(zeroed: bool, ss: seq<Store>, es: seq<Event>, pos: nat)
    requires Run(zeroed, ss, es)
    requires ss[0].quantum == ss[0].newQuantum && ss[0].qset == ss[0].newQset == DEFAULT_SCULL_QSET
    ensures var q := InForce(es, ss[0].quantum);
            RightPlace(pos, ss[|es|].quantum, ss[|es|].qset) <==>
            0 < q <= 2147483 && pos < 0x8000_0000 * (q * DEFAULT_SCULL_QSET)
  {
    GeometryIsDeferred(zeroed, ss, es);
    PlaceIsRight(pos, ss[|es|].quantum, ss[|es|].qset);
  }

  /** A read never divides unless a write has divided by the same geometry before. */
  lemma {:induction false} ReadIsDefined(zeroed: bool, ss: seq<Store>, es: seq<Event>)
    requires Run(zeroed, ss, es)
    ensures 0 < ss[|es|].size || ss[|es|].mem != imap[] ==> Usable(ss[|es|].quantum, ss[|es|].qset)
  {
    if es != [] {
      Prefix(zeroed, ss, es);
      ReadIsDefined(zeroed, ss[..|es|], es[..|es| - 1]);
    }
  }

  // ---- runs that leave the defined range ----

  const FRESH := Store(0, imap[], DEFAULT_SCULL_QUANTUM, DEFAULT_SCULL_QSET, DEFAULT_SCULL_QUANTUM, DEFAULT_SCULL_QSET)

  /** Two calls bring any quantum into force. */
  lemma AnyQuantumIsReachable(q: int) returns (ss: seq<Store>, es: seq<Event>)
    requires -INT_MAX - 1 <= q <= INT_MAX
    ensures Run(false, ss, es) && ss[0] == FRESH
    ensures es == [SetQuantum(q), Trimmed] && ss[2].quantum == q && ss[2].qset == DEFAULT_SCULL_QSET
  {
    var s1 := FRESH.(newQuantum := q);
    ss, es := [FRESH, s1, s1.(quantum := q)], [SetQuantum(q), Trimmed];
  }

  /** So the next write divides by zero, or, with a quantum of -1, neither divides by zero
      nor overflows and takes slot -1 of the pointer array for position 1. */
  lemma UndefinedWrites() returns (ss: seq<Store>, es: seq<Event>, ss': seq<Store>, es': seq<Event>)
    ensures Run(false, ss, es) && ss[0] == FRESH
    ensures Computed(1, ss[|es|].quantum, ss[|es|].qset) == None
    ensures Run(false, ss', es') && ss'[0] == FRESH
    ensures Computed(1, ss'[|es'|].quantum, ss'[|es'|].qset) == Some(CPlace(0, -1, 0))
  {
    ss, es := AnyQuantumIsReachable(0);
    ss', es' := AnyQuantumIsReachable(-1);
    NegativeQuantum();
  }

  predicate FirstQuantum(x: nat) {
    x < DEFAULT_SCULL_QUANTUM
  }

  /** A byte written 2^32 items out on a fresh device comes back from position 0. */
  lemma AliasedWrite() returns (ss: seq<Store>, es: seq<Event>)
    ensures Run(false, ss, es) && ss[0] == FRESH
    ensures |es| == 2 && es[0].Wrote? && es[0].pos == UINT_RANGE * (4000 * 1000) <= LLONG_MAX && es[0].data == [7]
    ensures es[1] == ReadBytes(0, 0, 1, [7])
  {
    var pos := UINT_RANGE * (4000 * 1000);
    var mem := imap x: nat | FirstQuantum(x) :: 7 as byte;
    var s1 := FRESH.(mem := mem, size := pos + 1);
    assert Landing(pos, 4000, 1000) == 0 && Landing(0, 4000, 1000) == 0;
    ss, es := [FRESH, s1, s1], [Wrote(pos, 0, [7], 1), ReadBytes(0, 0, 1, [7])];
    assert Fit(4000, 0, 1) == 1;
    assert forall x: nat :: x / 4000 == 0 <==> FirstQuantum(x);
    assert Touched(imap[], mem, 4000, 0, 1, false) && Spells(mem, 0, [7]);
    assert Step(false, FRESH, es[0], s1) && Step(false, s1, es[1], s1);
  }
}
