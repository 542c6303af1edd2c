/** scull_dev_common.c of scull_full: the device methods, proved against FlatStore. */
module ScullDev {
  import opened Kernel
  import opened Positions
  import opened FlatStore
  import opened QuantumSets

  datatype AccessMode = ReadOnly | WriteOnly | ReadWrite

  /** The ioctl commands that the switch knows, with what the user pointer yields (None: it faults). */
  datatype Command =
    | Reset | Set(user: Option<int>) | Tell(arg: int) | Get(putFaults: bool) | Query
    | Exchange(user: Option<int>, putFaults: bool) | Shift(arg: int) | Other

  datatype Whence = SeekSet | SeekCur | SeekEnd | BadWhence

  class ScullDevice {
    const list: QsetList // data, quantum, qset
    var newQuantum: int
    var newQset: int
    var size: nat

    ghost predicate Valid()
      reads this, list, list.role.Keys
    {
      && this !in list.role
      && list.Valid()
      && (list.nodes != [] ==> Usable(list.quantum, list.qset))
      && (0 < size ==> list.nodes != [])
    }

    ghost function Abs(): Store
      requires Valid()
      reads this, list, list.role.Keys
    {
      Store(size, list.Bytes(), list.quantum, list.qset, newQuantum, newQset)
    }

    constructor ()
      ensures Valid() && fresh(list)
      ensures Abs() == Store(0, imap[], 4000, 1000, 4000, 1000)
    {
      list := new QsetList(DEFAULT_SCULL_QUANTUM, DEFAULT_SCULL_QSET);
      newQuantum, newQset := DEFAULT_SCULL_QUANTUM, DEFAULT_SCULL_QSET;
      size := 0;
    }

    /** scull_trim: everything goes, each allocation once, and only then does the
        geometry that the ioctls have asked for come into force. */
    method Trim()
      requires Valid()
      modifies this, list, list.nodes
      ensures Valid() && list.role == map[]
      ensures Step(false, old(Abs()), Trimmed, Abs())
      ensures size == 0 && list.nodes == [] && list.quantum == newQuantum && list.qset == newQset
      ensures newQuantum == old(newQuantum) && newQset == old(newQset)
    {
      list.FreeAll();
      size := 0;
      list.quantum, list.qset := newQuantum, newQset;
    }

    /** scull_dev_open */
    method Open(mode: AccessMode, interrupted: bool) returns (r: Result<()>)
      requires Valid()
      modifies this, list, list.nodes
      ensures Valid()
      ensures r == if mode.WriteOnly? && interrupted then Err(ERESTARTSYS) else Ok(())
      ensures Step(false, old(Abs()), if mode.WriteOnly? && !interrupted then Trimmed else NoEffect, Abs())
    {
      if mode.WriteOnly? {
        if interrupted {
          return Err(ERESTARTSYS);
        }
        Trim();
      }
      return Ok(());
    }

    /** The effect of scull_dev_ioctl: it never touches the device, only what the next trim
        will adopt. __get_user leaves zero in its target when the pointer faults. */
    method Ioctl(cmd: Command, capable: bool) returns (r: Result<int>)
      requires Valid()
      modifies this`newQuantum, this`newQset
      ensures Valid()
      ensures Step(false, old(Abs()), if capable then EffectOf(cmd) else NoEffect, Abs())
      ensures !capable ==> r == Err(EPERM) && newQuantum == old(newQuantum)
      ensures newQset == if capable && cmd.Reset? then 1000 else old(newQset)
      ensures capable ==>
                match cmd
                case Reset => newQuantum == 4000 && r == Ok(0)
                case Set(user) => if user.None? then newQuantum == 0 && r == Err(EFAULT) else newQuantum == ToInt32(user.value) && r == Ok(0)
                case Tell(arg) => newQuantum == ToInt32(arg) && r == Ok(0)
                case Get(putFaults) => newQuantum == old(newQuantum) && r == if putFaults then Err(EFAULT) else Ok(0)
                case Query => newQuantum == old(newQuantum) && r == Ok(old(newQuantum))
                case Exchange(user, putFaults) =>
                  && newQuantum == (if user.None? then 0 else ToInt32(user.value))
                  && r == if user.None? || putFaults then Err(EFAULT) else Ok(0)
                case Shift(arg) => newQuantum == ToInt32(arg) && r == Ok(old(newQuantum))
                case Other => newQuantum == old(newQuantum) && r == Err(ENOTTY)
    {
      if !capable {
        return Err(EPERM);
      }
      var q, s := newQuantum, newQset;
      match cmd {
        case Reset =>
          q, s := DEFAULT_SCULL_QUANTUM, DEFAULT_SCULL_QSET;
          r := Ok(0);
        case Set(user) =>
          q := GetUser(user);
          r := if user.None? then Err(EFAULT) else Ok(0);
        case Tell(arg) =>
          q := ToInt32(arg);
          r := Ok(0);
        case Get(putFaults) => r := if putFaults then Err(EFAULT) else Ok(0);
        case Query => r := Ok(q);
        case Exchange(user, putFaults) =>
          q := GetUser(user);
          r := if user.None? || putFaults then Err(EFAULT) else Ok(0);
        case Shift(arg) =>
          r := Ok(q);
          q := ToInt32(arg);
        case Other => r := Err(ENOTTY);
      }
      Configure(q, s);
    }

    method Configure(quantum: int, qset: int)
      requires Valid()
      modifies this`newQuantum, this`newQset
      ensures Valid() && Abs() == old(Abs()).(newQuantum := quantum, newQset := qset)
    {
      newQuantum, newQset := quantum, qset;
    }

    /** copy_to_user out of the block that holds `at`. */
    method Deliver(ghost at: nat, b: array<byte>, off: nat, user: array<byte>, n: nat, reach: nat) returns (left: nat)
      requires Valid() && user !in list.role && n <= user.Length
      requires b in list.role && off + n <= b.Length
      requires forall x: nat :: at <= x < at + n ==> x in Abs().mem && Abs().mem[x] == b[off + x - at]
      modifies user
      ensures Valid() && Abs() == old(Abs())
      ensures left == if reach < n then n - reach else 0
      ensures user[n..] == old(user[n..])
      ensures left == 0 ==> Spells(Abs().mem, at, user[..n])
    {
      hide QsetList.Bytes;
      left := CopyUser(user, 0, b, off, n, reach);
      if left == 0 {
        forall x: nat | at <= x < at + n ensures x in old(Abs()).mem && old(Abs()).mem[x] == user[..n][x - at] {
          assert user[..n][x - at] == user[0..0 + n][x - at] == b[off..off + n][x - at] == b[off + x - at];
        }
      }
    }

    /** The part of a read below the size: clip, find the block, copy. */
    method ReadBlock(pos: nat, user: array<byte>, count: nat, mem: nat, reach: nat) returns (r: Result<nat>)
      requires Valid() && user !in list.role && count <= user.Length && pos < size
      modifies list, list.role.Keys, user
      ensures Valid() && (forall o :: o in list.role ==> o in old(list.role) || fresh(o))
      ensures Abs() == old(Abs()) && 0 < list.quantum
      ensures r == if Landing(pos, list.quantum, list.qset) !in Abs().mem then Ok(0)
                   else if reach < Fit(list.quantum, pos, Min(count, size - pos)) then Err(EFAULT)
                   else Ok(Fit(list.quantum, pos, Min(count, size - pos)))
      ensures r.Ok? ==>
                r.value <= count && user[r.value..] == old(user[r.value..])
                && ReadFinds(Abs(), pos, Landing(pos, list.quantum, list.qset), count, user[..r.value])
    {
      hide QsetList.Bytes, Landing, Spells;
      var n := if pos + count > size then size - pos else count;
      ghost var at := Landing(pos, list.quantum, list.qset);
      LandingFacts(pos, list.quantum, list.qset);
      var b, off := list.Fetch(pos, mem, at);
      if b == null {
        return Ok(0);
      }
      if n > list.quantum - off {
        n := list.quantum - off;
      }
      assert n == Fit(list.quantum, at, Min(count, size - pos));
      var failed := Deliver(at, b, off, user, n, reach);
      if failed != 0 {
        return Err(EFAULT);
      }
      return Ok(n);
    }

    /** scull_dev_read: delivers what the flat store holds, up to the size and the end of
        the quantum. */
    method Read(pos: nat, user: array<byte>, count: nat, interrupted: bool, mem: nat, reach: nat)
      returns (r: Result<nat>, newPos: nat)
      requires Valid() && user !in list.role && count <= user.Length && pos + count <= LLONG_MAX
      modifies list, list.role.Keys, user
      ensures Valid() && (forall o :: o in list.role ==> o in old(list.role) || fresh(o))
      ensures Abs() == old(Abs())
      ensures r.Err? <==> r in {Err(ERESTARTSYS), Err(EFAULT)}
      ensures r == Err(ERESTARTSYS) <==> interrupted
      ensures r == Err(EFAULT) <==>
                !interrupted && pos < size && Landing(pos, list.quantum, list.qset) in Abs().mem
                && 0 < list.quantum && reach < Fit(list.quantum, pos, Min(count, size - pos))
      ensures r.Ok? ==>
                r.value <= count
                && Step(false, old(Abs()), ReadBytes(pos, Landing(pos, list.quantum, list.qset), count, user[..r.value]), Abs())
      ensures r.Ok? && pos < size && Landing(pos, list.quantum, list.qset) in Abs().mem && 0 < list.quantum ==>
                || r.value == count || pos + r.value == size || (pos + r.value) % list.quantum == 0
      ensures r.Ok? ==> user[r.value..] == old(user[r.value..])
      ensures newPos == pos + if r.Ok? then r.value else 0
    {
      hide QsetList.Bytes, Landing, Usable;
      if interrupted {
        return Err(ERESTARTSYS), pos;
      }
      if pos >= size {
        return Ok(0), pos;
      }
      r := ReadBlock(pos, user, count, mem, reach);
      newPos := pos + if r.Ok? then r.value else 0;
    }

    /** scull_dev_write: all or nothing of what fits into the quantum of pos, with the
        exact condition for each error. */
    method Write(pos: nat, user: array<byte>, count: nat, interrupted: bool, mem: nat, reach: nat)
      returns (r: Result<nat>, newPos: nat)
      requires Valid() && user !in list.role && count <= user.Length && pos + count <= LLONG_MAX
      requires Usable(list.quantum, list.qset)
      modifies this`size, list, list.role.Keys
      ensures Valid() && (forall o :: o in list.role ==> o in old(list.role) || fresh(o))
      ensures interrupted <==> r == Err(ERESTARTSYS)
      ensures r == Err(ENOMEM) <==> !interrupted && mem < old(list.Needs(pos))
      ensures r == Err(EFAULT) <==>
                !interrupted && old(list.Needs(pos)) <= mem && reach < Fit(old(list.quantum), pos, count)
      ensures var at := Landing(pos, old(list.quantum), old(list.qset));
              && (r.Ok? ==> Step(false, old(Abs()), Wrote(pos, at, user[..count], r.value), Abs()))
              && (r == Err(EFAULT) ==>
                    Step(false, old(Abs()), WriteFault(pos, at, Fit(old(list.quantum), pos, count)), Abs()))
      ensures r.Ok? ==>
                && r.value <= count && pos % old(list.quantum) + r.value <= old(list.quantum)
                && (r.value == count || (pos + r.value) % old(list.quantum) == 0)
      ensures size == if r.Ok? && old(size) < newPos then newPos else old(size)
      ensures r.Err? && r != Err(EFAULT) ==> Abs() == old(Abs())
      ensures r.Err? ==> r in {Err(ERESTARTSYS), Err(ENOMEM), Err(EFAULT)}
      ensures newPos == pos + if r.Ok? then r.value else 0
    {
      hide QsetList.Bytes, Landing, Turns, Computed;
      if interrupted {
        return Err(ERESTARTSYS), pos;
      }
      ghost var data := user[..count];
      var quantum := list.quantum;
      ghost var at := Landing(pos, quantum, list.qset);
      LandingFacts(pos, quantum, list.qset);
      var item, slot, off := Split(pos, quantum, list.qset);
      hide Lies;
      var n := if count > quantum - off then quantum - off else count;
      assert n == Fit(quantum, at, count) == Fit(quantum, pos, count);
      r := list.PutBytes(at, item, slot, off, user, n, mem, reach, Turns(item));
      if r.Err? {
        return r, pos;
      }
      assert user[..n] == data[..n];
      newPos := pos + n;
      if size < newPos {
        size := newPos;
      }
      assert Step(false, old(Abs()), Wrote(pos, at, data, n), Abs()) by {
        var s, s' := old(Abs()), Abs();
        assert s' == s.(mem := s'.mem, size := if s.size < pos + n then pos + n else s.size);
        assert Touched(s.mem, s'.mem, s.quantum, at, n, false) && Spells(s'.mem, at, data[..n]);
      }
    }

    /** scull_dev_llseek: the new position, or nothing changes. A sum beyond 64 bits wraps. */
    method Seek(pos: nat, off: int, whence: Whence) returns (r: Result<nat>, newPos: nat)
      requires Valid() && pos <= LLONG_MAX && -LLONG_MAX - 1 <= off <= LLONG_MAX
      ensures r.Err? <==>
                || whence.BadWhence?
                || (whence.SeekSet? && off < 0)
                || (whence.SeekCur? && ToInt64(pos + off) < 0)
                || (whence.SeekEnd? && ToInt64(size + off) < 0)
      ensures r.Err? ==> r == Err(EINVAL) && newPos == pos
      ensures r.Ok? ==> r.value == newPos && newPos <= LLONG_MAX
      ensures r.Ok? && whence.SeekSet? ==> newPos == off
      ensures r.Ok? && whence.SeekCur? ==> newPos == ToInt64(pos + off)
      ensures r.Ok? && whence.SeekEnd? ==> newPos == ToInt64(size + off)
    {
      var target;
      match whence {
        case SeekSet => target := off;
        case SeekCur => target := ToInt64(pos + off);
        case SeekEnd => target := ToInt64(size + off);
        case BadWhence => return Err(EINVAL), pos;
      }
      if target < 0 {
        return Err(EINVAL), pos;
      }
      return Ok(target), target;
    }
  }

  /** __get_user leaves zero in its target when the pointer faults. */
  function GetUser(user: Option<int>): int {
    if user.None? then 0 else ToInt32(user.value)
  }

  function EffectOf(cmd: Command): Event {
    match cmd
    case Reset => ResetGeometry
    case Set(user) => SetQuantum(GetUser(user))
    case Tell(arg) => SetQuantum(arg)
    case Exchange(user, _) => SetQuantum(GetUser(user))
    case Shift(arg) => SetQuantum(arg)
    case _ => NoEffect
  }
}
