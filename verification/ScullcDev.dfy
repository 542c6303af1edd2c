/** scullc_dev_common.c: the same device with cleared blocks, and with every transfer
    cut into chunks that go through a small buffer. */
module ScullcDev {
  import opened Kernel
  import opened Positions
  import opened FlatStore
  import opened QuantumSets

  const CHUNK := 128

  /** The part of n bytes that comes in whole chunks. */
  function WholeChunks(n: nat): (w: nat)
    ensures w <= n < w + 128 && w % 128 == 0
  {
    n - n % CHUNK
  }

  lemma SliceOfPrefix(s: seq<byte>, n: nat, a: nat, b: nat)
    requires a <= b <= n <= |s|
    ensures s[..n][a..b] == s[a..b]
  {
  }

  lemma NoChunks()
    ensures WholeChunks(0) == 0
  {
  }

  lemma NextChunk(done: nat)
    requires done == WholeChunks(done)
    ensures done + CHUNK == WholeChunks(done + CHUNK)
  {
  }

  lemma LastChunk(done: nat, reach: nat)
    requires done == WholeChunks(done) && done <= reach < done + CHUNK
    ensures done == WholeChunks(reach)
  {
  }

  /** One turn of the read loop: count bytes from the block, through tmp, to user[done..]. */
  method ChunkToUser(user: array<byte>, done: nat, tmp: array<byte>, b: array<byte>, off: nat, count: nat, reach: nat)
    returns (left: nat)
    requires user != b && tmp != b && tmp != user && tmp.Length == CHUNK && count <= CHUNK
    requires done + count <= user.Length && off + done + count <= b.Length
    modifies user, tmp
    ensures left == if reach < count then count - reach else 0
    ensures forall k :: done <= k < done + (count - left) ==> user[k] == b[off + k]
    ensures forall k :: 0 <= k < user.Length && !(done <= k < done + count) ==> user[k] == old(user[k])
  {
    left := CopyUser(tmp, 0, b, off + done, count, count);
    left := CopyUser(user, done, tmp, 0, count, reach);
    ghost var moved := count - left;
    forall k | done <= k < done + moved ensures user[k] == b[off + k] {
      assert user[k] == user[done..done + moved][k - done] == tmp[0..0 + moved][k - done] == tmp[0..0 + count][k - done];
    }
  }

  /** The read loop: in all respects one copy_to_user of n bytes. */
  method ChunksToUser(user: array<byte>, b: array<byte>, off: nat, n: nat, reach: nat) returns (ok: bool)
    requires user != b && n <= user.Length && off + n <= b.Length
    modifies user
    ensures ok <==> n <= reach
    ensures forall k :: 0 <= k < n && k < reach ==> user[k] == b[off + k]
    ensures forall k :: n <= k < user.Length ==> user[k] == old(user[k])
  {
    var tmp := new byte[CHUNK];
    var done := 0;
    while done != n
      invariant done <= n && done <= reach
      invariant forall k :: 0 <= k < done ==> user[k] == b[off + k]
      invariant forall k :: n <= k < user.Length ==> user[k] == old(user[k])
    {
      var count := if n - done > CHUNK then CHUNK else n - done;
      var left := ChunkToUser(user, done, tmp, b, off, count, reach - done);
      if left != 0 {
        return false;
      }
      done := done + count;
    }
    return true;
  }

  class ScullcDevice {
    const list: QsetList
    var size: nat

    ghost predicate Valid()
      reads this, list, list.role.Keys
    {
      && this !in list.role
      && list.Valid()
      && (list.nodes != [] ==> Usable(list.quantum, list.qset))
      && (0 < size ==> list.nodes != [])
    }

    /** The quantum is chosen once, when the device is built. */
    ghost function Abs(): Store
      requires Valid()
      reads this, list, list.role.Keys
    {
      Store(size, list.Bytes(), list.quantum, list.qset, list.quantum, list.qset)
    }

    constructor (quantum: int)
      ensures Valid() && fresh(list)
      ensures Abs() == Store(0, imap[], quantum, 1000, quantum, 1000)
    {
      list := new QsetList(quantum, DEFAULT_SCULL_QSET);
      size := 0;
    }

    /** scullc_trim */
    method Trim()
      requires Valid()
      modifies this, list, list.nodes
      ensures Valid() && list.role == map[]
      ensures Step(true, old(Abs()), Trimmed, Abs())
      ensures size == 0 && list.nodes == [] && list.quantum == old(list.quantum) && list.qset == old(list.qset)
    {
      list.FreeAll();
      size := 0;
    }

    /** One turn of the write loop: count bytes from user[done..], through tmp, into the
        block that holds `at`; a fault leaves the block alone. */
    method ChunkFromUser(ghost at: nat, done: nat, ghost item: nat, ghost slot: nat, b: array<byte>, off: nat,
                         tmp: array<byte>, user: array<byte>, count: nat, reach: nat)
      returns (ok: bool)
      requires Valid() && list.Holds(item, slot, b) && 0 < count && off + done + count <= list.quantum
      requires Lies(at, item, slot, off, list.quantum, list.qset)
      requires done + count <= user.Length && user !in list.role
      requires tmp !in list.role && tmp != user && tmp.Length == CHUNK && count <= CHUNK
      modifies b, tmp
      ensures Valid() && list.Holds(item, slot, b)
      ensures ok <==> count <= reach
      ensures !ok ==> list.Bytes() == old(list.Bytes())
      ensures list.Bytes().Keys == old(list.Bytes()).Keys
      ensures ok ==> Spells(list.Bytes(), at + done, user[done..done + count])
      ensures forall x: nat :: x in list.Bytes() && !(ok && at + done <= x < at + done + count) ==> list.Bytes()[x] == old(list.Bytes())[x]
    {
      hide QsetList.Bytes;
      var left := CopyUser(tmp, 0, user, done, count, reach);
      if left != 0 {
        return false;
      }
      ghost var chunk := user[done..done + count];
      assert tmp[0..0 + count] == chunk;
      LiesFurther(at, done, item, slot, off, list.quantum, list.qset);
      left := list.StoreAt(at + done, item, slot, b, off + done, tmp, 0, count, count);
      return true;
    }

    /** The write loop, into the block that holds `at`: on success all n bytes are there;
        after a fault exactly the whole chunks before it are. */
    method ChunksFromUser(ghost at: nat, ghost item: nat, ghost slot: nat, b: array<byte>, off: nat,
                          user: array<byte>, n: nat, reach: nat)
      returns (ok: bool)
      requires Valid() && list.Holds(item, slot, b) && off + n <= list.quantum
      requires Lies(at, item, slot, off, list.quantum, list.qset)
      requires n <= user.Length && user !in list.role
      modifies b
      ensures Valid() && list.Holds(item, slot, b)
      ensures ok <==> n <= reach
      ensures list.Bytes().Keys == old(list.Bytes()).Keys
      ensures WrittenUpTo(old(list.Bytes()), list.Bytes(), at, user[..n], if ok then n else WholeChunks(reach))
    {
      hide QsetList.Bytes, Lies, WrittenUpTo, WholeChunks;
      NoChunks();
      var tmp := new byte[CHUNK];
      var done := 0;
      ghost var mem, data := list.Bytes(), user[..n];
      NothingWritten(mem, at, data);
      while done != n
        invariant done <= n && done <= reach && (done == n || done == WholeChunks(done))
        invariant Valid() && list.Holds(item, slot, b) && user[..n] == data
        invariant list.Bytes().Keys == mem.Keys
        invariant WrittenUpTo(mem, list.Bytes(), at, data, done)
      {
        var count := if n - done > CHUNK then CHUNK else n - done;
        ghost var before := list.Bytes();
        var ok := ChunkFromUser(at, done, item, slot, b, off, tmp, user, count, reach - done);
        if !ok {
          LastChunk(done, reach);
          return false;
        }
        SliceOfPrefix(user[..], n, done, done + count);
        MoreWritten(mem, before, list.Bytes(), at, data, done, count);
        NextChunk(done);
        done := done + count;
      }
      return true;
    }

    /** Find or allocate a cleared block, then the write loop. */
    method PutChunks(ghost at: nat, number: int, slot: nat, off: nat, user: array<byte>, n: nat, mem: nat, reach: nat, ghost item: nat)
      returns (r: Result<nat>)
      requires Valid() && slot < list.qset && off + n <= list.quantum && -INT_MAX - 1 <= number <= INT_MAX && item == Turns(number)
      requires 0 < list.quantum && Usable(list.quantum, list.qset) && Lies(at, item, slot, off, list.quantum, list.qset)
      requires n <= user.Length && user !in list.role
      modifies list, list.role.Keys
      ensures Valid() && (forall o :: o in list.role ==> o in old(list.role) || fresh(o))
      ensures list.quantum == old(list.quantum) && list.qset == old(list.qset) && |old(list.nodes)| <= |list.nodes|
      ensures r == if mem < old(list.Missing(item, slot)) then Err(ENOMEM) else if reach < n then Err(EFAULT) else Ok(n)
      ensures r == Err(ENOMEM) ==> list.Bytes() == old(list.Bytes())
      ensures r != Err(ENOMEM) ==>
                var done := if r.Ok? then n else WholeChunks(reach);
                && list.nodes != [] && Touched(old(list.Bytes()), list.Bytes(), list.quantum, at, done, true)
                && Spells(list.Bytes(), at, user[..done])
    {
      hide QsetList.Bytes, Lies, Turns, Usable;
      var b := list.Provide(at, number, slot, off, mem, true, item);
      if b == null {
        return Err(ENOMEM);
      }
      ghost var mid, data := list.Bytes(), user[..n];
      var ok := ChunksFromUser(at, item, slot, b, off, user, n, reach);
      ghost var done := if ok then n else WholeChunks(reach);
      assert done <= n && data[..done] == user[..done];
      ThenChanged(old(list.Bytes()), mid, list.Bytes(), list.quantum, at, done, true);
      return if ok then Ok(n) else Err(EFAULT);
    }

    /** scullc_dev_write */
    method Write(pos: nat, user: array<byte>, count: nat, interrupted: bool, mem: nat, reach: nat)
      returns (r: Result<nat>, newPos: nat)
      requires Valid() && user !in list.role && count <= user.Length && pos + count <= LLONG_MAX
      requires Usable(list.quantum, list.qset)
      modifies this`size, list, list.role.Keys
      ensures Valid() && (forall o :: o in list.role ==> o in old(list.role) || fresh(o))
      ensures interrupted <==> r == Err(ERESTARTSYS)
      ensures r == Err(ENOMEM) <==> !interrupted && mem < old(list.Needs(pos))
      ensures r == Err(EFAULT) <==>
                !interrupted && old(list.Needs(pos)) <= mem && reach < Fit(old(list.quantum), pos, count)
      ensures var at := Landing(pos, old(list.quantum), old(list.qset));
              && (r.Ok? ==> Step(true, old(Abs()), Wrote(pos, at, user[..count], r.value), Abs()))
              && (r == Err(EFAULT) ==>
                    && Step(true, old(Abs()), WriteFault(pos, at, WholeChunks(reach)), Abs())
                    && Spells(Abs().mem, at, user[..WholeChunks(reach)]))
      ensures r.Ok? ==>
                && r.value <= count && pos % old(list.quantum) + r.value <= old(list.quantum)
                && (r.value == count || (pos + r.value) % old(list.quantum) == 0)
      ensures size == if r.Ok? && old(size) < newPos then newPos else old(size)
      ensures r.Err? && r != Err(EFAULT) ==> Abs() == old(Abs())
      ensures r.Err? ==> r in {Err(ERESTARTSYS), Err(ENOMEM), Err(EFAULT)}
      ensures newPos == pos + if r.Ok? then r.value else 0
    {
      hide QsetList.Bytes, Landing, Turns, Computed;
      if interrupted {
        return Err(ERESTARTSYS), pos;
      }
      ghost var data := user[..count];
      var quantum := list.quantum;
      ghost var at := Landing(pos, quantum, list.qset);
      LandingFacts(pos, quantum, list.qset);
      var item, slot, off := Split(pos, quantum, list.qset);
      hide Lies;
      var n := if count > quantum - off then quantum - off else count;
      assert n == Fit(quantum, at, count) == Fit(quantum, pos, count);
      r := PutChunks(at, item, slot, off, user, n, mem, reach, Turns(item));
      if r.Err? {
        return r, pos;
      }
      assert user[..n] == data[..n];
      newPos := pos + n;
      if size < newPos {
        size := newPos;
      }
      assert Step(true, old(Abs()), Wrote(pos, at, data, n), Abs()) by {
        var s, s' := old(Abs()), Abs();
        assert s' == s.(mem := s'.mem, size := if s.size < pos + n then pos + n else s.size);
        assert Touched(s.mem, s'.mem, s.quantum, at, n, true) && Spells(s'.mem, at, data[..n]);
      }
    }

    /** The read loop, out of the block that holds `at`. */
    method Deliver(ghost at: nat, b: array<byte>, off: nat, user: array<byte>, n: nat, reach: nat) returns (ok: bool)
      requires Valid() && user !in list.role && n <= user.Length
      requires b in list.role && off + n <= b.Length
      requires forall x: nat :: at <= x < at + n ==> x in Abs().mem && Abs().mem[x] == b[off + x - at]
      modifies user
      ensures Valid() && Abs() == old(Abs())
      ensures ok <==> n <= reach
      ensures user[n..] == old(user[n..])
      ensures ok ==> Spells(Abs().mem, at, user[..n])
    {
      hide QsetList.Bytes;
      ok := ChunksToUser(user, b, off, n, reach);
      if ok {
        forall x: nat | at <= x < at + n ensures x in old(Abs()).mem && old(Abs()).mem[x] == user[..n][x - at] {
          assert user[..n][x - at] == b[off + (x - at)] == b[off + x - at];
        }
      }
    }

    /** The part of a read below the size: clip, find the block, copy. */
    method ReadBlock(pos: nat, user: array<byte>, count: nat, mem: nat, reach: nat) returns (r: Result<nat>)
      requires Valid() && user !in list.role && count <= user.Length && pos < size
      modifies list, list.role.Keys, user
      ensures Valid() && (forall o :: o in list.role ==> o in old(list.role) || fresh(o))
      ensures Abs() == old(Abs()) && 0 < list.quantum
      ensures r == if Landing(pos, list.quantum, list.qset) !in Abs().mem then Ok(0)
                   else if reach < Fit(list.quantum, pos, Min(count, size - pos)) then Err(EFAULT)
                   else Ok(Fit(list.quantum, pos, Min(count, size - pos)))
      ensures r.Ok? ==>
                r.value <= count && user[r.value..] == old(user[r.value..])
                && ReadFinds(Abs(), pos, Landing(pos, list.quantum, list.qset), count, user[..r.value])
    {
      hide QsetList.Bytes, Landing, Spells;
      var n := if pos + count > size then size - pos else count;
      ghost var at := Landing(pos, list.quantum, list.qset);
      LandingFacts(pos, list.quantum, list.qset);
      var b, off := list.Fetch(pos, mem, at);
      if b == null {
        return Ok(0);
      }
      if n > list.quantum - off {
        n := list.quantum - off;
      }
      assert n == Fit(list.quantum, at, Min(count, size - pos));
      var ok := Deliver(at, b, off, user, n, reach);
      if !ok {
        return Err(EFAULT);
      }
      return Ok(n);
    }

    /** scullc_dev_read */
    method Read(pos: nat, user: array<byte>, count: nat, interrupted: bool, mem: nat, reach: nat)
      returns (r: Result<nat>, newPos: nat)
      requires Valid() && user !in list.role && count <= user.Length && pos + count <= LLONG_MAX
      modifies list, list.role.Keys, user
      ensures Valid() && (forall o :: o in list.role ==> o in old(list.role) || fresh(o))
      ensures Abs() == old(Abs())
      ensures r.Err? <==> r in {Err(ERESTARTSYS), Err(EFAULT)}
      ensures r == Err(ERESTARTSYS) <==> interrupted
      ensures r == Err(EFAULT) <==>
                !interrupted && pos < size && Landing(pos, list.quantum, list.qset) in Abs().mem
                && 0 < list.quantum && reach < Fit(list.quantum, pos, Min(count, size - pos))
      ensures r.Ok? ==>
                r.value <= count
                && Step(true, old(Abs()), ReadBytes(pos, Landing(pos, list.quantum, list.qset), count, user[..r.value]), Abs())
      ensures r.Ok? && pos < size && Landing(pos, list.quantum, list.qset) in Abs().mem && 0 < list.quantum ==>
                || r.value == count || pos + r.value == size || (pos + r.value) % list.quantum == 0
      ensures r.Ok? ==> user[r.value..] == old(user[r.value..])
      ensures newPos == pos + if r.Ok? then r.value else 0
    {
      hide QsetList.Bytes, Landing, Usable;
      if interrupted {
        return Err(ERESTARTSYS), pos;
      }
      if pos >= size {
        return Ok(0), pos;
      }
      r := ReadBlock(pos, user, count, mem, reach);
      newPos := pos + if r.Ok? then r.value else 0;
    }
  }

  /** The first `done` bytes of data stand at pos, and nothing else differs. */
  ghost predicate WrittenUpTo(mem: imap<nat, byte>, mem': imap<nat, byte>, pos: nat, data: seq<byte>, done: nat) {
    && done <= |data|
    && Spells(mem', pos, data[..done])
    && forall x: nat :: x in mem && x in mem' && !(pos <= x < pos + done) ==> mem'[x] == mem[x]
  }

  lemma NothingWritten(mem: imap<nat, byte>, pos: nat, data: seq<byte>)
    ensures WrittenUpTo(mem, mem, pos, data, 0)
  {
  }

  lemma MoreWritten(mem: imap<nat, byte>, a: imap<nat, byte>, b: imap<nat, byte>, pos: nat, data: seq<byte>, done: nat, count: nat)
    requires WrittenUpTo(mem, a, pos, data, done) && done + count <= |data|
    requires a.Keys == b.Keys == mem.Keys && Spells(b, pos + done, data[done..done + count])
    requires forall x: nat :: x in b && !(pos + done <= x < pos + done + count) ==> b[x] == a[x]
    ensures WrittenUpTo(mem, b, pos, data, done + count)
  {
    forall x: nat | pos <= x < pos + done + count ensures x in b && b[x] == data[..done + count][x - pos] {
      if x < pos + done {
        assert a[x] == data[..done][x - pos];
      } else {
        assert b[x] == data[done..done + count][x - (pos + done)];
      }
    }
  }
}
