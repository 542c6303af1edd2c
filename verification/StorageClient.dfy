/** What a program sees that writes a buffer with as many short writes as it takes and
    reads it back with short reads: block and node boundaries leave no trace. */
module StorageClient {
  import opened Kernel
  import opened Positions
  import opened FlatStore
  import opened QuantumSets
  import opened ScullDev

  /** A buffer of n bytes that does not run into itself: positions repeat after 2^32 items. */
  ghost predicate InReach(dev: ScullDevice, pos: nat, n: nat)
    reads dev, dev.list
  {
    && Usable(dev.list.quantum, dev.list.qset)
    && pos + n <= LLONG_MAX
    && n <= UINT_RANGE * (dev.list.quantum * dev.list.qset)
  }

  /** These bytes stand where calls at pos, pos + 1, ... end up. */
  ghost predicate Stands(s: Store, pos: nat, bytes: seq<byte>) {
    forall i :: 0 <= i < |bytes| ==> StandsAt(s, pos + i, bytes[i])
  }

  ghost predicate StandsAt(s: Store, pos: nat, b: byte) {
    var at := Landing(pos, s.quantum, s.qset);
    at in s.mem && s.mem[at] == b
  }

  lemma StandsNothing(s: Store, pos: nat)
    ensures Stands(s, pos, [])
  {
  }

  /** A later part of the same buffer leaves the earlier bytes alone. */
  lemma EarlierStays(s: Store, s': Store, x: nat, pos: nat, n: nat, b: byte)
    requires 0 < s.quantum && 0 < s.qset && s'.quantum == s.quantum && s'.qset == s.qset
    requires x < pos && pos + n <= x + UINT_RANGE * (s.quantum * s.qset) && pos % s.quantum + n <= s.quantum
    requires Touched(s.mem, s'.mem, s.quantum, Landing(pos, s.quantum, s.qset), n, false) && StandsAt(s, x, b)
    ensures StandsAt(s', x, b)
  {
    var at, a := Landing(pos, s.quantum, s.qset), Landing(x, s.quantum, s.qset);
    if at <= a < at + n {
      LandingNear(pos, a - at, s.quantum, s.qset);
      LandingDiffers(x, pos + (a - at), s.quantum, s.qset);
    }
  }

  /** A byte of a stretch inside one quantum. */
  lemma StandsInside(s: Store, pos: nat, bytes: seq<byte>, k: nat)
    requires 0 < s.quantum && 0 < s.qset && pos % s.quantum + |bytes| <= s.quantum && k < |bytes|
    requires Spells(s.mem, Landing(pos, s.quantum, s.qset), bytes)
    ensures StandsAt(s, pos + k, bytes[k])
  {
    LandingNear(pos, k, s.quantum, s.qset);
    hide Landing;
    assert bytes[k] == bytes[Landing(pos, s.quantum, s.qset) + k - Landing(pos, s.quantum, s.qset)];
  }

  lemma StandsMore(s: Store, s': Store, pos: nat, data: seq<byte>, done: nat, n: nat)
    requires 0 < s.quantum && 0 < s.qset && s'.quantum == s.quantum && s'.qset == s.qset
    requires done + n <= |data| <= UINT_RANGE * (s.quantum * s.qset) && (pos + done) % s.quantum + n <= s.quantum
    requires Stands(s, pos, data[..done])
    requires var at := Landing(pos + done, s.quantum, s.qset);
             Touched(s.mem, s'.mem, s.quantum, at, n, false) && Spells(s'.mem, at, data[done..done + n])
    ensures Stands(s', pos, data[..done + n])
  {
    hide Landing, Touched, Spells, StandsAt;
    var more := data[..done + n];
    forall i | 0 <= i < |more| ensures StandsAt(s', pos + i, more[i]) {
      if i < done {
        assert StandsAt(s, pos + i, data[..done][i]);
        EarlierStays(s, s', pos + i, pos + done, n, data[i]);
      } else {
        StandsInside(s', pos + done, data[done..done + n], i - done);
        assert pos + done + (i - done) == pos + i;
      }
    }
  }

  lemma StandsBehind(s: Store, pos: nat, had: seq<byte>, n: nat, got: seq<byte>)
    requires Stands(s, pos, had) && ReadFinds(s, pos + |had|, Landing(pos + |had|, s.quantum, s.qset), n, got)
    requires pos + |had| < s.size ==> 0 < s.quantum && 0 < s.qset
    ensures Stands(s, pos, had + got) && |got| <= n
  {
    if got != [] {
      LandingFacts(pos + |had|, s.quantum, s.qset);
    }
    hide Landing, Spells, StandsAt;
    forall i | 0 <= i < |had + got| ensures StandsAt(s, pos + i, (had + got)[i]) {
      if i < |had| {
        assert StandsAt(s, pos + i, had[i]);
      } else {
        StandsInside(s, pos + |had|, got, i - |had|);
        assert pos + |had| + (i - |had|) == pos + i;
      }
    }
  }

  lemma NothingFound(s: Store, pos: nat, at: nat, n: nat)
    requires ReadFinds(s, pos, at, n, []) && 0 < n
    ensures s.size <= pos || at !in s.mem
  {
  }

  /** What the kernel does to one call: anything at all, or nothing bad. */
  method Conditions(mayFail: bool, memory: nat, count: nat) returns (interrupted: bool, mem: nat, reach: nat)
    ensures !mayFail ==> !interrupted && mem == memory && reach == count
  {
    if mayFail {
      interrupted, mem, reach := *, *, *;
    } else {
      interrupted, mem, reach := false, memory, count;
    }
  }

  /** One short write of a sequence. */
  method WriteSome(dev: ScullDevice, pos: nat, data: seq<byte>, mayFail: bool) returns (r: Result<nat>)
    requires dev.Valid() && Usable(dev.list.quantum, dev.list.qset) && pos + |data| <= LLONG_MAX
    modifies dev, dev.list, dev.list.role.Keys
    ensures dev.Valid() && dev.list.quantum == old(dev.list.quantum) && dev.list.qset == old(dev.list.qset)
    ensures forall o :: o in dev.list.role ==> o in old(dev.list.role) || fresh(o)
    ensures r.Ok? ==>
              Step(false, old(dev.Abs()), Wrote(pos, Landing(pos, dev.list.quantum, dev.list.qset), data, r.value), dev.Abs())
    ensures !mayFail ==> r.Ok?
  {
    hide QsetList.Bytes, Landing;
    var user := new byte[|data|](i requires 0 <= i < |data| => data[i]);
    assert user[..user.Length] == data;
    var item, slot, off := Split(pos, dev.list.quantum, dev.list.qset);
    var interrupted, mem, reach := Conditions(mayFail, Turns(item) + 3, user.Length);
    var newPos;
    r, newPos := dev.Write(pos, user, user.Length, interrupted, mem, reach);
  }

  /** One short read. */
  method ReadSome(dev: ScullDevice, pos: nat, n: nat, mayFail: bool) returns (r: Result<seq<byte>>)
    requires dev.Valid() && pos + n <= LLONG_MAX
    modifies dev, dev.list, dev.list.role.Keys
    ensures dev.Valid() && dev.Abs() == old(dev.Abs())
    ensures forall o :: o in dev.list.role ==> o in old(dev.list.role) || fresh(o)
    ensures r.Ok? ==> ReadFinds(dev.Abs(), pos, Landing(pos, dev.list.quantum, dev.list.qset), n, r.value)
    ensures !mayFail ==> r.Ok?
  {
    hide QsetList.Bytes, Landing;
    var user := new byte[n];
    var interrupted, mem, reach := Conditions(mayFail, 0, n);
    var got, newPos := dev.Read(pos, user, n, interrupted, mem, reach);
    r := if got.Err? then Err(got.errno) else Ok(user[..got.value]);
  }

  /** Writes until everything is stored or a call fails. Each turn moves at least one byte. */
  method WriteFully(dev: ScullDevice, pos: nat, data: seq<byte>, mayFail: bool) returns (ok: bool)
    requires dev.Valid() && InReach(dev, pos, |data|)
    modifies dev, dev.list, dev.list.role.Keys
    ensures dev.Valid()
    ensures forall o :: o in dev.list.role ==> o in old(dev.list.role) || fresh(o)
    ensures ok ==> Stands(dev.Abs(), pos, data) && (data != [] ==> pos + |data| <= dev.size)
    ensures !mayFail ==> ok
  {
    hide QsetList.Bytes, Landing, Stands;
    var done := 0;
    StandsNothing(dev.Abs(), pos);
    while done < |data|
      invariant done <= |data|
      invariant dev.Valid() && dev.list.quantum == old(dev.list.quantum) && dev.list.qset == old(dev.list.qset)
      invariant forall o :: o in dev.list.role ==> o in old(dev.list.role) || fresh(o)
      invariant Stands(dev.Abs(), pos, data[..done])
      invariant 0 < done ==> pos + done <= dev.size
    {
      ghost var before := dev.Abs();
      var r := WriteSome(dev, pos + done, data[done..], mayFail);
      if r.Err? {
        return false;
      }
      assert data[done..][..r.value] == data[done..done + r.value];
      LandingFacts(pos + done, before.quantum, before.qset);
      StandsMore(before, dev.Abs(), pos, data, done, r.value);
      done := done + r.value;
    }
    assert data[..done] == data;
    return true;
  }

  /** Reads until n bytes have arrived, a call fails, or nothing comes any more. */
  method ReadFully(dev: ScullDevice, pos: nat, n: nat, mayFail: bool) returns (ok: bool, back: seq<byte>)
    requires dev.Valid() && pos + n <= LLONG_MAX
    modifies dev, dev.list, dev.list.role.Keys
    ensures dev.Valid() && dev.Abs() == old(dev.Abs())
    ensures Stands(dev.Abs(), pos, back) && |back| <= n
    ensures ok && pos + n <= dev.size && (forall x: nat :: pos <= x < pos + n ==> Landing(x, dev.list.quantum, dev.list.qset) in dev.Abs().mem) ==>
              |back| == n
    ensures !mayFail ==> ok
  {
    hide QsetList.Bytes, ReadFinds, Stands, Landing;
    back := [];
    ok := true;
    ghost var s := dev.Abs();
    StandsNothing(s, pos);
    while |back| < n
      invariant |back| <= n && ok
      invariant dev.Valid() && dev.Abs() == s
      invariant forall o :: o in dev.list.role ==> o in old(dev.list.role) || fresh(o)
      invariant Stands(s, pos, back)
    {
      var r := ReadSome(dev, pos + |back|, n - |back|, mayFail);
      if r.Err? {
        return false, back;
      }
      if r.value == [] {
        NothingFound(s, pos + |back|, Landing(pos + |back|, s.quantum, s.qset), n - |back|);
        return true, back;
      }
      StandsBehind(s, pos, back, n - |back|, r.value);
      back := back + r.value;
    }
  }

  /** What was written comes back, whatever positions the buffer straddles; and if no
      call fails, both loops come to their end. */
  method RoundTrip(dev: ScullDevice, pos: nat, data: seq<byte>, mayFail: bool) returns (ok: bool, back: seq<byte>)
    requires dev.Valid() && InReach(dev, pos, |data|)
    modifies dev, dev.list, dev.list.role.Keys
    ensures ok ==> back == data
    ensures !mayFail ==> ok
  {
    hide QsetList.Bytes, Landing, Stands;
    back := [];
    ok := WriteFully(dev, pos, data, mayFail);
    if ok {
      ghost var s := dev.Abs();
      StandsEverywhere(s, pos, data);
      ok, back := ReadFully(dev, pos, |data|, mayFail);
      if ok {
        StandsOnce(s, pos, data, back);
      }
    }
  }

  lemma StandsEverywhere(s: Store, pos: nat, data: seq<byte>)
    requires Stands(s, pos, data)
    ensures forall x: nat :: pos <= x < pos + |data| ==> Landing(x, s.quantum, s.qset) in s.mem
  {
    forall x: nat | pos <= x < pos + |data| ensures Landing(x, s.quantum, s.qset) in s.mem {
      assert StandsAt(s, pos + (x - pos), data[x - pos]);
      assert pos + (x - pos) == x;
    }
  }

  lemma StandsOnce(s: Store, pos: nat, a: seq<byte>, b: seq<byte>)
    requires Stands(s, pos, a) && Stands(s, pos, b) && |a| == |b|
    ensures a == b
  {
    forall i | 0 <= i < |a| ensures a[i] == b[i] {
      assert StandsAt(s, pos + i, a[i]) && StandsAt(s, pos + i, b[i]);
    }
  }
}
