/** sbull_device.c: requests and bios as loops over segments, against one flat copy; and the
    disk geometry reported for a capacity. */
module Sbull {
  import opened Kernel
  import opened Transfers

  const SECTOR_SIZE := 512
  const MAX_CHS := 63 * 255 * 65535

  datatype Status = OK | IOERR

  /** struct hd_geometry; start is always 0. */
  datatype Geometry = Geometry(sectors: nat, heads: nat, cylinders: nat)

  // ---- what a transfer does ----

  /** The bytes of a request that the device has room for. */
  function Moved(size: nat, pos: nat, segs: seq<Segment>): nat
    requires pos <= size
  {
    Min(Total(segs, |segs|), size - pos)
  }

  /** The device after a write of the first n segments, cut off at its end. */
  function Written(dev: seq<byte>, pos: nat, mem: seq<byte>, segs: seq<Segment>, n: nat): (d: seq<byte>)
    requires pos <= |dev| && InMemory(segs, |mem|) && n <= |segs|
    ensures |d| == |dev|
  {
    Splice(dev, pos, Gather(mem, segs, n)[..Min(Total(segs, n), |dev| - pos)])
  }

  /** Memory after a read into the first n segments. */
  function ReadOut(dev: seq<byte>, pos: nat, mem: seq<byte>, segs: seq<Segment>, n: nat): (m: seq<byte>)
    requires pos <= |dev| && InMemory(segs, |mem|) && n <= |segs|
    ensures |m| == |mem|
  {
    Scatter(mem, segs, dev[pos..], n)
  }

  // ---- one turn of the loops ----

  lemma WriteOne(dev: seq<byte>, pos: nat, mem: seq<byte>, segs: seq<Segment>, n: nat)
    requires pos <= |dev| && InMemory(segs, |mem|) && n < |segs|
    ensures var done := Min(Total(segs, n), |dev| - pos);
            var len := Min(segs[n].len, |dev| - pos - done);
            && done + len == Min(Total(segs, n + 1), |dev| - pos)
            && Written(dev, pos, mem, segs, n + 1)
               == Splice(Written(dev, pos, mem, segs, n), pos + done, mem[segs[n].at..segs[n].at + len])
  {
    var room := |dev| - pos;
    var done := Min(Total(segs, n), room);
    var len := Min(segs[n].len, room - done);
    var held, piece := Gather(mem, segs, n), Piece(mem, segs[n]);
    GatherNext(mem, segs, n);
    NextPart(held, piece, room);
    assert piece[..len] == mem[segs[n].at..segs[n].at + len];
    hide Gather, Piece, Splice, InMemory;
    SpliceTwice(dev, pos, held[..done], piece[..len]);
  }

  /** The part of two runs of bytes that there is room for. */
  lemma NextPart(a: seq<byte>, b: seq<byte>, room: nat)
    ensures var done := Min(|a|, room);
            var len := Min(|b|, room - done);
            done + len == Min(|a + b|, room) && (a + b)[..done + len] == a[..done] + b[..len]
  {
    if room <= |a| {
      assert b[..0] == [];
    } else {
      assert a[..|a|] == a;
    }
  }

  lemma ReadOne(dev: seq<byte>, pos: nat, mem: seq<byte>, segs: seq<Segment>, n: nat)
    requires pos <= |dev| && InMemory(segs, |mem|) && n < |segs|
    ensures var done := Min(Total(segs, n), |dev| - pos);
            var len := Min(segs[n].len, |dev| - pos - done);
            && done + len == Min(Total(segs, n + 1), |dev| - pos)
            && ReadOut(dev, pos, mem, segs, n + 1)
               == Splice(ReadOut(dev, pos, mem, segs, n), segs[n].at, dev[pos + done..pos + done + len])
  {
    var done := Min(Total(segs, n), |dev| - pos);
    var len := Min(segs[n].len, |dev| - pos - done);
    assert Share(segs, dev[pos..], n) == dev[pos + done..pos + done + len];
  }

  /** Device and memory after the first n segments of a transfer. */
  ghost predicate After(write: bool, dev: seq<byte>, pos: nat, mem: seq<byte>, segs: seq<Segment>, n: nat, d: seq<byte>, m: seq<byte>)
    requires InMemory(segs, |mem|) && n <= |segs|
  {
    && pos <= |dev| && |d| == |dev| && |m| == |mem|
    && (write ==> d == Written(dev, pos, mem, segs, n) && m == mem)
    && (!write ==> m == ReadOut(dev, pos, mem, segs, n) && d == dev)
  }

  lemma AfterNone(write: bool, dev: seq<byte>, pos: nat, mem: seq<byte>, segs: seq<Segment>)
    requires InMemory(segs, |mem|) && pos <= |dev|
    ensures After(write, dev, pos, mem, segs, 0, dev, mem)
  {
  }

  lemma Wrap(a: nat, b: nat)
    ensures (a % UINT_RANGE + b) % UINT_RANGE == (a + b) % UINT_RANGE
  {
  }

  // ---- the driver ----

  class SbullDevice {
    const capacity: nat // in sectors
    const data: array<byte>

    ghost predicate Valid() {
      data.Length == capacity * 512 && data.Length <= LLONG_MAX
    }

    constructor (capacity: nat)
      requires capacity * SECTOR_SIZE <= LLONG_MAX
      ensures Valid() && this.capacity == capacity && fresh(data)
    {
      this.capacity := capacity;
      data := new byte[capacity * SECTOR_SIZE];
    }

    method ToDevice(pos: nat, memory: array<byte>, at: nat, len: nat)
      requires memory != data && pos + len <= data.Length && at + len <= memory.Length
      modifies data
      ensures data[..] == Splice(old(data[..]), pos, memory[at..at + len])
    {
      forall k | 0 <= k < len {
        data[pos + k] := memory[at + k];
      }
    }

    method FromDevice(pos: nat, memory: array<byte>, at: nat, len: nat)
      requires memory != data && pos + len <= data.Length && at + len <= memory.Length
      modifies memory
      ensures memory[..] == Splice(old(memory[..]), at, data[pos..pos + len])
    {
      forall k | 0 <= k < len {
        memory[at + k] := data[pos + k];
      }
    }

    /** The memcpy for segment i, of which len bytes fit. */
    method Copy(pos: nat, memory: array<byte>, segs: seq<Segment>, i: nat, len: nat, write: bool,
                ghost dev: seq<byte>, ghost start: nat, ghost mem: seq<byte>)
      requires memory != data && i < |segs| && InMemory(segs, |mem|)
      requires After(write, dev, start, mem, segs, i, data[..], memory[..])
      requires pos == start + Min(Total(segs, i), |dev| - start) && len == Min(segs[i].len, |dev| - pos)
      modifies data, memory
      ensures pos + len == start + Min(Total(segs, i + 1), |dev| - start)
      ensures After(write, dev, start, mem, segs, i + 1, data[..], memory[..])
    {
      hide Written, ReadOut, Splice;
      if write {
        WriteOne(dev, start, mem, segs, i);
        ToDevice(pos, memory, segs[i].at, len);
      } else {
        ReadOne(dev, start, mem, segs, i);
        FromDevice(pos, memory, segs[i].at, len);
      }
    }

    /** process_request: segments are clipped at the end of the device; nr_bytes is an
        unsigned int. */
    method ProcessRequest(sector: nat, segs: seq<Segment>, memory: array<byte>, write: bool) returns (nrBytes: nat)
      requires Valid() && sector <= capacity && memory != data && InMemory(segs, memory.Length)
      modifies data, memory
      ensures nrBytes == Min(Total(segs, |segs|), data.Length - sector * 512) % 0x1_0000_0000
      ensures After(write, old(data[..]), sector * 512, old(memory[..]), segs, |segs|, data[..], memory[..])
    {
      hide After, InMemory;
      ghost var start := sector * SECTOR_SIZE;
      ghost var dev, mem := data[..], memory[..];
      var pos := sector * SECTOR_SIZE;
      var devSize := capacity * SECTOR_SIZE;
      nrBytes := 0;
      var i := 0;
      AfterNone(write, dev, start, mem, segs);
      while i < |segs|
        invariant i <= |segs| && start <= pos <= devSize
        invariant pos - start == Min(Total(segs, i), devSize - start) && nrBytes == (pos - start) % UINT_RANGE
        invariant After(write, dev, start, mem, segs, i, data[..], memory[..])
      {
        var len := segs[i].len;
        if pos + len > devSize {
          len := devSize - pos;
        }
        Copy(pos, memory, segs, i, len, write, dev, start, mem);
        pos := pos + len;
        Wrap(pos - len - start, len);
        nrBytes := (nrBytes + len) % UINT_RANGE;
        i := i + 1;
      }
    }

    /** process_bio: the first segment that does not fit ends the transfer. */
    method ProcessBio(sector: nat, segs: seq<Segment>, memory: array<byte>, write: bool) returns (status: Status)
      requires Valid() && memory != data && InMemory(segs, memory.Length)
      modifies data, memory
      ensures var room := data.Length - sector * 512;
              && (status == IOERR <==> Fitting(segs, room, 0) < |segs|)
              && (room < 0 ==> data[..] == old(data[..]) && memory[..] == old(memory[..]))
              && (room >= 0 ==> After(write, old(data[..]), sector * 512, old(memory[..]), segs, Fitting(segs, room, 0),
                                      data[..], memory[..]))
    {
      hide After;
      ghost var start := sector * SECTOR_SIZE;
      ghost var dev, mem := data[..], memory[..];
      var pos := sector * SECTOR_SIZE;
      var devSize := capacity * SECTOR_SIZE;
      status := OK;
      var i := 0;
      if start <= devSize {
        AfterNone(write, dev, start, mem, segs);
      }
      while i < |segs|
        invariant i <= |segs| && (start <= devSize ==> pos <= devSize)
        invariant pos - start == Total(segs, i)
        invariant Fitting(segs, devSize - start, 0) == Fitting(segs, devSize - pos, i)
        invariant start > devSize ==> i == 0 && data[..] == dev && memory[..] == mem
        invariant start <= devSize ==> After(write, dev, start, mem, segs, i, data[..], memory[..])
      {
        var len := segs[i].len;
        if pos + len > devSize {
          status := IOERR;
          break;
        }
        Copy(pos, memory, segs, i, len, write, dev, start, mem);
        pos := pos + len;
        i := i + 1;
      }
    }

    /** ioctl_hdio_getgeo; `accessible` says whether copy_to_user succeeds. */
    method GetGeometry(accessible: bool) returns (r: Result<Geometry>)
      requires capacity < U64_RANGE
      ensures r == if accessible then Ok(GeometryOf(capacity)) else Err(EINVAL)
    {
      var geo := Geometry(0, 0, 0);
      if capacity > 63 {
        geo := geo.(sectors := 63);
        var quotient := (capacity + (63 - 1)) % U64_RANGE / 63;
        if quotient > 255 {
          geo := geo.(heads := 255, cylinders := (quotient + (255 - 1)) / 255 % U16_RANGE);
        } else {
          geo := geo.(heads := quotient % U8_RANGE, cylinders := 1);
        }
      } else {
        geo := geo.(sectors := capacity % U8_RANGE, cylinders := 1, heads := 1);
      }
      r := if accessible then Ok(geo) else Err(EINVAL);
    }
  }

  // ---- transfers: theorems ----

  /** A read through segments that do not overlap is one flat copy: they hold the next
      bytes of the device, up to its end, and then what they held before. */
  lemma ReadIsFlatCopy(dev: seq<byte>, pos: nat, mem: seq<byte>, segs: seq<Segment>)
    requires pos <= |dev| && InMemory(segs, |mem|) && Disjoint(segs)
    ensures var k := Moved(|dev|, pos, segs);
            Gather(ReadOut(dev, pos, mem, segs, |segs|), segs, |segs|) == dev[pos..][..k] + Gather(mem, segs, |segs|)[k..]
  {
    hide Gather, Scatter, Disjoint, InMemory, Total;
    GatherScattered(mem, segs, dev[pos..], |segs|);
  }

  /** A read that is not cut off fills its segments. */
  lemma ReadWhole(dev: seq<byte>, pos: nat, mem: seq<byte>, segs: seq<Segment>)
    requires pos + Total(segs, |segs|) <= |dev| && InMemory(segs, |mem|) && Disjoint(segs)
    ensures Gather(ReadOut(dev, pos, mem, segs, |segs|), segs, |segs|) == dev[pos..][..Total(segs, |segs|)]
  {
    ReadIsFlatCopy(dev, pos, mem, segs);
    hide ReadOut, Gather, Total, Disjoint, InMemory;
    assert Gather(mem, segs, |segs|)[Total(segs, |segs|)..] == [];
  }

  lemma RoomForBoth(size: nat, pos: nat, segs: seq<Segment>, segs': seq<Segment>)
    requires pos <= size && Total(segs', |segs'|) <= Moved(size, pos, segs)
    ensures pos + Total(segs', |segs'|) <= size
  {
  }

  lemma JustWritten(d: seq<byte>, pos: nat, a: seq<byte>, n: nat)
    requires pos + |a| <= |d| && n <= |a|
    ensures Splice(d, pos, a)[pos..][..n] == a[..n]
  {
  }

  lemma WrittenBytes(dev: seq<byte>, pos: nat, mem: seq<byte>, segs: seq<Segment>, k: nat)
    requires pos <= |dev| && InMemory(segs, |mem|) && k <= Moved(|dev|, pos, segs)
    ensures Written(dev, pos, mem, segs, |segs|)[pos..][..k] == Gather(mem, segs, |segs|)[..k]
  {
    hide Gather, Splice, InMemory, Total;
    var g, m := Gather(mem, segs, |segs|), Moved(|dev|, pos, segs);
    JustWritten(dev, pos, g[..m], k);
    assert g[..m][..k] == g[..k];
  }

  /** What a request has written, a request for no more than that reads back. */
  lemma RoundTrip(dev: seq<byte>, pos: nat, mem: seq<byte>, segs: seq<Segment>, mem': seq<byte>, segs': seq<Segment>)
    requires pos <= |dev| && InMemory(segs, |mem|) && InMemory(segs', |mem'|) && Disjoint(segs')
    requires Total(segs', |segs'|) <= Moved(|dev|, pos, segs)
    ensures var dev' := Written(dev, pos, mem, segs, |segs|);
            Gather(ReadOut(dev', pos, mem', segs', |segs'|), segs', |segs'|) == Gather(mem, segs, |segs|)[..Total(segs', |segs'|)]
  {
    hide *;
    WrittenBytes(dev, pos, mem, segs, Total(segs', |segs'|));
    RoomForBoth(|dev|, pos, segs, segs');
    ReadWhole(Written(dev, pos, mem, segs, |segs|), pos, mem', segs');
  }

  /** A bio succeeds exactly when a request would not be clipped. */
  lemma ModesAgree(size: nat, pos: nat, segs: seq<Segment>)
    requires pos <= size
    ensures Fitting(segs, size - pos, 0) == |segs| <==> Moved(size, pos, segs) == Total(segs, |segs|)
  {
    var k := Fitting(segs, size - pos, 0);
    FittingIsLongest(segs, size - pos, 0);
    if k < |segs| {
      TotalGrows(segs, k + 1, |segs|);
    }
  }

  /** Both have then transferred every segment, and device and memory end up the same. */
  lemma ModesEndAlike(write: bool, dev: seq<byte>, pos: nat, mem: seq<byte>, segs: seq<Segment>,
                      d: seq<byte>, m: seq<byte>, d': seq<byte>, m': seq<byte>)
    requires pos <= |dev| && InMemory(segs, |mem|) && Total(segs, |segs|) <= |dev| - pos
    requires After(write, dev, pos, mem, segs, |segs|, d, m)
    requires After(write, dev, pos, mem, segs, Fitting(segs, |dev| - pos, 0), d', m')
    ensures d' == d && m' == m
    ensures write ==> d == Splice(dev, pos, Gather(mem, segs, |segs|)) && m == mem
    ensures !write ==> d == dev && m == Scatter(mem, segs, dev[pos..], |segs|)
  {
    hide *;
    FitsAll(|dev|, pos, segs);
    OneEnd(write, dev, pos, mem, segs, d, m, d', m');
  }

  lemma FitsAll(size: nat, pos: nat, segs: seq<Segment>)
    requires pos + Total(segs, |segs|) <= size
    ensures Fitting(segs, size - pos, 0) == |segs|
  {
    hide Fitting, Total;
    ModesAgree(size, pos, segs);
  }

  lemma OneEnd(write: bool, dev: seq<byte>, pos: nat, mem: seq<byte>, segs: seq<Segment>,
               d: seq<byte>, m: seq<byte>, d': seq<byte>, m': seq<byte>)
    requires pos <= |dev| && InMemory(segs, |mem|) && Total(segs, |segs|) <= |dev| - pos
    requires After(write, dev, pos, mem, segs, |segs|, d, m) && After(write, dev, pos, mem, segs, |segs|, d', m')
    ensures d' == d && m' == m
    ensures write ==> d == Splice(dev, pos, Gather(mem, segs, |segs|)) && m == mem
    ensures !write ==> d == dev && m == Scatter(mem, segs, dev[pos..], |segs|)
  {
    WholeWrite(dev, pos, mem, segs);
    hide Gather, Scatter, Splice, InMemory, Total, Written;
  }

  lemma WholeWrite(dev: seq<byte>, pos: nat, mem: seq<byte>, segs: seq<Segment>)
    requires pos <= |dev| && InMemory(segs, |mem|) && Total(segs, |segs|) <= |dev| - pos
    ensures Written(dev, pos, mem, segs, |segs|) == Splice(dev, pos, Gather(mem, segs, |segs|))
  {
    hide Gather, Splice, InMemory, Total;
    var g := Gather(mem, segs, |segs|);
    assert g[..|g|] == g;
  }

  lemma ShorterSplice(d: seq<byte>, pos: nat, a: seq<byte>, b: seq<byte>)
    requires pos + |b| <= |d| && |a| <= |b| && a == b[..|a|]
    ensures Splice(d, pos, a)[..pos + |a|] == Splice(d, pos, b)[..pos + |a|]
    ensures Splice(d, pos, a)[pos + |a|..] == d[pos + |a|..]
  {
  }

  /** Otherwise the bio stops at the last whole segment, and what it has moved is where a
      request begins: the bytes before that point are the same, and a write leaves the rest
      of the device alone. */
  lemma BioIsPrefix(dev: seq<byte>, pos: nat, mem: seq<byte>, segs: seq<Segment>)
    requires pos <= |dev| && InMemory(segs, |mem|)
    ensures var k := Fitting(segs, |dev| - pos, 0);
            var end, end' := pos + Total(segs, k), pos + Moved(|dev|, pos, segs);
            && end <= end' <= |dev|
            && (k < |segs| ==> end' == |dev| < end + segs[k].len)
            && Written(dev, pos, mem, segs, k)[..end] == Written(dev, pos, mem, segs, |segs|)[..end]
            && Written(dev, pos, mem, segs, k)[end..] == dev[end..]
  {
    hide Written, Moved, Total, InMemory;
    BioEnds(|dev|, pos, segs);
    BioBytes(dev, pos, mem, segs, Fitting(segs, |dev| - pos, 0));
  }

  lemma BioEnds(size: nat, pos: nat, segs: seq<Segment>)
    requires pos <= size
    ensures var k := Fitting(segs, size - pos, 0);
            && pos + Total(segs, k) <= pos + Moved(size, pos, segs) <= size
            && (k < |segs| ==> pos + Moved(size, pos, segs) == size < pos + Total(segs, k) + segs[k].len)
  {
    var k := Fitting(segs, size - pos, 0);
    FittingIsLongest(segs, size - pos, 0);
    TotalGrows(segs, k, |segs|);
    if k < |segs| {
      TotalGrows(segs, k + 1, |segs|);
    }
  }

  lemma BioBytes(dev: seq<byte>, pos: nat, mem: seq<byte>, segs: seq<Segment>, k: nat)
    requires pos <= |dev| && InMemory(segs, |mem|) && k <= |segs| && pos + Total(segs, k) <= |dev|
    ensures var end := pos + Total(segs, k);
            && Written(dev, pos, mem, segs, k)[..end] == Written(dev, pos, mem, segs, |segs|)[..end]
            && Written(dev, pos, mem, segs, k)[end..] == dev[end..]
  {
    var m := Moved(|dev|, pos, segs);
    var a, b := Gather(mem, segs, k), Gather(mem, segs, |segs|);
    GatherPrefix(mem, segs, k, |segs|);
    hide Gather, Splice, InMemory, Total;
    assert a[..|a|] == a && b[..m][..|a|] == b[..|a|];
    ShorterSplice(dev, pos, a, b[..m]);
  }

  lemma {:induction false} GatherPrefix(mem: seq<byte>, segs: seq<Segment>, k: nat, n: nat)
    requires InMemory(segs, |mem|) && k <= n <= |segs|
    ensures Total(segs, k) <= Total(segs, n) && Gather(mem, segs, n)[..Total(segs, k)] == Gather(mem, segs, k)
    decreases n
  {
    if k < n {
      GatherPrefix(mem, segs, k, n - 1);
    }
  }

  // ---- geometry ----

  const U8_RANGE := 0x100
  const U16_RANGE := 0x1_0000
  const U64_RANGE := 0x1_0000_0000_0000_0000

  function Ceil(a: nat, b: nat): nat
    requires b > 0
  {
    (a + b - 1) / b
  }

  /** As many sectors, heads and cylinders as the capacity takes, each rounded up, in the
      widths of the C fields; the round-up of the sector count itself can wrap. */
  function GeometryOf(capacity: nat): Geometry {
    if capacity <= 63 then Geometry(capacity, 1, 1)
    else
      var tracks := (capacity + 62) % U64_RANGE / 63;
      if tracks <= 255 then Geometry(63, tracks, 1)
      else Geometry(63, 255, Ceil(tracks, 255) % U16_RANGE)
  }

  function Product(g: Geometry): nat {
    g.sectors * g.heads * g.cylinders
  }

  lemma NestedCeil(n: nat)
    ensures Ceil(Ceil(n, 63), 255) == Ceil(n, 63 * 255)
  {
  }

  lemma CeilBounds(n: nat)
    ensures n <= 63 * Ceil(n, 63) < n + 63
    ensures n <= 63 * 255 * Ceil(n, 63 * 255) < n + 63 * 255
    ensures Ceil(n, 63 * 255) < U16_RANGE <==> n <= MAX_CHS
  {
  }

  /** Rounding up the sector count wraps only in the last 62 capacities, and then leaves no head at all. */
  lemma Tracks(capacity: nat)
    requires 63 < capacity < U64_RANGE
    ensures var tracks := (capacity + 62) % U64_RANGE / 63;
            tracks == if capacity + 62 < U64_RANGE then Ceil(capacity, 63) else 0
  {
  }

  lemma ManyTracks(capacity: nat, cylinders: nat)
    requires 63 < capacity && cylinders == Ceil(capacity, 63 * 255)
    ensures capacity <= 63 * 255 * (cylinders % U16_RANGE) < capacity + 63 * 255 <==> capacity <= MAX_CHS
  {
    CeilBounds(capacity);
    hide Ceil;
    var c := cylinders % U16_RANGE;
    if cylinders >= U16_RANGE {
      assert 63 * 255 * c <= MAX_CHS;
    }
  }

  /** The geometry holds the disk, and exceeds it by less than one cylinder, exactly for
      capacities whose cylinder count fits 16 bits; and the fields for every size of disk. */
  lemma GeometryFits(capacity: nat)
    requires capacity < U64_RANGE
    ensures var g := GeometryOf(capacity);
            && g.sectors <= 63 && g.heads <= 255 && g.cylinders < U16_RANGE
            && (capacity <= Product(g) < capacity + 63 * 255 <==> capacity <= MAX_CHS)
    ensures var g := GeometryOf(capacity);
            if capacity <= 63 then g == Geometry(capacity, 1, 1)
            else if capacity <= 16065 then g.sectors == 63 && g.cylinders == 1 && capacity <= 63 * g.heads < capacity + 63
            else if capacity + 62 < 0x1_0000_0000_0000_0000 then
              g.sectors == 63 && g.heads == 255 && g.cylinders == (capacity + 16064) / 16065 % 0x1_0000
            else g == Geometry(63, 0, 1)
  {
    if capacity > 63 {
      Tracks(capacity);
      NestedCeil(capacity);
      CeilBounds(capacity);
      ManyTracks(capacity, Ceil(capacity, 63 * 255));
      hide Ceil;
    }
  }
}
