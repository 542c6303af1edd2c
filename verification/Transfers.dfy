/** Scatter/gather lists as values: what the first n segments hold, what dealing bytes out
    to them does, and how many of them fit a device. */
module Transfers {
  import opened Kernel

  /** A bio_vec: len bytes of memory at a given place. */
  datatype Segment = Segment(at: nat, len: nat)

  function Total(segs: seq<Segment>, n: nat): nat
    requires n <= |segs|
  {
    if n == 0 then 0 else Total(segs, n - 1) + segs[n - 1].len
  }

  predicate InMemory(segs: seq<Segment>, size: nat) {
    forall i :: 0 <= i < |segs| ==> segs[i].at + segs[i].len <= size
  }

  function Piece(mem: seq<byte>, s: Segment): (bytes: seq<byte>)
    requires s.at + s.len <= |mem|
    ensures |bytes| == s.len
  {
    mem[s.at..s.at + s.len]
  }

  /** The bytes of the first n segments, one after the other. */
  function Gather(mem: seq<byte>, segs: seq<Segment>, n: nat): (bytes: seq<byte>)
    requires InMemory(segs, |mem|) && n <= |segs|
    ensures |bytes| == Total(segs, n)
  {
    if n == 0 then [] else Gather(mem, segs, n - 1) + Piece(mem, segs[n - 1])
  }

  /** The share of the segment with number i when bytes are dealt out to segments in turn. */
  function Share(segs: seq<Segment>, bytes: seq<byte>, i: nat): (share: seq<byte>)
    requires i < |segs|
    ensures |share| <= segs[i].len
  {
    bytes[Min(Total(segs, i), |bytes|)..Min(Total(segs, i) + segs[i].len, |bytes|)]
  }

  /** Memory after the first n segments got their shares. */
  function Scatter(mem: seq<byte>, segs: seq<Segment>, bytes: seq<byte>, n: nat): (m: seq<byte>)
    requires InMemory(segs, |mem|) && n <= |segs|
    ensures |m| == |mem|
  {
    if n == 0 then mem
    else Splice(Scatter(mem, segs, bytes, n - 1), segs[n - 1].at, Share(segs, bytes, n - 1))
  }

  /** Counting from segment i, the first one that does not fit into the room left. */
  function Fitting(segs: seq<Segment>, room: int, i: nat): (k: nat)
    requires i <= |segs|
    ensures i <= k <= |segs|
    decreases |segs| - i
  {
    if i == |segs| || segs[i].len > room then i else Fitting(segs, room - segs[i].len, i + 1)
  }

  predicate Disjoint(segs: seq<Segment>) {
    forall i, j :: 0 <= i < j < |segs| ==> Apart(segs[i], segs[j])
  }

  predicate Apart(s: Segment, t: Segment) {
    s.at + s.len <= t.at || t.at + t.len <= s.at
  }

  predicate Within(x: nat, s: Segment) {
    s.at <= x < s.at + s.len
  }

  // ---- facts ----

  lemma SpliceElsewhere(d: seq<byte>, at: nat, bytes: seq<byte>, x: nat)
    requires at + |bytes| <= |d| && x < |d| && !(at <= x < at + |bytes|)
    ensures Splice(d, at, bytes)[x] == d[x]
  {
  }

  lemma SpliceTwice(d: seq<byte>, at: nat, a: seq<byte>, b: seq<byte>)
    requires at + |a| + |b| <= |d|
    ensures Splice(Splice(d, at, a), at + |a|, b) == Splice(d, at, a + b)
  {
  }

  lemma {:induction false} TotalGrows(segs: seq<Segment>, i: nat, n: nat)
    requires i <= n <= |segs|
    ensures Total(segs, i) <= Total(segs, n)
    decreases n
  {
    if i < n {
      TotalGrows(segs, i, n - 1);
    }
  }

  /** Memory outside the segments stays as it was. */
  lemma {:induction false} ScatterOutside(mem: seq<byte>, segs: seq<Segment>, bytes: seq<byte>, n: nat, x: nat)
    requires InMemory(segs, |mem|) && n <= |segs| && x < |mem|
    requires forall i :: 0 <= i < n ==> !Within(x, segs[i])
    ensures Scatter(mem, segs, bytes, n)[x] == mem[x]
  {
    if n > 0 {
      ScatterOutside(mem, segs, bytes, n - 1, x);
      assert !Within(x, segs[n - 1]);
      SpliceElsewhere(Scatter(mem, segs, bytes, n - 1), segs[n - 1].at, Share(segs, bytes, n - 1), x);
    }
  }

  /** Writing to a segment leaves those apart from it alone. */
  lemma {:induction false} OthersKept(m: seq<byte>, segs: seq<Segment>, n: nat, s: Segment, b: seq<byte>)
    requires InMemory(segs, |m|) && n <= |segs| && s.at + |b| <= |m| && |b| <= s.len
    requires forall i :: 0 <= i < n ==> Apart(segs[i], s)
    ensures Gather(Splice(m, s.at, b), segs, n) == Gather(m, segs, n)
  {
    if n > 0 {
      OthersKept(m, segs, n - 1, s, b);
      assert Apart(segs[n - 1], s);
      assert Piece(Splice(m, s.at, b), segs[n - 1]) == Piece(m, segs[n - 1]);
    }
  }

  lemma NotYetTouched(mem: seq<byte>, segs: seq<Segment>, n: nat, bytes: seq<byte>)
    requires InMemory(segs, |mem|) && n < |segs| && Disjoint(segs)
    ensures Piece(Scatter(mem, segs, bytes, n), segs[n]) == Piece(mem, segs[n])
  {
    var s := segs[n];
    forall x | s.at <= x < s.at + s.len ensures Scatter(mem, segs, bytes, n)[x] == mem[x] {
      forall i | 0 <= i < n ensures !Within(x, segs[i]) {
        assert Apart(segs[i], segs[n]);
      }
      ScatterOutside(mem, segs, bytes, n, x);
    }
  }

  lemma PieceSpliced(m: seq<byte>, s: Segment, b: seq<byte>)
    requires s.at + s.len <= |m| && |b| <= s.len
    ensures Piece(Splice(m, s.at, b), s) == b + Piece(m, s)[|b|..]
  {
  }

  lemma Deal(bytes: seq<byte>, held: seq<byte>, piece: seq<byte>)
    ensures var from, to := Min(|held|, |bytes|), Min(|held| + |piece|, |bytes|);
            (bytes[..from] + held[from..]) + (bytes[from..to] + piece[to - from..]) == bytes[..to] + (held + piece)[to..]
  {
    var to := Min(|held| + |piece|, |bytes|);
    if |bytes| < |held| {
      assert (held + piece)[to..] == held[to..] + piece;
    } else {
      assert (held + piece)[to..] == piece[to - |held|..];
      assert bytes[..to] == bytes[..|held|] + bytes[|held|..to];
    }
  }

  /** Segments that do not overlap give back what was dealt out to them, followed by what
      they held before. */
  lemma {:induction false} GatherScattered(mem: seq<byte>, segs: seq<Segment>, bytes: seq<byte>, n: nat)
    requires InMemory(segs, |mem|) && Disjoint(segs) && n <= |segs|
    ensures var k := Min(Total(segs, n), |bytes|);
            Gather(Scatter(mem, segs, bytes, n), segs, n) == bytes[..k] + Gather(mem, segs, n)[k..]
  {
    hide *;
    if n == 0 {
      NoneScattered(mem, segs, bytes);
    } else {
      GatherScattered(mem, segs, bytes, n - 1);
      EarlierKept(mem, segs, n - 1, bytes);
      PieceScattered(mem, segs, n - 1, bytes);
      Recombine(mem, Scatter(mem, segs, bytes, n), segs, n - 1, bytes);
    }
  }

  lemma NoneScattered(mem: seq<byte>, segs: seq<Segment>, bytes: seq<byte>)
    requires InMemory(segs, |mem|)
    ensures var k := Min(Total(segs, 0), |bytes|);
            Gather(Scatter(mem, segs, bytes, 0), segs, 0) == bytes[..k] + Gather(mem, segs, 0)[k..]
  {
  }

  lemma EarlierKept(mem: seq<byte>, segs: seq<Segment>, n: nat, bytes: seq<byte>)
    requires InMemory(segs, |mem|) && n < |segs| && Disjoint(segs)
    ensures Gather(Scatter(mem, segs, bytes, n + 1), segs, n) == Gather(Scatter(mem, segs, bytes, n), segs, n)
  {
    hide Gather;
    ApartFrom(segs, n);
    OthersKept(Scatter(mem, segs, bytes, n), segs, n, segs[n], Share(segs, bytes, n));
  }

  lemma ApartFrom(segs: seq<Segment>, n: nat)
    requires Disjoint(segs) && n < |segs|
    ensures forall i :: 0 <= i < n ==> Apart(segs[i], segs[n])
  {
  }

  lemma PieceScattered(mem: seq<byte>, segs: seq<Segment>, n: nat, bytes: seq<byte>)
    requires InMemory(segs, |mem|) && n < |segs| && Disjoint(segs)
    ensures var share := Share(segs, bytes, n);
            Piece(Scatter(mem, segs, bytes, n + 1), segs[n]) == share + Piece(mem, segs[n])[|share|..]
  {
    NotYetTouched(mem, segs, n, bytes);
    PieceSpliced(Scatter(mem, segs, bytes, n), segs[n], Share(segs, bytes, n));
  }

  lemma GatherNext(mem: seq<byte>, segs: seq<Segment>, n: nat)
    requires InMemory(segs, |mem|) && n < |segs|
    ensures Gather(mem, segs, n + 1) == Gather(mem, segs, n) + Piece(mem, segs[n])
  {
  }

  /** What one more segment holds joins what the others hold. */
  lemma Recombine(mem: seq<byte>, m: seq<byte>, segs: seq<Segment>, n: nat, bytes: seq<byte>)
    requires InMemory(segs, |mem|) && |m| == |mem| && n < |segs|
    requires var from := Min(Total(segs, n), |bytes|);
             Gather(m, segs, n) == bytes[..from] + Gather(mem, segs, n)[from..]
    requires var share := Share(segs, bytes, n);
             Piece(m, segs[n]) == share + Piece(mem, segs[n])[|share|..]
    ensures var k := Min(Total(segs, n + 1), |bytes|);
            Gather(m, segs, n + 1) == bytes[..k] + Gather(mem, segs, n + 1)[k..]
  {
    GatherNext(mem, segs, n);
    GatherNext(m, segs, n);
    hide Piece, Gather;
    Deal(bytes, Gather(mem, segs, n), Piece(mem, segs[n]));
  }

  /** Byte k of segment i stands behind all the bytes of the segments before it. */
  lemma {:induction false} GatherAt(mem: seq<byte>, segs: seq<Segment>, n: nat, i: nat, k: nat)
    requires InMemory(segs, |mem|) && i < n <= |segs| && k < segs[i].len
    ensures Total(segs, 0) == 0 && Total(segs, i + 1) == Total(segs, i) + segs[i].len
    ensures Total(segs, i) + k < Total(segs, n) && Gather(mem, segs, n)[Total(segs, i) + k] == mem[segs[i].at + k]
  {
    if i < n - 1 {
      GatherAt(mem, segs, n - 1, i, k);
    }
  }

  /** Fitting picks the longest run of leading segments that the room can hold. */
  lemma {:induction false} FittingIsLongest(segs: seq<Segment>, room: int, i: nat)
    requires i <= |segs|
    ensures var k := Fitting(segs, room, i);
            && (k > i ==> Total(segs, k) - Total(segs, i) <= room)
            && (k < |segs| ==> Total(segs, k + 1) - Total(segs, i) > room)
    decreases |segs| - i
  {
    if i < |segs| && segs[i].len <= room {
      FittingIsLongest(segs, room - segs[i].len, i + 1);
      assert Total(segs, i + 1) == Total(segs, i) + segs[i].len;
    }
  }
}
