/** The header surgery of snull_hw_tx: both addresses move to the twin network and the
    Internet checksum (section 1 of RFC 1071) is rebuilt. */
module AddressRewrite {
  import opened Kernel

  const ETH_HLEN := 14
  const IP_HLEN := 20
  const CHECK := 10      // offset of the header checksum
  const SOURCE_NET := 14 // third octet of the source address
  const DEST_NET := 18   // third octet of the destination address

  /** The sum of the 16-bit words. */
  function Sum(h: seq<byte>): nat {
    if |h| < 2 then 0 else h[0] * 256 + h[1] + Sum(h[2..])
  }

  /** End-around carry. */
  function Fold(n: nat): nat {
    if n < 0x1_0000 then n else Fold(n % 0x1_0000 + n / 0x1_0000)
  }

  /** ip_fast_csum over a whole header. */
  function Checksum(h: seq<byte>): nat {
    FoldRange(Sum(h));
    0xFFFF - Fold(Sum(h))
  }

  /** What a receiver checks (section 3.1 of RFC 791): the words, checksum included, sum to all ones. */
  predicate Verifies(h: seq<byte>) {
    Fold(Sum(h)) == 0xFFFF
  }

  function Flip(b: byte): byte {
    if b % 2 == 0 then b + 1 else b - 1
  }

  predicate IsHeader(h: seq<byte>) {
    IP_HLEN <= |h| && |h| % 2 == 0
  }

  function Cleared(h: seq<byte>): seq<byte>
    requires IsHeader(h)
  {
    h[CHECK := 0][CHECK + 1 := 0]
  }

  function Stamp(h: seq<byte>): seq<byte>
    requires IsHeader(h)
  {
    var c := Checksum(Cleared(h));
    FoldRange(Sum(Cleared(h)));
    h[CHECK := c / 256][CHECK + 1 := c % 256]
  }

  function Moved(h: seq<byte>): seq<byte>
    requires IsHeader(h)
  {
    h[SOURCE_NET := Flip(h[SOURCE_NET])][DEST_NET := Flip(h[DEST_NET])]
  }

  /** The header as it leaves snull_hw_tx. */
  function Rewrite(h: seq<byte>): seq<byte>
    requires IsHeader(h)
  {
    Stamp(Moved(h))
  }

  // ---- arithmetic of the checksum ----

  lemma {:induction false} FoldRange(n: nat)
    ensures Fold(n) <= 0xFFFF && Fold(n) % 0xFFFF == n % 0xFFFF && (Fold(n) == 0 <==> n == 0)
    decreases n
  {
    if n >= 0x1_0000 {
      var m := n % 0x1_0000 + n / 0x1_0000;
      assert n == 0xFFFF * (n / 0x1_0000) + m;
      FoldRange(m);
      assert n % 0xFFFF == m % 0xFFFF;
    }
  }

  /** The sum goes word by word, high octet first; with this it is determined. */
  lemma {:induction false} SumWordwise(h: seq<byte>, hi: byte, lo: byte)
    requires |h| % 2 == 0
    ensures Sum([]) == 0 && Sum(h + [hi, lo]) == Sum(h) + hi as int * 256 + lo
    decreases |h|
  {
    if h == [] {
      assert h + [hi, lo] == [hi, lo] && [hi, lo][2..] == [];
    } else {
      assert (h + [hi, lo])[2..] == h[2..] + [hi, lo];
      SumWordwise(h[2..], hi, lo);
    }
  }

  /** What a receiver checks, without folding. */
  lemma VerifiesModulo(h: seq<byte>)
    ensures Verifies(h) <==> 0 < Sum(h) && Sum(h) % 0xFFFF == 0
  {
    hide Sum, Fold;
    FoldRange(Sum(h));
    if 0 < Sum(h) && Sum(h) % 0xFFFF == 0 {
      AllOnes(Sum(h));
    }
  }

  /** Replacing one byte shifts the sum by its weight in the word. */
  lemma {:induction false} SumUpdate(h: seq<byte>, i: nat, b: byte)
    requires i < |h| && |h| % 2 == 0
    ensures Sum(h[i := b]) == Sum(h) + (b - h[i]) * (if i % 2 == 0 then 256 else 1)
    decreases |h|
  {
    var h' := h[i := b];
    if i < 2 {
      assert h'[2..] == h[2..];
    } else {
      assert h'[2..] == h[2..][i - 2 := b];
      SumUpdate(h[2..], i - 2, b);
    }
  }

  lemma SumStamp(h: seq<byte>)
    requires IsHeader(h)
    ensures Sum(Stamp(h)) == Sum(Cleared(h)) + Checksum(Cleared(h))
  {
    var z, c := Cleared(h), Checksum(Cleared(h));
    FoldRange(Sum(z));
    var y := z[CHECK := c / 256];
    SumUpdate(z, CHECK, c / 256);
    SumUpdate(y, CHECK + 1, c % 256);
    assert y[CHECK + 1 := c % 256] == Stamp(h);
  }

  lemma SumMoved(h: seq<byte>)
    requires IsHeader(h)
    ensures Sum(Moved(h)) == Sum(h) + 256 * (if h[SOURCE_NET] % 2 == 0 then 1 else -1) + 256 * (if h[DEST_NET] % 2 == 0 then 1 else -1)
  {
    SumUpdate(h, SOURCE_NET, Flip(h[SOURCE_NET]));
    SumUpdate(h[SOURCE_NET := Flip(h[SOURCE_NET])], DEST_NET, Flip(h[DEST_NET]));
  }

  // ---- theorems ----

  /** Whatever the header was, a stamped one passes the receiver's check. */
  lemma StampVerifies(h: seq<byte>)
    requires IsHeader(h)
    ensures Verifies(Stamp(h))
  {
    hide Fold, Sum;
    SumStamp(h);
    var s := Sum(Cleared(h));
    FoldRange(s);
    Complement(s, Fold(s));
    AllOnes(s + 0xFFFF - Fold(s));
  }

  lemma AllOnes(n: nat)
    requires 0 < n && n % 0xFFFF == 0
    ensures Fold(n) == 0xFFFF
  {
    hide Fold;
    FoldRange(n);
  }

  lemma FoldsDiffer(a: nat, b: nat)
    requires a == b + 512
    ensures Fold(a) != Fold(b)
  {
    hide Fold;
    FoldRange(a);
    FoldRange(b);
    if a % 0xFFFF == b % 0xFFFF {
      assert 512 == 0xFFFF * (a / 0xFFFF - b / 0xFFFF);
    }
  }

  lemma Complement(s: nat, f: nat)
    requires f <= 0xFFFF && f % 0xFFFF == s % 0xFFFF && (f == 0 <==> s == 0)
    ensures (s + 0xFFFF - f) % 0xFFFF == 0 && 0 < s + 0xFFFF - f
  {
    var a, b := s / 0xFFFF, f / 0xFFFF;
    assert s + 0xFFFF - f == 0xFFFF * (a - b + 1);
  }

  lemma RewriteVerifies(h: seq<byte>)
    requires IsHeader(h)
    ensures Verifies(Rewrite(h))
  {
    StampVerifies(Moved(h));
  }

  /** Two rewrites restore every byte exactly of those headers that carried the checksum
      this algorithm computes. */
  lemma TwiceIsIdentity(h: seq<byte>)
    requires IsHeader(h)
    ensures Rewrite(Rewrite(h)) == h <==> Stamp(h) == h
  {
    var r := Moved(Rewrite(h));
    assert Cleared(r) == Cleared(h);
    assert Stamp(r) == Stamp(h);
  }

  function Field(h: seq<byte>): nat
    requires IsHeader(h)
  {
    h[CHECK] as int * 256 + h[CHECK + 1]
  }

  lemma SumField(h: seq<byte>)
    requires IsHeader(h)
    ensures Sum(h) == Sum(Cleared(h)) + Field(h)
  {
    SumUpdate(h, CHECK, 0);
    SumUpdate(h[CHECK := 0], CHECK + 1, 0);
  }

  lemma StampedField(h: seq<byte>)
    requires IsHeader(h)
    ensures Stamp(h) == h <==> Field(h) == Checksum(Cleared(h))
  {
    hide Checksum, Sum, Fold;
    var c := Checksum(Cleared(h));
    assert c <= 0xFFFF by { ChecksumRange(Cleared(h)); }
    assert Stamp(h) == h[CHECK := c / 256][CHECK + 1 := c % 256];
    assert Stamp(h)[CHECK] == c / 256 && Stamp(h)[CHECK + 1] == c % 256;
    if Field(h) == c {
      assert h[CHECK] == c / 256 && h[CHECK + 1] == c % 256;
    }
  }

  lemma ChecksumRange(h: seq<byte>)
    ensures Checksum(h) <= 0xFFFF && Checksum(h) == 0xFFFF - Fold(Sum(h))
  {
    FoldRange(Sum(h));
  }

  lemma Congruent(z: nat, f: nat, c: nat)
    requires f % 0xFFFF == z % 0xFFFF
    ensures (z + c) % 0xFFFF == (f + c) % 0xFFFF
  {
    var k := z / 0xFFFF - f / 0xFFFF;
    assert z + c == f + c + k * 0xFFFF;
  }

  /** What a sender can check: two rewrites restore exactly the headers that verify and do
      not carry 0xFFFF where the algorithm writes 0. */
  lemma RestoredHeaders(h: seq<byte>)
    requires IsHeader(h)
    ensures Rewrite(Rewrite(h)) == h <==> Verifies(h) && (Field(h) != 0xFFFF || Sum(Cleared(h)) == 0)
  {
    var z, c := Sum(Cleared(h)), Field(h);
    assert Verifies(h) <==> Fold(z + c) == 0xFFFF by { SumField(h); }
    assert Rewrite(Rewrite(h)) == h <==> c == 0xFFFF - Fold(z) by {
      TwiceIsIdentity(h);
      StampedField(h);
      ChecksumRange(Cleared(h));
    }
    assert c <= 0xFFFF;
    hide *;
    FoldRange(z);
    FoldRange(z + c);
    TwoZeros(z, Fold(z), c, Fold(z + c));
  }

  /** Folded sums determine the field up to the two forms of zero. */
  lemma TwoZeros(z: nat, f: nat, c: nat, fc: nat)
    requires f <= 0xFFFF && f % 0xFFFF == z % 0xFFFF && (f == 0 <==> z == 0) && c <= 0xFFFF
    requires fc <= 0xFFFF && fc % 0xFFFF == (z + c) % 0xFFFF && (fc == 0 <==> z + c == 0)
    ensures c == 0xFFFF - f <==> fc == 0xFFFF && (c != 0xFFFF || z == 0)
  {
    Congruent(z, f, c);
  }

  function Zeros(n: nat): seq<byte> {
    seq(n, _ => 0)
  }

  /** A zero tail does not count. */
  lemma {:induction false} ZerosSum(h: seq<byte>, n: nat)
    requires n <= |h| && n % 2 == 0 && |h| % 2 == 0 && h[n..] == Zeros(|h| - n)
    ensures Sum(h) == Sum(h[..n])
    decreases |h|
  {
    if n == 0 {
      if |h| >= 2 {
        assert h[0] == h[n..][0] == 0 && h[1] == h[n..][1] == 0;
        assert h[2..] == h[n..][2..] == Zeros(|h| - 2);
        ZerosSum(h[2..], 0);
        assert h[2..][..0] == h[..0];
      }
    } else {
      assert h[2..][n - 2..] == h[n..] && h[2..][..n - 2] == h[..n][2..];
      ZerosSum(h[2..], n - 2);
    }
  }

  /** A header of twenty bytes with 0xFFFF as checksum and total length 0xBAFF. */
  function OtherZero(): (h: seq<byte>)
    ensures |h| == IP_HLEN
  {
    [0x45, 0, 0xBA, 0xFF] + seq(IP_HLEN - 4, i => if i == CHECK - 4 || i == CHECK - 3 then 0xFF else 0)
  }

  lemma OtherZeroCleared()
    ensures |Cleared(OtherZero())| == IP_HLEN
    ensures Cleared(OtherZero())[..4] == [0x45, 0, 0xBA, 0xFF] && Cleared(OtherZero())[4..] == Zeros(16)
    ensures Field(OtherZero()) == 0xFFFF
  {
  }

  /** It verifies and is not restored. */
  lemma OtherZeroIsLost()
    ensures Verifies(OtherZero()) && Rewrite(Rewrite(OtherZero())) != OtherZero()
  {
    hide Sum, Fold, OtherZero, Cleared, Field, Rewrite;
    var h := OtherZero();
    OtherZeroCleared();
    ZerosSum(Cleared(h), 4);
    FourBytes([0x45, 0, 0xBA, 0xFF]);
    SumField(h);
    AllOnes(2 * 0xFFFF);
    RestoredHeaders(h);
  }

  lemma FourBytes(h: seq<byte>)
    requires |h| == 4
    ensures Sum(h) == h[0] as int * 256 + h[1] + h[2] as int * 256 + h[3]
  {
    assert Sum(h[2..]) == h[2] as int * 256 + h[3];
  }

  /** The checksum survives the move exactly when the two addresses move in opposite directions. */
  lemma ChecksumSurvives(h: seq<byte>)
    requires IsHeader(h) && Stamp(h) == h
    ensures Rewrite(h)[CHECK..CHECK + 2] == h[CHECK..CHECK + 2] <==> h[SOURCE_NET] % 2 != h[DEST_NET] % 2
  {
    hide Fold, Sum;
    var z := Cleared(h);
    assert Cleared(Moved(h)) == Moved(z);
    var c, c' := Checksum(z), Checksum(Moved(z));
    FoldRange(Sum(z));
    FoldRange(Sum(Moved(z)));
    SameField(h, c, Rewrite(h), c');
    SumMoved(z);
    if h[SOURCE_NET] % 2 == h[DEST_NET] % 2 == 0 {
      FoldsDiffer(Sum(Moved(z)), Sum(z));
    } else if h[SOURCE_NET] % 2 == h[DEST_NET] % 2 {
      FoldsDiffer(Sum(z), Sum(Moved(z)));
    }
  }

  /** Two checksum fields are equal when the numbers are. */
  lemma SameField(h: seq<byte>, c: nat, h': seq<byte>, c': nat)
    requires IsHeader(h) && IsHeader(h')
    requires c == h[CHECK] as int * 256 + h[CHECK + 1] && c' == h'[CHECK] as int * 256 + h'[CHECK + 1]
    ensures h'[CHECK..CHECK + 2] == h[CHECK..CHECK + 2] <==> c == c'
  {
    assert h[CHECK..CHECK + 2] == [h[CHECK], h[CHECK + 1]];
    assert h'[CHECK..CHECK + 2] == [h'[CHECK], h'[CHECK + 1]];
    assert h'[CHECK..CHECK + 2] == h[CHECK..CHECK + 2] ==>
             h'[CHECK..CHECK + 2][0] == h[CHECK..CHECK + 2][0] && h'[CHECK..CHECK + 2][1] == h[CHECK..CHECK + 2][1];
  }

  // ---- whole frames ----

  /** An Ethernet frame with an IPv4 header whose length field is right. */
  predicate HasHeader(f: seq<byte>) {
    && ETH_HLEN + IP_HLEN <= |f|
    && 5 <= f[ETH_HLEN] % 16 && HeaderEnd(f) <= |f|
  }

  function HeaderEnd(f: seq<byte>): nat
    requires ETH_HLEN < |f|
  {
    ETH_HLEN + f[ETH_HLEN] % 16 * 4
  }

  /** The frame as the other interface receives it. `stray` is what ip_fast_csum makes of a
      header whose length field is below five words or points past the frame. */
  function OnWire(f: seq<byte>, stray: nat): seq<byte>
    requires ETH_HLEN + IP_HLEN <= |f| && stray <= 0xFFFF
  {
    if HasHeader(f) then f[..ETH_HLEN] + Rewrite(f[ETH_HLEN..HeaderEnd(f)]) + f[HeaderEnd(f)..]
    else
      f[ETH_HLEN + SOURCE_NET := Flip(f[ETH_HLEN + SOURCE_NET])][ETH_HLEN + DEST_NET := Flip(f[ETH_HLEN + DEST_NET])]
       [ETH_HLEN + CHECK := stray / 256][ETH_HLEN + CHECK + 1 := stray % 256]
  }

  /** Another bit 0, the other seven bits as they were. */
  predicate LowBitFlipped(a: byte, b: byte) {
    a != b && a / 2 == b / 2
  }

  /** Whatever the frame, octet by octet: its length stays; octets 28 and 32, the third ones of
      the two addresses, change in the low bit; octets 24 and 25 hold the checksum; and no
      other octet changes. */
  lemma CrossingTouches(f: seq<byte>, stray: nat)
    requires 34 <= |f| && stray <= 0xFFFF
    ensures var g := OnWire(f, stray);
            && |g| == |f|
            && (forall i :: 0 <= i < |f| && i !in {24, 25, 28, 32} ==> g[i] == f[i])
            && LowBitFlipped(f[28], g[28]) && LowBitFlipped(f[32], g[32])
    ensures var g, ihl := OnWire(f, stray), f[14] % 16;
            if 5 <= ihl && 14 + ihl * 4 <= |f|
            then g[24] as int * 256 + g[25] == 0xFFFF - Fold(Sum(g[24 := 0][25 := 0][14..14 + ihl * 4]))
            else g[24] as int * 256 + g[25] == stray
  {
    hide Sum, Fold;
    var g := OnWire(f, stray);
    if HasHeader(f) {
      var h := f[14..HeaderEnd(f)];
      HeaderTouches(h);
      var r := Rewrite(h);
      hide Rewrite;
      assert forall i :: 14 <= i < HeaderEnd(f) ==> g[i] == r[i - 14] && f[i] == h[i - 14];
      assert g[24 := 0][25 := 0][14..HeaderEnd(f)] == r[10 := 0][11 := 0];
    }
  }

  lemma HeaderTouches(h: seq<byte>)
    requires IsHeader(h)
    ensures var r := Rewrite(h);
            && |r| == |h| && (forall i :: 0 <= i < |h| && i !in {10, 11, 14, 18} ==> r[i] == h[i])
            && LowBitFlipped(h[14], r[14]) && LowBitFlipped(h[18], r[18])
            && r[10] as int * 256 + r[11] == 0xFFFF - Fold(Sum(r[10 := 0][11 := 0]))
  {
    hide Sum, Fold;
    var z := Cleared(Moved(h));
    ChecksumRange(z);
    assert Rewrite(h)[10 := 0][11 := 0] == z;
  }

  /** A frame with a header keeps its length, link header and payload, and its header then
      verifies; crossing back restores it exactly if its header verified and did not carry
      the other zero. */
  lemma CrossingFrames(f: seq<byte>, stray: nat)
    requires HasHeader(f) && stray <= 0xFFFF
    ensures var g, end := OnWire(f, stray), HeaderEnd(f);
            var h := f[ETH_HLEN..end];
            && |g| == |f| && g[..ETH_HLEN] == f[..ETH_HLEN] && g[end..] == f[end..]
            && HasHeader(g) && HeaderEnd(g) == end && Verifies(g[ETH_HLEN..end])
            && (OnWire(g, stray) == f <==> Verifies(h) && (Field(h) != 0xFFFF || Sum(Cleared(h)) == 0))
  {
    var g, end := OnWire(f, stray), HeaderEnd(f);
    var h := f[ETH_HLEN..end];
    assert g[ETH_HLEN] == Rewrite(h)[0] == f[ETH_HLEN];
    assert g[ETH_HLEN..end] == Rewrite(h);
    hide Verifies, Rewrite;
    RewriteVerifies(h);
    RestoredHeaders(h);
    assert g[..ETH_HLEN] == f[..ETH_HLEN] && g[end..] == f[end..];
    var k := OnWire(g, stray);
    assert k[ETH_HLEN..end] == Rewrite(Rewrite(h));
    assert f == f[..ETH_HLEN] + h + f[end..];
  }

  // ---- the code, in place ----

  /** Lines 393-401 of snull_hw_tx. */
  method RewriteInPlace(buf: array<byte>, stray: nat)
    requires ETH_HLEN + IP_HLEN <= buf.Length && stray <= 0xFFFF
    modifies buf
    ensures buf[..] == OnWire(old(buf[..]), stray)
    ensures forall i :: 0 <= i < buf.Length && i !in {24, 25, 28, 32} ==> buf[i] == old(buf[i])
    ensures LowBitFlipped(old(buf[28]), buf[28]) && LowBitFlipped(old(buf[32]), buf[32])
  {
    hide OnWire, LowBitFlipped;
    ghost var f: seq<byte> := buf[..];
    CrossingTouches(f, stray);
    RewriteOctets(buf, stray);
    assert forall i :: 0 <= i < buf.Length ==> buf[i] == buf[..][i] && old(buf[i]) == f[i];
  }

  method RewriteOctets(buf: array<byte>, stray: nat)
    requires ETH_HLEN + IP_HLEN <= buf.Length && stray <= 0xFFFF
    modifies buf
    ensures buf[..] == OnWire(old(buf[..]), stray)
  {
    ghost var f: seq<byte> := buf[..];
    buf[ETH_HLEN + SOURCE_NET] := Flip(buf[ETH_HLEN + SOURCE_NET]);
    buf[ETH_HLEN + DEST_NET] := Flip(buf[ETH_HLEN + DEST_NET]);
    buf[ETH_HLEN + CHECK], buf[ETH_HLEN + CHECK + 1] := 0, 0;
    var ihl := buf[ETH_HLEN] % 16;
    var c := stray;
    if 5 <= ihl && ETH_HLEN + ihl * 4 <= buf.Length {
      ClearedInFrame(f, buf[..]);
      c := Checksum(buf[ETH_HLEN..ETH_HLEN + ihl * 4]);
      ChecksumRange(buf[ETH_HLEN..ETH_HLEN + ihl * 4]);
    }
    hide Checksum;
    ghost var g: seq<byte> := buf[..];
    buf[ETH_HLEN + CHECK], buf[ETH_HLEN + CHECK + 1] := c / 256, c % 256;
    assert buf[..] == g[ETH_HLEN + CHECK := c / 256][ETH_HLEN + CHECK + 1 := c % 256];
    if HasHeader(f) {
      StampedInFrame(f, g, c);
    }
  }

  /** The frame g after both flips and the clearing of the field. */
  predicate Prepared(f: seq<byte>, g: seq<byte>)
    requires ETH_HLEN + IP_HLEN <= |f|
  {
    g == f[ETH_HLEN + SOURCE_NET := Flip(f[ETH_HLEN + SOURCE_NET])][ETH_HLEN + DEST_NET := Flip(f[ETH_HLEN + DEST_NET])]
          [ETH_HLEN + CHECK := 0][ETH_HLEN + CHECK + 1 := 0]
  }

  lemma ClearedInFrame(f: seq<byte>, g: seq<byte>)
    requires HasHeader(f) && Prepared(f, g)
    ensures |g| == |f| && g[ETH_HLEN..HeaderEnd(f)] == Cleared(Moved(f[ETH_HLEN..HeaderEnd(f)]))
  {
  }

  lemma StampedInFrame(f: seq<byte>, g: seq<byte>, c: nat)
    requires HasHeader(f) && Prepared(f, g) && c == Checksum(Cleared(Moved(f[ETH_HLEN..HeaderEnd(f)]))) && c <= 0xFFFF
    ensures g[ETH_HLEN + CHECK := c / 256][ETH_HLEN + CHECK + 1 := c % 256]
            == f[..ETH_HLEN] + Rewrite(f[ETH_HLEN..HeaderEnd(f)]) + f[HeaderEnd(f)..]
  {
  }
}
