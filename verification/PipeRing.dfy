/** The circular buffer of scull_pipe.c: offsets instead of pointers
    (`buffer` is offset 0, `end` is offset `buffersize`), one slot always kept free. */
module PipeRing {
  import opened Kernel
  import opened Arithmetic

  /** How much room is left, as computed from the raw pointers. In the middle of
      a two-step wrap one of them equals the capacity, and the value may be -1. */
  function SpaceFree(rp: nat, wp: nat, cap: nat): int
    requires 0 < cap && wp <= cap
  {
    if rp == wp then cap - 1 else (rp + cap - wp) % cap - 1
  }

  /** The bytes waiting to be read, oldest first. */
  function Unread(buf: seq<byte>, rp: nat, wp: nat): (s: seq<byte>)
    requires rp <= |buf| && wp <= |buf|
  {
    if rp <= wp then buf[rp..wp] else buf[rp..] + buf[..wp]
  }

  /** How many bytes one read delivers: up to the write pointer or the end of the buffer. */
  function ReadCount(rp: nat, wp: nat, cap: nat, want: nat): nat
    requires rp < cap && wp < cap
  {
    if wp > rp then Min(want, wp - rp) else Min(want, cap - rp)
  }

  /** How many bytes one write accepts. */
  function WriteCount(rp: nat, wp: nat, cap: nat, want: nat): int
    requires rp < cap && wp < cap
  {
    var count := Min(want, SpaceFree(rp, wp, cap));
    if wp >= rp then Min(count, cap - wp) else Min(count, rp - wp - 1)
  }

  function Wrap(p: nat, cap: nat): nat {
    if p == cap then 0 else p
  }

  lemma SpaceAndUnread(buf: seq<byte>, rp: nat, wp: nat)
    requires rp < |buf| && wp < |buf|
    ensures SpaceFree(rp, wp, |buf|) + |Unread(buf, rp, wp)| == |buf| - 1
  {
    var cap := |buf|;
    if rp > wp {
      assert (rp + cap - wp) % cap == rp - wp by { DivUnique(rp - wp + cap, cap, 1, rp - wp); }
    } else if rp < wp {
      assert (rp + cap - wp) % cap == rp + cap - wp;
    }
  }

  lemma Regroup(a: seq<byte>, b: seq<byte>, c: seq<byte>)
    ensures a + b + c == a + (b + c)
  {
  }

  lemma SplitAt(buf: seq<byte>, a: nat, b: nat, c: nat)
    requires a <= b <= c <= |buf|
    ensures buf[a..c] == buf[a..b] + buf[b..c]
  {
  }

  /** Bytes taken at the read pointer are the oldest ones. */
  lemma TakeFront(buf: seq<byte>, rp: nat, wp: nat, n: nat)
    requires rp < |buf| && wp < |buf| && rp != wp
    requires rp + n <= |buf| && (rp < wp ==> rp + n <= wp)
    ensures Unread(buf, rp, wp) == buf[rp..rp + n] + Unread(buf, rp + n, wp)
  {
    if rp < wp {
      SplitAt(buf, rp, rp + n, wp);
    } else {
      SplitAt(buf, rp, rp + n, |buf|);
      Regroup(buf[rp..rp + n], buf[rp + n..|buf|], buf[..wp]);
    }
  }

  /** Bytes stored in the free part leave the unread ones alone. */
  lemma StoreKeeps(buf: seq<byte>, rp: nat, wp: nat, bytes: seq<byte>)
    requires rp < |buf| && wp < |buf|
    requires wp + |bytes| <= |buf| && (wp < rp ==> wp + |bytes| < rp)
    ensures Unread(Splice(buf, wp, bytes), rp, wp) == Unread(buf, rp, wp)
    ensures Splice(buf, wp, bytes)[wp..wp + |bytes|] == bytes
  {
    var buf' := Splice(buf, wp, bytes);
    if rp <= wp {
      assert buf'[rp..wp] == buf[rp..wp];
    } else {
      assert buf'[rp..] == buf[rp..] && buf'[..wp] == buf[..wp];
    }
  }

  /** Moving the write pointer over n stored bytes appends them. */
  lemma PutBehind(buf: seq<byte>, rp: nat, wp: nat, n: nat)
    requires rp < |buf| && wp < |buf|
    requires wp + n <= |buf| && (wp < rp ==> wp + n < rp)
    ensures Unread(buf, rp, wp + n) == Unread(buf, rp, wp) + buf[wp..wp + n]
  {
    if rp <= wp {
      SplitAt(buf, rp, wp, wp + n);
    } else {
      SplitAt(buf, 0, wp, wp + n);
      Regroup(buf[rp..], buf[..wp], buf[wp..wp + n]);
    }
  }

  /** The second half of a pointer update, the wrap, changes nothing that is seen. */
  lemma WrapIsSilent(buf: seq<byte>, rp: nat, wp: nat)
    requires rp <= |buf| && wp <= |buf| && (rp == |buf| ==> wp < |buf|) && (wp == |buf| ==> 0 < rp < |buf|)
    ensures Unread(buf, Wrap(rp, |buf|), Wrap(wp, |buf|)) == Unread(buf, rp, wp)
  {
  }

  /** How far a read may go. */
  lemma ReadFits(buf: seq<byte>, rp: nat, wp: nat, want: nat)
    requires rp < |buf| && wp < |buf| && rp != wp
    ensures var n := ReadCount(rp, wp, |buf|, want);
            && rp + n <= |buf| && (rp < wp ==> rp + n <= wp)
            && n <= want && (want > 0 ==> n > 0) && n <= |Unread(buf, rp, wp)|
  {
  }

  /** How far a write may go: never onto the read pointer. */
  lemma WriteFits(buf: seq<byte>, rp: nat, wp: nat, want: nat)
    requires rp < |buf| && wp < |buf| && SpaceFree(rp, wp, |buf|) != 0
    ensures var n := WriteCount(rp, wp, |buf|, want);
            && 0 <= n <= want && (want > 0 ==> n > 0)
            && wp + n <= |buf| && (wp < rp ==> wp + n < rp) && (rp == 0 ==> wp + n < |buf|)
            && |Unread(buf, rp, wp)| + n < |buf|
  {
    SpaceAndUnread(buf, rp, wp);
  }
}
