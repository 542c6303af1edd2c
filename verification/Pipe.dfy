/** scull_pipe.c as one thread sees it between taking the mutex and releasing it:
    a class over an array whose pointers are updated in place. What happens between
    threads is the subject of PipeProtocol. */
module Pipe {
  import opened Kernel
  import opened PipeRing

  /** What one pass under the mutex comes to: bytes moved, an error, or "unlock and wait". */
  datatype Outcome = Moved(count: nat) | Failed(errno: Errno) | Wait

  class ScullPipe {
    const bufferSize: nat // scull_p_buffer
    var buffer: array?<byte>
    var rp: nat
    var wp: nat
    var nreaders: int
    var nwriters: int

    ghost predicate Valid()
      reads this, buffer
    {
      && 0 < bufferSize
      && (buffer != null ==> buffer.Length == bufferSize && rp < bufferSize && wp < bufferSize)
      && (0 < nreaders || 0 < nwriters ==> buffer != null)
    }

    ghost function Contents(): seq<byte>
      requires Valid()
      reads this, buffer
    {
      if buffer == null then [] else Unread(buffer[..], rp, wp)
    }

    constructor (size: nat)
      requires 0 < size
      ensures Valid() && bufferSize == size && buffer == null && nreaders == 0 && nwriters == 0
    {
      bufferSize := size;
      buffer := null;
      rp, wp, nreaders, nwriters := 0, 0, 0, 0;
    }

    /** Every successful open empties the pipe, also for those who already have it open. */
    method Open(forRead: bool, forWrite: bool, interrupted: bool, memory: bool) returns (r: Result<()>)
      requires Valid() && 0 <= nreaders && 0 <= nwriters
      modifies this
      ensures Valid()
      ensures r == if interrupted then Err(ERESTARTSYS)
                   else if old(buffer) == null && !memory then Err(ENOMEM) else Ok(())
      ensures r.Err? ==> unchanged(this)
      ensures r.Ok? ==> Contents() == [] && buffer != null
      ensures r.Ok? ==> (old(buffer) != null ==> buffer == old(buffer)) && (old(buffer) == null ==> fresh(buffer))
      ensures r.Ok? ==> nreaders == old(nreaders) + (if forRead then 1 else 0)
      ensures r.Ok? ==> nwriters == old(nwriters) + (if forWrite then 1 else 0)
    {
      if interrupted {
        return Err(ERESTARTSYS);
      }
      if buffer == null {
        if !memory {
          return Err(ENOMEM);
        }
        buffer := new byte[bufferSize];
      }
      rp, wp := 0, 0;
      if forRead {
        nreaders := nreaders + 1;
      }
      if forWrite {
        nwriters := nwriters + 1;
      }
      return Ok(());
    }

    /** The buffer goes exactly when the last reader and the last writer are gone. */
    method Release(forRead: bool, forWrite: bool)
      requires Valid()
      requires (forRead ==> 0 < nreaders) && (forWrite ==> 0 < nwriters) && 0 <= nreaders && 0 <= nwriters
      modifies this
      ensures Valid()
      ensures nreaders == old(nreaders) - (if forRead then 1 else 0)
      ensures nwriters == old(nwriters) - (if forWrite then 1 else 0)
      ensures buffer == if nreaders == 0 && nwriters == 0 then null else old(buffer)
      ensures buffer != null ==> Contents() == old(Contents())
    {
      if forRead {
        nreaders := nreaders - 1;
      }
      if forWrite {
        nwriters := nwriters - 1;
      }
      if nreaders == 0 && nwriters == 0 {
        buffer := null;
      }
    }

    /** Moves the read pointer over n bytes in two steps: add, then wrap at the end. */
    method AdvanceRead(n: nat)
      requires Valid() && buffer != null && rp != wp
      requires rp + n <= bufferSize && (rp < wp ==> rp + n <= wp)
      modifies this`rp
      ensures Valid() && n <= |old(Contents())|
      ensures Contents() == old(Contents())[n..]
      ensures rp == Wrap(old(rp) + n, bufferSize)
    {
      TakeFront(buffer[..], rp, wp, n);
      WrapIsSilent(buffer[..], rp + n, wp);
      rp := rp + n;
      if rp == buffer.Length {
        rp := 0;
      }
    }

    /** Moves the write pointer over n bytes that have just been stored behind the data. */
    method AdvanceWrite(n: nat)
      requires Valid() && buffer != null && wp + n <= bufferSize
      requires (wp < rp ==> wp + n < rp) && (rp == 0 ==> wp + n < bufferSize)
      modifies this`wp
      ensures Valid()
      ensures Contents() == old(Contents() + buffer[wp..wp + n])
      ensures wp == Wrap(old(wp) + n, bufferSize)
    {
      PutBehind(buffer[..], rp, wp, n);
      WrapIsSilent(buffer[..], rp, wp + n);
      wp := wp + n;
      if wp == buffer.Length {
        wp := 0;
      }
    }

    /** The copy of a read, before the pointer moves: the oldest n bytes. */
    method CopyOut(user: array<byte>, n: nat, reach: nat) returns (left: nat)
      requires Valid() && buffer != null && user != buffer && n <= user.Length && rp != wp
      requires rp + n <= bufferSize && (rp < wp ==> rp + n <= wp)
      modifies user
      ensures Valid() && Contents() == old(Contents()) && n <= |Contents()|
      ensures left == 0 <==> n <= reach
      ensures left == 0 ==> user[..n] == Contents()[..n]
      ensures user[n..] == old(user[n..])
    {
      ghost var was := buffer[..];
      TakeFront(was, rp, wp, n);
      left := CopyUser(user, 0, buffer, rp, n, reach);
      assert buffer[..] == was;
      assert user[0..0 + n] == user[..n];
    }

    /** A read delivers the oldest bytes and removes exactly those; it blocks or
        fails with EAGAIN exactly on an empty pipe. */
    method Read(user: array<byte>, count: nat, nonblock: bool, reach: nat) returns (r: Outcome)
      requires Valid() && buffer != null && user != buffer && count <= user.Length
      modifies this`rp, user
      ensures Valid()
      ensures old(Contents()) == [] ==> r == if nonblock then Failed(EAGAIN) else Wait
      ensures old(Contents()) != [] ==>
                var n := ReadCount(old(rp), wp, bufferSize, count);
                if reach < n then r == Failed(EFAULT) else r.Moved? && r.count == n
      ensures r.Moved? ==>
                var n := r.count;
                && n <= count && n <= |old(Contents())| && (count > 0 ==> n > 0)
                && user[..n] == old(Contents())[..n] && user[n..] == old(user[n..])
                && Contents() == old(Contents())[n..]
                && rp == Wrap(old(rp) + n, bufferSize)
      ensures r.Moved? && r.count < count && Contents() != [] ==> rp == 0
      ensures !r.Moved? ==> Contents() == old(Contents()) && rp == old(rp)
      ensures r in {Failed(EAGAIN), Wait} ==> user[..] == old(user[..])
      ensures old(Contents()) != [] && count <= reach ==> r.Moved?
    {
      if rp == wp {
        return if nonblock then Failed(EAGAIN) else Wait;
      }
      var n := if wp > rp then Min(count, wp - rp) else Min(count, buffer.Length - rp);
      ReadFits(buffer[..], rp, wp, count);
      var left := CopyOut(user, n, reach);
      if left != 0 {
        return Failed(EFAULT);
      }
      AdvanceRead(n);
      return Moved(n);
    }

    /** A write appends a prefix of the user's bytes; it blocks or fails with EAGAIN
        exactly on a full pipe. A faulting copy leaves the contents as they were. */
    method Write(user: array<byte>, count: nat, nonblock: bool, reach: nat) returns (r: Outcome)
      requires Valid() && buffer != null && user != buffer && count <= user.Length
      modifies this`wp, buffer
      ensures Valid()
      ensures |old(Contents())| == bufferSize - 1 ==> r == if nonblock then Failed(EAGAIN) else Wait
      ensures |old(Contents())| < bufferSize - 1 ==>
                var n := WriteCount(rp, old(wp), bufferSize, count);
                if reach < n then r == Failed(EFAULT) else r.Moved? && r.count == n
      ensures r.Moved? ==>
                var n := r.count;
                && n <= count && (count > 0 ==> n > 0)
                && Contents() == old(Contents()) + old(user[..n])
                && wp == Wrap(old(wp) + n, bufferSize)
                && old(wp) + n <= bufferSize && buffer[..] == Splice(old(buffer[..]), old(wp), old(user[..n]))
      ensures r.Moved? && r.count < count && |Contents()| < bufferSize - 1 ==> wp == 0
      ensures !r.Moved? ==> Contents() == old(Contents()) && wp == old(wp)
      ensures |old(Contents())| < bufferSize - 1 && count <= reach ==> r.Moved?
    {
      var space := SpaceFree(rp, wp, buffer.Length);
      assert space + |Contents()| == bufferSize - 1 by { SpaceAndUnread(buffer[..], rp, wp); }
      if space == 0 {
        return if nonblock then Failed(EAGAIN) else Wait;
      }
      var n := Min(count, space);
      n := if wp >= rp then Min(n, buffer.Length - wp) else Min(n, rp - wp - 1);
      WriteFits(buffer[..], rp, wp, count);
      var left := StoreBehind(user, n, reach);
      if left != 0 {
        return Failed(EFAULT);
      }
      AdvanceWrite(n);
      return Moved(n);
    }

    /** The copy of a write, before the pointer moves: it leaves the unread bytes alone. */
    method StoreBehind(user: array<byte>, n: nat, reach: nat) returns (left: nat)
      requires Valid() && buffer != null && user != buffer && n <= user.Length && wp + n <= bufferSize
      requires (wp < rp ==> wp + n < rp) && (rp == 0 ==> wp + n < bufferSize)
      modifies buffer
      ensures Valid() && Contents() == old(Contents())
      ensures left == 0 <==> n <= reach
      ensures left == 0 ==> buffer[wp..wp + n] == user[..n] && buffer[..] == Splice(old(buffer[..]), wp, user[..n])
    {
      ghost var was := buffer[..];
      left := CopyUser(buffer, wp, user, 0, n, reach);
      assert buffer[..] == Splice(was, wp, buffer[wp..wp + n]);
      StoreKeeps(was, rp, wp, buffer[wp..wp + n]);
    }

    /** Readable means there is data, writable means there is room. */
    method Poll() returns (readable: bool, writable: bool)
      requires Valid() && buffer != null
      ensures readable <==> Contents() != []
      ensures writable <==> |Contents()| < bufferSize - 1
    {
      SpaceAndUnread(buffer[..], rp, wp);
      readable := rp != wp;
      writable := SpaceFree(rp, wp, buffer.Length) != 0;
    }
  }
}
