/** The quantum sets of scull_dev_common.c and scullc_dev_common.c: a linked list of
    nodes, each with an array of pointers to blocks, all allocated on demand. */
module QuantumSets {
  import opened Kernel
  import opened Positions
  import opened FlatStore

  /** struct scull_qset */
  class Qset {
    var data: array?<array?<byte>>
    var next: Qset?

    constructor ()
      ensures data == null && next == null
    {
      data := null;
      next := null;
    }
  }

  /** What an allocation is used for. */
  datatype Role = NodeOf(i: nat) | TableOf(i: nat) | BlockOf(i: nat, j: nat)

  /** n bytes from position `at` on, in block `slot` of node `item`; fresh blocks are zeroed or not. */
  datatype Change = Change(at: nat, item: nat, slot: nat, off: nat, n: nat, zeroed: bool)

  /** The fields `data`, `quantum` and `qset` that struct scull_dev and struct
      scullc_dev share, with the functions that walk the list. */
  class QsetList {
    var head: Qset?
    var quantum: int
    var qset: int

    ghost var nodes: seq<Qset>
    /** Every live allocation and its one use; an allocation leaves it when it is freed. */
    ghost var role: map<object, Role>

    /** The node list from index `from` on, with the blocks of that first node from
        slot `slot` on, is well formed; and nothing else is allocated. */
    ghost predicate Covers(from: nat, slot: nat)
      reads this, role.Keys
    {
      && this !in role
      && (forall i :: from <= i < |nodes| ==> NodeOk(i, from, slot))
      && (forall o :: o in role ==> InUse(o, role[o], from, slot))
    }

    ghost predicate Is(o: object?, r: Role)
      reads this
    {
      o != null && o in role && role[o] == r
    }

    ghost predicate NodeOk(i: nat, from: nat, slot: nat)
      requires i < |nodes|
      reads this, role.Keys
    {
      var q := nodes[i];
      && Is(q, NodeOf(i))
      && q.next == (if i + 1 < |nodes| then nodes[i + 1] else null)
      && (q.data != null ==>
            && Is(q.data, TableOf(i))
            && q.data.Length == qset
            && forall j :: (if i == from then slot else 0) <= j < qset && q.data[j] != null ==>
                 Is(q.data[j], BlockOf(i, j)) && q.data[j].Length == quantum)
    }

    ghost predicate InUse(o: object, r: Role, from: nat, slot: nat)
      requires forall i :: from <= i < |nodes| ==> NodeOk(i, from, slot)
      reads this, role.Keys
    {
      && from <= r.i < |nodes|
      && match r {
           case NodeOf(i) => o == nodes[i]
           case TableOf(i) => NodeOk(i, from, slot) && o == nodes[i].data
           case BlockOf(i, j) =>
             NodeOk(i, from, slot) && (i == from ==> slot <= j) && nodes[i].data != null && j < qset && o == nodes[i].data[j]
         }
    }

    ghost predicate Valid()
      reads this, role.Keys
    {
      && Covers(0, 0)
      && head == (if nodes == [] then null else nodes[0])
      && (nodes != [] ==> 0 < quantum && 0 < qset)
    }

    /** The byte at offset k of block j of node i, if that block is allocated. */
    ghost function At(i: nat, j: nat, k: nat): Option<byte>
      requires Valid()
      reads this, role.Keys
    {
      if i < |nodes| && NodeOk(i, 0, 0) && nodes[i].data != null && j < qset && nodes[i].data[j] != null && k < quantum
      then Some(nodes[i].data[j][k]) else None
    }

    /** The byte at a flat position. */
    ghost function Cell(x: nat): Option<byte>
      requires Valid()
      reads this, role.Keys
    {
      if quantum <= 0 || qset <= 0 then None
      else
        var p := PlaceOf(x, quantum, qset);
        At(p.item, p.slot, p.off)
    }

    /** The flat memory that the list stands for. */
    ghost function Bytes(): imap<nat, byte>
      requires Valid()
      reads this, role.Keys
    {
      imap x: nat | Cell(x).Some? :: Cell(x).value
    }

    twostate lemma SameBytes()
      requires old(Valid()) && Valid() && quantum == old(quantum) && qset == old(qset)
      requires forall i: nat, j: nat, k: nat :: At(i, j, k) == old(At(i, j, k))
      ensures Bytes() == old(Bytes())
    {
      forall x: nat ensures Cell(x) == old(Cell(x)) {
      }
    }

    /** A block seen as a stretch of the flat memory. */
    lemma BlockBytes(at: nat, item: nat, slot: nat, off: nat, b: array<byte>)
      requires Valid() && Lies(at, item, slot, off, quantum, qset) && b.Length == quantum
      requires forall k: nat :: k < quantum ==> At(item, slot, k) == Some(b[k])
      ensures forall x: nat :: at <= x < at + (quantum - off) ==> off + x - at < b.Length && x in Bytes() && Bytes()[x] == b[off + x - at]
    {
      BlockPositions(at, quantum, qset);
      forall x: nat | at <= x < at + (quantum - off)
        ensures Cell(x) == Some(b[off + x - at])
      {
      }
    }

    /** The same with the bytes given as a sequence. */
    lemma BlockHolds(at: nat, item: nat, slot: nat, off: nat, bytes: seq<byte>)
      requires Valid() && Lies(at, item, slot, off, quantum, qset) && off + |bytes| <= quantum
      requires forall k: nat :: off <= k < off + |bytes| ==> At(item, slot, k) == Some(bytes[k - off])
      ensures Spells(Bytes(), at, bytes)
    {
      BlockPositions(at, quantum, qset);
      forall x: nat | at <= x < at + |bytes|
        ensures Cell(x) == Some(bytes[x - at])
      {
      }
    }

    lemma Hole(at: nat, item: nat, slot: nat, off: nat)
      requires Valid() && Lies(at, item, slot, off, quantum, qset) && At(item, slot, off).None?
      ensures at !in Bytes()
    {
    }

    /** A change confined to n bytes of one block, seen in the flat memory. */
    twostate lemma BlockTouched(c: Change)
      requires old(Valid()) && Valid() && quantum == old(quantum) && qset == old(qset)
      requires Lies(c.at, c.item, c.slot, c.off, quantum, qset) && c.off + c.n <= quantum
      requires forall m: nat, l: nat, k: nat :: m != c.item || l != c.slot ==> At(m, l, k) == old(At(m, l, k))
      requires forall k: nat :: k < quantum ==> At(c.item, c.slot, k).Some?
      requires forall k: nat :: !(c.off <= k < c.off + c.n) && old(At(c.item, c.slot, k)).Some? ==>
                 At(c.item, c.slot, k) == old(At(c.item, c.slot, k))
      requires forall k: nat ::
                 !(c.off <= k < c.off + c.n) && k < quantum && old(At(c.item, c.slot, k)).None? && c.zeroed ==>
                 At(c.item, c.slot, k) == Some(0)
      ensures Touched(old(Bytes()), Bytes(), quantum, c.at, c.n, c.zeroed)
      ensures old(At(c.item, c.slot, 0)).Some? ==> Bytes().Keys == old(Bytes()).Keys
    {
      var Change(at, item, slot, off, n, zeroed) := c;
      BlockPositions(at, quantum, qset);
      forall x: nat
        ensures x in Bytes() <==> x in old(Bytes()) || x / quantum == at / quantum
        ensures x in old(Bytes()) && !(at <= x < at + n) ==> Bytes()[x] == old(Bytes())[x]
        ensures zeroed && x in Bytes() && x !in old(Bytes()) && !(at <= x < at + n) ==> Bytes()[x] == 0
        ensures old(At(item, slot, 0)).Some? ==> (x in Bytes() <==> x in old(Bytes()))
      {
        var p := PlaceOf(x, quantum, qset);
        assert Cell(x) == At(p.item, p.slot, p.off) && old(Cell(x)) == old(At(p.item, p.slot, p.off));
      }
    }

    constructor (quantum: int, qset: int)
      ensures Valid() && nodes == [] && role == map[]
      ensures this.quantum == quantum && this.qset == qset
    {
      this.quantum, this.qset := quantum, qset;
      head := null;
      nodes, role := [], map[];
    }

    /** How many nodes the walk to node n still has to allocate. */
    ghost function MissingNodes(n: nat): nat
      reads this
    {
      if |nodes| <= n then n + 1 - |nodes| else 0
    }

    /** Allocates an empty node behind the last one, or as the first. */
    method Grow(last: Qset?) returns (q: Qset)
      requires Valid() && 0 < quantum && 0 < qset
      requires last == if nodes == [] then null else nodes[|nodes| - 1]
      modifies this`head, this`nodes, this`role, if last == null then {} else {last}
      ensures Valid()
      ensures fresh(q) && q.data == null
      ensures nodes == old(nodes) + [q] && role == old(role)[q := NodeOf(|old(nodes)|)]
      ensures last != null ==> last.data == old(last.data)
    {
      q := new Qset();
      if last == null {
        head := q;
      } else {
        last.next := q;
      }
      nodes := nodes + [q];
      role := role[q := NodeOf(|nodes| - 1)];
      forall i | 0 <= i < |nodes| ensures NodeOk(i, 0, 0) {
        if i < |old(nodes)| {
          assert old(NodeOk(i, 0, 0)) && old(NodeOk(|nodes| - 1, 0, 0));
        }
      }
      forall o | o in role ensures InUse(o, role[o], 0, 0) {
        assert o != q ==> old(InUse(o, role[o], 0, 0));
      }
    }

    /** One turn of the loop of scull_follow: to the node behind q, which may have to be allocated. */
    method Advance(q: Qset, mem: nat, ghost m: nat) returns (next: Qset?, left: nat)
      requires Valid() && 0 < quantum && 0 < qset && m < |nodes| && q == nodes[m]
      modifies this`nodes, this`role, q, this`head
      ensures Valid()
      ensures next != null <==> m + 1 < |old(nodes)| || 0 < mem
      ensures next != null ==> m + 1 < |nodes| && next == nodes[m + 1]
      ensures if m + 1 < |old(nodes)| || mem == 0 then nodes == old(nodes) && role == old(role) && left == mem
              else |nodes| == m + 2 && nodes[..m + 1] == old(nodes) && fresh(nodes[m + 1]) && nodes[m + 1].data == null
                   && role == old(role)[nodes[m + 1] := NodeOf(m + 1)] && left == mem - 1
      ensures q.data == old(q.data)
    {
      left := mem;
      assert NodeOk(m, 0, 0);
      if q.next == null {
        if left == 0 {
          return null, 0;
        }
        left := left - 1;
        var added := Grow(q);
      }
      assert NodeOk(m, 0, 0);
      next := q.next;
    }

    /** scull_follow: turns n times, adding empty nodes at the end as needed; `mem`
        allocations succeed. */
    method Follow(n: int, mem: nat) returns (q: Qset?, left: nat)
      requires Valid() && 0 < quantum && 0 < qset && -INT_MAX - 1 <= n <= INT_MAX
      modifies this`head, this`nodes, this`role, nodes
      ensures Valid()
      ensures q != null <==> old(MissingNodes(Turns(n))) <= mem
      ensures q != null ==> Turns(n) < |nodes| && q == nodes[Turns(n)] && left == mem - old(MissingNodes(Turns(n)))
      ensures |nodes| == |old(nodes)| + Min(mem, old(MissingNodes(Turns(n))))
      ensures q != null ==> |nodes| == if |old(nodes)| <= Turns(n) then Turns(n) + 1 else |old(nodes)|
      ensures old(nodes) <= nodes
      ensures forall i :: |old(nodes)| <= i < |nodes| ==> fresh(nodes[i]) && nodes[i].data == null
      ensures forall i :: 0 <= i < |old(nodes)| ==> nodes[i].data == old(nodes[i].data)
      ensures forall o :: o in role ==> o in old(role) || fresh(o)
    {
      hide Turns;
      q, left := head, mem;
      if q == null {
        if left == 0 {
          return;
        }
        left := left - 1;
        q := Grow(null);
      }
      var rest := n;
      ghost var m := 0;
      while rest != 0
        invariant -INT_MAX - 1 <= rest <= INT_MAX && m + Turns(rest) == Turns(n)
        invariant Valid() && m < |nodes| && q == nodes[m]
        invariant left == mem - (|nodes| - |old(nodes)|)
        invariant |old(nodes)| <= |nodes| && (|old(nodes)| < |nodes| ==> |nodes| == m + 1)
        invariant old(nodes) <= nodes
        invariant forall i :: |old(nodes)| <= i < |nodes| ==> fresh(nodes[i]) && nodes[i].data == null
        invariant forall i :: 0 <= i < |old(nodes)| ==> nodes[i].data == old(nodes[i].data)
        invariant forall o :: o in role ==> o in old(role) || fresh(o)
        decreases Turns(rest)
      {
        OneTurn(rest);
        rest := ToInt32(rest - 1);
        q, left := Advance(q, left, m);
        if q == null {
          return;
        }
        m := m + 1;
      }
      NoTurn();
    }

    /** The same walk, for callers that look at bytes: whether it succeeds or runs out
        of memory on the way, no stored byte changes. */
    method Reach(n: int, mem: nat, ghost i: nat) returns (q: Qset?, left: nat)
      requires Valid() && 0 < quantum && 0 < qset && -INT_MAX - 1 <= n <= INT_MAX && i == Turns(n)
      modifies this`head, this`nodes, this`role, nodes
      ensures Valid()
      ensures q != null <==> old(MissingNodes(i)) <= mem
      ensures q != null ==> i < |nodes| && q == nodes[i] && left == mem - old(MissingNodes(i))
      ensures |old(nodes)| <= |nodes| && (i < |old(nodes)| ==> nodes == old(nodes))
      ensures i < |old(nodes)| ==> q != null && q.data == old(nodes[i].data)
      ensures q != null && |old(nodes)| <= i ==> q.data == null
      ensures forall o :: o in role ==> o in old(role) || fresh(o)
      ensures forall m: nat, j: nat, k: nat :: At(m, j, k) == old(At(m, j, k))
    {
      hide Turns;
      q, left := Follow(n, mem);
    }

    /** The pointer array of a node, all null. */
    method AddTable(q: Qset, ghost i: nat)
      requires Valid() && i < |nodes| && q == nodes[i] && q.data == null
      modifies q`data, this`role
      ensures Valid()
      ensures q.data != null && fresh(q.data) && q.data.Length == qset
      ensures forall j :: 0 <= j < qset ==> q.data[j] == null
      ensures role == old(role)[q.data := TableOf(i)]
      ensures forall i: nat, j: nat, k: nat :: At(i, j, k) == old(At(i, j, k))
    {
      assert NodeOk(i, 0, 0);
      q.data := new array?<byte>[qset](_ => null);
      role := role[q.data := TableOf(i)];
      forall m | 0 <= m < |nodes| ensures NodeOk(m, 0, 0) {
        assert old(NodeOk(m, 0, 0));
      }
      forall o | o in role ensures InUse(o, role[o], 0, 0) {
        assert o != q.data ==> old(InUse(o, role[o], 0, 0));
      }
    }

    /** Hangs an allocated block into an empty slot. */
    method PutBlock(q: Qset, slot: nat, b: array<byte>, ghost i: nat)
      requires Valid() && i < |nodes| && q == nodes[i] && q.data != null && slot < qset
      requires NodeOk(i, 0, 0) && q.data[slot] == null
      requires b.Length == quantum && b !in role
      modifies q.data, this`role
      ensures Valid() && NodeOk(i, 0, 0)
      ensures q.data[slot] == b
      ensures forall j :: 0 <= j < qset && j != slot ==> q.data[j] == old(q.data[j])
      ensures role == old(role)[b := BlockOf(i, slot)]
    {
      q.data[slot] := b;
      role := role[b := BlockOf(i, slot)];
      forall m | 0 <= m < |nodes| ensures NodeOk(m, 0, 0) {
        assert old(NodeOk(m, 0, 0));
      }
      forall o | o in role ensures InUse(o, role[o], 0, 0) {
        assert o != b ==> old(InUse(o, role[o], 0, 0));
      }
    }

    /** The block behind an empty slot: cleared in scullc, left as it comes in scull. */
    method AddBlock(q: Qset, slot: nat, zeroed: bool, ghost i: nat) returns (b: array<byte>)
      requires Valid() && i < |nodes| && q == nodes[i] && q.data != null && slot < qset
      requires NodeOk(i, 0, 0) && q.data[slot] == null
      modifies q.data, this`role
      ensures Valid() && NodeOk(i, 0, 0)
      ensures q.data[slot] == b && fresh(b) && b.Length == quantum
      ensures role == old(role)[b := BlockOf(i, slot)]
      ensures forall k: nat :: k < quantum ==> At(i, slot, k).Some? && (zeroed ==> At(i, slot, k) == Some(0))
      ensures forall m: nat, j: nat, k: nat :: m != i || j != slot ==> At(m, j, k) == old(At(m, j, k))
    {
      b := new byte[quantum];
      if zeroed {
        forall k | 0 <= k < quantum {
          b[k] := 0;
        }
      }
      PutBlock(q, slot, b, i);
    }

    lemma NodesAreAllocated()
      requires Valid()
      ensures forall m :: 0 <= m < |nodes| ==> nodes[m] in role
    {
      forall m | 0 <= m < |nodes| ensures nodes[m] in role {
        assert NodeOk(m, 0, 0);
      }
    }

    /** The lookup of a read: follow, then the block, or null in a hole. */
    method Find(n: int, j: nat, mem: nat, ghost i: nat) returns (b: array?<byte>)
      requires Valid() && 0 < quantum && 0 < qset && j < qset && -INT_MAX - 1 <= n <= INT_MAX && i == Turns(n)
      modifies this`head, this`nodes, this`role, role.Keys
      ensures Valid() && |old(nodes)| <= |nodes| && (forall o :: o in role ==> o in old(role) || fresh(o))
      ensures forall m: nat, l: nat, k: nat :: At(m, l, k) == old(At(m, l, k))
      ensures b == null ==> forall k: nat :: At(i, j, k).None?
      ensures b != null ==> b in role && b.Length == quantum && forall k: nat :: k < quantum ==> At(i, j, k) == Some(b[k])
    {
      NodesAreAllocated();
      var q, left := Reach(n, mem, i);
      if q == null {
        return null;
      }
      assert NodeOk(i, 0, 0);
      b := if q.data == null then null else q.data[j];
    }

    /** The lookup of a read in terms of the flat memory: the block that holds `at`, or null
        in a hole. */
    method FetchAt(number: int, slot: nat, off: nat, mem: nat, ghost at: nat, ghost item: nat) returns (b: array?<byte>)
      requires Valid() && 0 < quantum && slot < qset && off < quantum && Lies(at, item, slot, off, quantum, qset)
      requires -INT_MAX - 1 <= number <= INT_MAX && item == Turns(number)
      modifies this`head, this`nodes, this`role, role.Keys
      ensures Valid() && |old(nodes)| <= |nodes| && (forall o :: o in role ==> o in old(role) || fresh(o))
      ensures quantum == old(quantum) && qset == old(qset)
      ensures Bytes() == old(Bytes())
      ensures b == null ==> at !in Bytes()
      ensures b != null ==> b in role && b.Length == quantum
      ensures b != null ==>
                forall x: nat :: at <= x < at + (quantum - off) ==> x in Bytes() && Bytes()[x] == b[off + x - at]
    {
      hide Lies, Turns;
      b := Find(number, slot, mem, item);
      SameBytes();
      hide Bytes;
      if b == null {
        Hole(at, item, slot, off);
      } else {
        BlockBytes(at, item, slot, off, b);
      }
    }

    /** The same from a position: the arithmetic at the head of read, then the lookup of the
        block where pos lands. */
    method Fetch(pos: nat, mem: nat, ghost at: nat) returns (b: array?<byte>, off: nat)
      requires Valid() && Usable(quantum, qset) && at == Landing(pos, quantum, qset)
      modifies this`head, this`nodes, this`role, role.Keys
      ensures Valid() && |old(nodes)| <= |nodes| && (forall o :: o in role ==> o in old(role) || fresh(o))
      ensures quantum == old(quantum) && qset == old(qset) && off == at % quantum && off < quantum
      ensures Bytes() == old(Bytes())
      ensures b == null ==> at !in Bytes()
      ensures b != null ==> b in role && b.Length == quantum
      ensures b != null ==>
                forall x: nat :: at <= x < at + (quantum - off) ==> x in Bytes() && Bytes()[x] == b[off + x - at]
    {
      hide Bytes, Landing, Turns, Computed;
      var item, slot;
      item, slot, off := Split(pos, quantum, qset);
      LiesOffset(at, Turns(item), slot, off, quantum, qset);
      hide Lies, Usable;
      b := FetchAt(item, slot, off, mem, at, Turns(item));
    }

    /** How many allocations a write to block j of node i needs. */
    ghost function Missing(i: nat, j: nat): nat
      requires Valid()
      reads this, role.Keys
    {
      MissingNodes(i)
      + (if i < |nodes| && NodeOk(i, 0, 0) && nodes[i].data != null then 0 else 1)
      + (if At(i, j, 0).Some? then 0 else 1)
    }

    /** The part of write before its copy: follow, then the pointer array, then the block.
        Running out of memory on the way leaves every stored byte as it was. */
    method Locate(n: int, j: nat, mem: nat, zeroed: bool, ghost i: nat) returns (b: array?<byte>)
      requires Valid() && 0 < quantum && 0 < qset && j < qset && -INT_MAX - 1 <= n <= INT_MAX && i == Turns(n)
      modifies this`head, this`nodes, this`role, role.Keys
      ensures Valid() && |old(nodes)| <= |nodes| && (b != null ==> Holds(i, j, b))
      ensures b != null <==> old(Missing(i, j)) <= mem
      ensures forall o :: o in role ==> o in old(role) || fresh(o)
      ensures b == null ==> forall m: nat, l: nat, k: nat :: At(m, l, k) == old(At(m, l, k))
      ensures forall m: nat, l: nat, k: nat :: m != i || l != j ==> At(m, l, k) == old(At(m, l, k))
      ensures b != null && old(At(i, j, 0)).Some? ==> forall k: nat :: At(i, j, k) == old(At(i, j, k))
      ensures b != null && old(At(i, j, 0)).None? && zeroed ==> forall k: nat :: k < quantum ==> At(i, j, k) == Some(0)
    {
      NodesAreAllocated();
      var q, left := Reach(n, mem, i);
      if q == null {
        return null;
      }
      b := LocateIn(q, i, j, left, zeroed);
    }

    /** The part of Locate below the node it found. */
    method LocateIn(q: Qset, ghost i: nat, j: nat, mem: nat, zeroed: bool) returns (b: array?<byte>)
      requires Valid() && i < |nodes| && q == nodes[i] && j < qset
      modifies this`role, role.Keys
      ensures Valid() && (b != null ==> Holds(i, j, b))
      ensures b != null <==> old(if q.data == null then 1 else 0) + old(if At(i, j, 0).Some? then 0 else 1) <= mem
      ensures forall o :: o in role ==> o in old(role) || fresh(o)
      ensures b == null ==> forall k: nat :: At(i, j, k) == old(At(i, j, k))
      ensures forall m: nat, l: nat, k: nat :: m != i || l != j ==> At(m, l, k) == old(At(m, l, k))
      ensures b != null && old(At(i, j, 0)).Some? ==> forall k: nat :: At(i, j, k) == old(At(i, j, k))
      ensures b != null && old(At(i, j, 0)).None? && zeroed ==> forall k: nat :: k < quantum ==> At(i, j, k) == Some(0)
    {
      var left := mem;
      assert NodeOk(i, 0, 0);
      if q.data == null {
        if left == 0 {
          return null;
        }
        left := left - 1;
        AddTable(q, i);
      }
      assert NodeOk(i, 0, 0);
      b := q.data[j];
      if b == null {
        if left == 0 {
          return null;
        }
        b := AddBlock(q, j, zeroed, i);
      }
    }

    /** b is block j of node i. */
    ghost predicate Holds(i: nat, j: nat, b: array<byte>)
      reads this, role.Keys
    {
      && i < |nodes| && NodeOk(i, 0, 0)
      && nodes[i].data != null && j < qset && nodes[i].data[j] == b
    }

    /** A copy from user space into an allocated block, of which `reach` bytes succeed. */
    method Store(ghost i: nat, ghost j: nat, b: array<byte>, off: nat, user: array<byte>, from: nat, n: nat, reach: nat)
      returns (left: nat)
      requires Valid() && Holds(i, j, b) && off + n <= quantum
      requires from + n <= user.Length && user !in role
      modifies b
      ensures Valid() && Holds(i, j, b)
      ensures left == if reach < n then n - reach else 0
      ensures left == 0 ==> forall k: nat :: off <= k < off + n ==> At(i, j, k) == Some(user[from + k - off])
      ensures forall k: nat :: k < quantum ==> At(i, j, k).Some?
      ensures forall k: nat :: !(off <= k < off + n) ==> At(i, j, k) == old(At(i, j, k))
      ensures forall m: nat, l: nat, k: nat :: m != i || l != j ==> At(m, l, k) == old(At(m, l, k))
    {
      left := CopyUser(b, off, user, from, n, reach);
      assert left == 0 ==> forall k :: off <= k < off + n ==> b[k] == b[off..off + n][k - off] == user[from..from + n][k - off];
      forall m | 0 <= m < |nodes| ensures NodeOk(m, 0, 0) {
        assert old(NodeOk(m, 0, 0));
      }
      forall o | o in role ensures InUse(o, role[o], 0, 0) {
        assert old(InUse(o, role[o], 0, 0));
      }
    }

    /** The allocations that a write at pos needs. */
    ghost function Needs(pos: nat): nat
      requires Valid() && 0 < quantum && 0 < qset
      reads this, role.Keys
    {
      var p := PlaceOf(Landing(pos, quantum, qset), quantum, qset);
      Missing(p.item, p.slot)
    }

    /** Locate, in terms of the flat memory. */
    method Provide(ghost at: nat, n: int, slot: nat, ghost off: nat, mem: nat, zeroed: bool, ghost item: nat) returns (b: array?<byte>)
      requires Valid() && slot < qset && -INT_MAX - 1 <= n <= INT_MAX && item == Turns(n)
      requires 0 < quantum && Lies(at, item, slot, off, quantum, qset)
      modifies this`head, this`nodes, this`role, role.Keys
      ensures Valid() && |old(nodes)| <= |nodes| && (forall o :: o in role ==> o in old(role) || fresh(o))
      ensures quantum == old(quantum) && qset == old(qset)
      ensures b != null <==> old(Missing(item, slot)) <= mem
      ensures b == null ==> Bytes() == old(Bytes())
      ensures b != null ==> Holds(item, slot, b) && Touched(old(Bytes()), Bytes(), quantum, at, 0, zeroed)
    {
      hide Turns;
      assert off < quantum;
      hide Lies;
      b := Locate(n, slot, mem, zeroed, item);
      if b == null {
        SameBytes();
      } else {
        BlockTouched(Change(at, item, slot, off, 0, zeroed));
      }
    }

    /** Store, in terms of the flat memory. */
    method StoreAt(ghost at: nat, ghost item: nat, ghost slot: nat, b: array<byte>, off: nat, user: array<byte>, from: nat, n: nat, reach: nat)
      returns (left: nat)
      requires Valid() && Holds(item, slot, b) && Lies(at, item, slot, off, quantum, qset) && off + n <= quantum
      requires from + n <= user.Length && user !in role
      modifies b
      ensures Valid() && Holds(item, slot, b)
      ensures left == if reach < n then n - reach else 0
      ensures Bytes().Keys == old(Bytes()).Keys
      ensures forall x: nat :: x in Bytes() && !(at <= x < at + n) ==> Bytes()[x] == old(Bytes())[x]
      ensures left == 0 ==> Spells(Bytes(), at, user[from..from + n])
    {
      left := Store(item, slot, b, off, user, from, n, reach);
      BlockTouched(Change(at, item, slot, off, n, true));
      if left == 0 {
        BlockHolds(at, item, slot, off, user[from..from + n]);
      }
    }

    /** The middle of scull_dev_write: find or allocate the block, then one copy into it. */
    method PutBytes(ghost at: nat, number: int, slot: nat, off: nat, user: array<byte>, n: nat, mem: nat, reach: nat, ghost item: nat)
      returns (r: Result<nat>)
      requires Valid() && slot < qset && off + n <= quantum && -INT_MAX - 1 <= number <= INT_MAX && item == Turns(number)
      requires 0 < quantum && Lies(at, item, slot, off, quantum, qset)
      requires n <= user.Length && user !in role
      modifies this`head, this`nodes, this`role, role.Keys
      ensures Valid() && |old(nodes)| <= |nodes| && (forall o :: o in role ==> o in old(role) || fresh(o))
      ensures quantum == old(quantum) && qset == old(qset)
      ensures r == if mem < old(Missing(item, slot)) then Err(ENOMEM) else if reach < n then Err(EFAULT) else Ok(n)
      ensures r == Err(ENOMEM) ==> Bytes() == old(Bytes())
      ensures r != Err(ENOMEM) ==> nodes != [] && Touched(old(Bytes()), Bytes(), quantum, at, n, false)
      ensures r.Ok? ==> Spells(Bytes(), at, user[..n])
    {
      hide Lies, Turns, Bytes;
      var b := Provide(at, number, slot, off, mem, false, item);
      if b == null {
        return Err(ENOMEM);
      }
      ghost var mid := Bytes();
      var failed := StoreAt(at, item, slot, b, off, user, 0, n, reach);
      ThenChanged(old(Bytes()), mid, Bytes(), quantum, at, n, false);
      assert user[0..0 + n] == user[..n];
      return if failed != 0 then Err(EFAULT) else Ok(n);
    }

    /** kfree: nothing for a null pointer, and never twice for the same allocation. */
    method Kfree(o: object?)
      requires o != null ==> o in role
      modifies this`role
      ensures role == if o == null then old(role) else old(role) - {o}
    {
      role := if o == null then role else role - {o};
    }

    method FreeBlock(q: Qset, i: nat, ghost k: nat)
      requires Covers(k, i) && k < |nodes| && NodeOk(k, k, i) && q == nodes[k] && q.data != null && i < qset
      modifies this`role
      ensures Covers(k, i + 1) && NodeOk(k, k, i + 1)
    {
      Kfree(q.data[i]);
      ghost var rest := i + 1;
      forall m | k <= m < |nodes| ensures NodeOk(m, k, rest) {
        assert old(NodeOk(m, k, i));
      }
      forall o | o in role ensures InUse(o, role[o], k, rest) {
        assert old(InUse(o, role[o], k, i));
      }
    }

    /** The blocks of a node, by the `qset` they were allocated under. */
    method FreeBlocks(q: Qset, ghost k: nat)
      requires Covers(k, 0) && k < |nodes| && q == nodes[k] && q.data != null && 0 <= qset
      modifies this`role
      ensures Covers(k, qset) && NodeOk(k, k, qset)
    {
      var i := 0;
      assert NodeOk(k, k, 0);
      while i < qset
        invariant 0 <= i <= qset && Covers(k, i) && NodeOk(k, k, i)
      {
        FreeBlock(q, i, k);
        i := i + 1;
      }
    }

    /** The pointer array, once its blocks are gone. */
    method FreeTable(q: Qset, ghost k: nat)
      requires 0 <= qset && k < |nodes| && Covers(k, qset) && NodeOk(k, k, qset) && q == nodes[k] && q.data != null
      modifies this`role, q`data
      ensures Covers(k, 0) && NodeOk(k, k, 0) && q.data == null
    {
      Kfree(q.data);
      q.data := null;
      forall m | k <= m < |nodes| ensures NodeOk(m, k, 0) {
        assert old(NodeOk(m, k, qset));
      }
      forall o | o in role ensures InUse(o, role[o], k, 0) {
        assert old(InUse(o, role[o], k, qset));
      }
    }

    method FreeNode(q: Qset, ghost k: nat)
      requires k < |nodes| && Covers(k, 0) && NodeOk(k, k, 0) && q == nodes[k] && q.data == null
      modifies this`role
      ensures Covers(k + 1, 0)
    {
      Kfree(q);
      ghost var rest := k + 1;
      forall m | rest <= m < |nodes| ensures NodeOk(m, rest, 0) {
        assert old(NodeOk(m, k, 0));
      }
      forall o | o in role ensures InUse(o, role[o], rest, 0) {
        assert old(InUse(o, role[o], k, 0));
      }
    }

    /** The walk of scull_trim: each node, array and block is freed once, and nothing
        stays allocated. */
    method FreeAll()
      requires Valid()
      modifies this`head, this`nodes, this`role, nodes
      ensures Valid() && nodes == [] && role == map[]
    {
      var dptr := head;
      ghost var k := 0;
      while dptr != null
        invariant k <= |nodes| && nodes == old(nodes)
        invariant dptr == if k < |nodes| then nodes[k] else null
        invariant Covers(k, 0)
        decreases |nodes| - k
      {
        assert NodeOk(k, k, 0);
        if dptr.data != null {
          FreeBlocks(dptr, k);
          FreeTable(dptr, k);
        }
        var next := dptr.next;
        FreeNode(dptr, k);
        dptr := next;
        k := k + 1;
      }
      assert role.Keys == {};
      head := null;
      nodes := [];
    }
  }
}
