/** A flat file position and the place it stands for: list node, slot of the pointer
    array, offset in the block. */
module Positions {
  import opened Kernel
  import opened Arithmetic

  datatype Place = Place(item: nat, slot: nat, off: nat)

  /** The nested division of read and write. */
  function PlaceOf(pos: nat, quantum: int, qset: int): Place
    requires 0 < quantum && 0 < qset
  {
    Positive(quantum, qset);
    var itemsize := quantum * qset;
    var rest := pos % itemsize;
    Place(pos / itemsize, rest / quantum, rest % quantum)
  }

  lemma Positive(a: int, b: int)
    requires 0 < a && 0 < b
    ensures 0 < a * b
  {
  }

  /** The place is in bounds and determines the position; consecutive blocks of the
      flat file are consecutive slots. */
  lemma PlaceBounds(pos: nat, quantum: int, qset: int)
    requires 0 < quantum && 0 < qset
    ensures var p := PlaceOf(pos, quantum, qset);
            && p.slot < qset && p.off < quantum
            && pos / quantum == p.item * qset + p.slot
            && pos % quantum == p.off
  {
    Positive(quantum, qset);
    var itemsize := quantum * qset;
    var p := PlaceOf(pos, quantum, qset);
    var rest := pos % itemsize;
    assert pos == p.item * itemsize + rest;
    assert rest == p.slot * quantum + p.off;
    assert p.slot < qset by {
      if qset <= p.slot {
        if qset < p.slot {
          MulMono(qset, p.slot, quantum);
        }
      }
    }
    Regroup(p.item, qset, p.slot, quantum);
    DivUnique(pos, quantum, p.item * qset + p.slot, p.off);
  }

  lemma Regroup(a: int, b: int, c: int, d: int)
    ensures a * (d * b) + c * d == (a * b + c) * d
  {
  }

  lemma SameRow(i: nat, s: nat, j: nat, t: nat, qset: nat)
    requires s < qset && t < qset && i * qset + s == j * qset + t
    ensures i == j && s == t
  {
    DivUnique(i * qset + s, qset, i, s);
    DivUnique(j * qset + t, qset, j, t);
  }

  /** Two positions lie in the same block of the list exactly when they lie in the same
      quantum of the flat file. */
  lemma SameBlock(x: nat, y: nat, quantum: int, qset: int)
    requires 0 < quantum && 0 < qset
    ensures var p, q := PlaceOf(x, quantum, qset), PlaceOf(y, quantum, qset);
            p.item == q.item && p.slot == q.slot <==> x / quantum == y / quantum
  {
    PlaceBounds(x, quantum, qset);
    PlaceBounds(y, quantum, qset);
    var p, q := PlaceOf(x, quantum, qset), PlaceOf(y, quantum, qset);
    if x / quantum == y / quantum {
      SameRow(p.item, p.slot, q.item, q.slot, qset);
    }
  }

  /** Inside one quantum, offsets differ as positions do. */
  lemma SameQuantum(x: nat, y: nat, quantum: int)
    requires 0 < quantum
    ensures x / quantum == y / quantum ==> x - y == x % quantum - y % quantum
    ensures y <= x < y + (quantum - y % quantum) ==> x / quantum == y / quantum
  {
    if y <= x < y + (quantum - y % quantum) {
      DivUnique(x, quantum, y / quantum, y % quantum + (x - y));
    }
  }

  /** Whether x shares a block with pos, and where it lies in it. */
  lemma BlockPosition(x: nat, pos: nat, quantum: int, qset: int)
    requires 0 < quantum && 0 < qset
    ensures var p, q := PlaceOf(x, quantum, qset), PlaceOf(pos, quantum, qset);
              && p.off < quantum && p.slot < qset
              && (p.item == q.item && p.slot == q.slot <==> x / quantum == pos / quantum)
              && (x / quantum == pos / quantum ==> p.off - q.off == x - pos)
              && (pos <= x < pos + (quantum - q.off) ==> x / quantum == pos / quantum)
    ensures PlaceOf(pos, quantum, qset).off == pos % quantum
  {
    PlaceBounds(pos, quantum, qset);
    PlaceBounds(x, quantum, qset);
    SameBlock(x, pos, quantum, qset);
    hide PlaceOf;
    SameQuantum(x, pos, quantum);
  }

  /** The positions that share a block with pos. */
  lemma BlockPositions(pos: nat, quantum: int, qset: int)
    requires 0 < quantum && 0 < qset
    ensures forall x: nat ::
              var p, q := PlaceOf(x, quantum, qset), PlaceOf(pos, quantum, qset);
              && p.off < quantum && p.slot < qset
              && (p.item == q.item && p.slot == q.slot <==> x / quantum == pos / quantum)
              && (x / quantum == pos / quantum ==> p.off - q.off == x - pos)
              && (pos <= x < pos + (quantum - q.off) ==> x / quantum == pos / quantum)
    ensures PlaceOf(pos, quantum, qset).off == pos % quantum
  {
    hide PlaceOf;
    BlockPosition(pos, pos, quantum, qset);
    forall x: nat
      ensures var p, q := PlaceOf(x, quantum, qset), PlaceOf(pos, quantum, qset);
              && p.off < quantum && p.slot < qset
              && (p.item == q.item && p.slot == q.slot <==> x / quantum == pos / quantum)
              && (x / quantum == pos / quantum ==> p.off - q.off == x - pos)
              && (pos <= x < pos + (quantum - q.off) ==> x / quantum == pos / quantum)
    {
      BlockPosition(x, pos, quantum, qset);
    }
  }

  /** Further along in the same quantum is further along in the same block. */
  lemma FurtherInBlock(pos: nat, k: nat, quantum: int, qset: int)
    requires 0 < quantum && 0 < qset && pos % quantum + k < quantum
    ensures var p := PlaceOf(pos, quantum, qset);
            PlaceOf(pos + k, quantum, qset) == Place(p.item, p.slot, pos % quantum + k)
    ensures (pos + k) % quantum == pos % quantum + k
  {
    PlaceBounds(pos, quantum, qset);
    PlaceBounds(pos + k, quantum, qset);
    SameQuantum(pos + k, pos, quantum);
    SameBlock(pos + k, pos, quantum, qset);
  }

  /** Position `at` is offset off of block slot of node item. */
  ghost predicate Lies(at: nat, item: nat, slot: nat, off: nat, quantum: int, qset: int) {
    && 0 < quantum && 0 < qset && slot < qset && off < quantum
    && off == at % quantum && PlaceOf(at, quantum, qset) == Place(item, slot, off)
  }

  lemma LiesOffset(at: nat, item: nat, slot: nat, off: nat, quantum: int, qset: int)
    requires Lies(at, item, slot, off, quantum, qset)
    ensures 0 < quantum && off == at % quantum && off < quantum && slot < qset
  {
  }

  lemma LiesFurther(at: nat, k: nat, item: nat, slot: nat, off: nat, quantum: int, qset: int)
    requires Lies(at, item, slot, off, quantum, qset) && off + k < quantum
    ensures Lies(at + k, item, slot, off + k, quantum, qset)
  {
    FurtherInBlock(at, k, quantum, qset);
  }

  // ---- the same arithmetic in the C types ----

  /** Division and remainder of C: rounded toward zero. */
  function CDiv(a: int, b: int): int
    requires b != 0
  {
    if a < 0 then -((-a) / b) else a / b
  }

  function CRem(a: int, b: int): int
    requires b != 0
  {
    a - CDiv(a, b) * b
  }

  /** item, s_pos and q_pos, all int variables. */
  datatype CPlace = CPlace(item: int, slot: int, off: int)

  /** The lines that compute them; undefined when the product leaves int or is zero. */
  function Computed(pos: nat, quantum: int, qset: int): Option<CPlace> {
    var itemsize := quantum * qset;
    if itemsize == 0 || !(-INT_MAX - 1 <= itemsize <= INT_MAX) then None
    else
      Nonzero(quantum, qset);
      var item, rest := ToInt32(CDiv(pos, itemsize)), ToInt32(CRem(pos, itemsize));
      Some(CPlace(item, CDiv(rest, quantum), CRem(rest, quantum)))
  }

  lemma Nonzero(a: int, b: int)
    requires a * b != 0
    ensures a != 0 && b != 0
  {
  }

  /** A node number, an index into the pointer array and an index into the block. */
  predicate InBounds(p: CPlace, quantum: int, qset: int) {
    0 <= p.item && 0 <= p.slot < qset && 0 <= p.off < quantum
  }

  /** The position that a place stands for. */
  function PositionOf(p: CPlace, quantum: int, qset: int): int {
    (p.item * qset + p.slot) * quantum + p.off
  }

  /** The arithmetic finds the right place. */
  predicate RightPlace(pos: nat, quantum: int, qset: int) {
    var p := Computed(pos, quantum, qset);
    p.Some? && InBounds(p.value, quantum, qset) && PositionOf(p.value, quantum, qset) == pos
  }

  /** The geometry a position can be divided by: positive, and its product fits an int. */
  predicate Usable(quantum: int, qset: int) {
    0 < quantum && 0 < qset && quantum * qset <= INT_MAX
  }

  /** What is computed under a usable geometry. */
  lemma ComputedPlace(pos: nat, quantum: int, qset: int)
    requires Usable(quantum, qset)
    ensures var p := PlaceOf(pos, quantum, qset);
            Computed(pos, quantum, qset) == Some(CPlace(ToInt32(p.item), p.slot, p.off))
  {
    Positive(quantum, qset);
    PlaceBounds(pos, quantum, qset);
    var rest := pos % (quantum * qset);
    assert CRem(pos, quantum * qset) == rest;
    assert CRem(rest, quantum) == rest % quantum;
  }

  lemma PositionOfPlace(pos: nat, quantum: int, qset: int)
    requires 0 < quantum && 0 < qset
    ensures var p := PlaceOf(pos, quantum, qset);
            (p.item * qset + p.slot) * quantum + p.off == pos
  {
    PlaceBounds(pos, quantum, qset);
    assert pos == pos / quantum * quantum + pos % quantum;
  }

  /** The place is in bounds and denotes the position exactly for a usable geometry and a
      position whose item number an int can hold. */
  lemma PlaceIsRight(pos: nat, quantum: int, qset: int)
    ensures RightPlace(pos, quantum, qset) <==> Usable(quantum, qset) && pos < 0x8000_0000 * (quantum * qset)
  {
    if Usable(quantum, qset) {
      Positive(quantum, qset);
      ComputedPlace(pos, quantum, qset);
      PlaceBounds(pos, quantum, qset);
      PositionOfPlace(pos, quantum, qset);
      var p := PlaceOf(pos, quantum, qset);
      QuotientBound(pos, quantum * qset, 0x8000_0000);
      assert p.item < 0x8000_0000 <==> pos < 0x8000_0000 * (quantum * qset);
      hide PlaceOf, Computed;
      if p.item > INT_MAX && 0 <= ToInt32(p.item) {
        OtherItem(p.item, ToInt32(p.item), p.slot, p.off, quantum, qset);
      }
    } else if RightPlace(pos, quantum, qset) {
      Positive(quantum, qset);
      assert false;
    }
  }

  lemma QuotientBound(x: nat, d: nat, n: nat)
    requires 0 < d
    ensures x / d < n <==> x < n * d
  {
    assert x == x / d * d + x % d;
    if x / d < n {
      MulMono(x / d, n, d);
    } else if n < x / d {
      MulMono(n, x / d, d);
    }
  }

  lemma OtherItem(i: nat, k: nat, slot: nat, off: nat, quantum: nat, qset: nat)
    requires i != k && 0 < quantum && 0 < qset
    ensures (i * qset + slot) * quantum + off != (k * qset + slot) * quantum + off
  {
    if i < k {
      MulMono(i, k, qset);
      MulMono(i * qset + slot, k * qset + slot, quantum);
    } else {
      MulMono(k, i, qset);
      MulMono(k * qset + slot, i * qset + slot, quantum);
    }
  }

  /** A quantum of -1 neither divides by zero nor overflows, and indexes in front of the array. */
  lemma NegativeQuantum()
    ensures Computed(1, -1, 1000) == Some(CPlace(0, -1, 0)) && !RightPlace(1, -1, 1000)
  {
  }

  /** Under the default geometry this position is taken for position 0. */
  lemma AliasedPosition()
    ensures var pos := UINT_RANGE * (4000 * 1000);
            pos <= LLONG_MAX && Computed(pos, 4000, 1000) == Some(CPlace(0, 0, 0)) && !RightPlace(pos, 4000, 1000)
  {
    var pos := UINT_RANGE * 4_000_000;
    assert pos / 4_000_000 == UINT_RANGE && pos % 4_000_000 == 0;
    assert ToInt32(UINT_RANGE) == 0;
    ComputedPlace(pos, 4000, 1000);
    hide Computed;
  }

  // ---- where a call ends up ----

  /** How often `while (n--)` turns: int arithmetic of the kernel wraps, so a negative
      count stands for that count plus 2^32. */
  function Turns(n: int): (turns: nat)
    ensures turns < 0x1_0000_0000 && (0 <= n < 0x1_0000_0000 ==> turns == n)
    ensures -0x1_0000_0000 <= n < 0 ==> turns == n + 0x1_0000_0000
  {
    n % UINT_RANGE
  }

  lemma TurnsOf(n: nat)
    ensures Turns(ToInt32(n)) == n % UINT_RANGE
  {
  }

  lemma OneTurn(n: int)
    requires -INT_MAX - 1 <= n <= INT_MAX && n != 0
    ensures Turns(ToInt32(n - 1)) == Turns(n) - 1
  {
  }

  lemma NoTurn()
    ensures Turns(0) == 0
  {
  }

  /** The position whose bytes a call at pos reaches. */
  function Landing(pos: nat, quantum: int, qset: int): nat {
    if quantum <= 0 || qset <= 0 then pos
    else
      Positive(quantum, qset);
      pos % (UINT_RANGE * (quantum * qset))
  }

  /** It is pos itself exactly below 2^32 items; further out positions repeat, at the same
      offset in their quantum. */
  lemma LandingFacts(pos: nat, quantum: int, qset: int)
    requires 0 < quantum && 0 < qset
    ensures var at, p := Landing(pos, quantum, qset), PlaceOf(pos, quantum, qset);
            && at <= pos && (at == pos <==> pos < UINT_RANGE * (quantum * qset))
            && at % quantum == pos % quantum
            && PlaceOf(at, quantum, qset) == Place(p.item % UINT_RANGE, p.slot, p.off)
  {
    Positive(quantum, qset);
    Truncated(pos, quantum * qset, UINT_RANGE);
    PlaceBounds(pos, quantum, qset);
    PlaceBounds(pos % (UINT_RANGE * (quantum * qset)), quantum, qset);
  }

  /** Further along in the same quantum is further along where the call ends up. */
  lemma LandingNear(pos: nat, i: nat, quantum: int, qset: int)
    requires 0 < quantum && 0 < qset && pos % quantum + i < quantum
    ensures Landing(pos + i, quantum, qset) == Landing(pos, quantum, qset) + i
  {
    var at, at' := Landing(pos, quantum, qset), Landing(pos + i, quantum, qset);
    LandingFacts(pos, quantum, qset);
    LandingFacts(pos + i, quantum, qset);
    hide Landing;
    FurtherInBlock(pos, i, quantum, qset);
    FurtherInBlock(at, i, quantum, qset);
    PositionOfPlace(at + i, quantum, qset);
    PositionOfPlace(at', quantum, qset);
    hide PlaceOf;
  }

  /** Two positions less than 2^32 items apart never end up at the same place. */
  lemma LandingDiffers(x: nat, y: nat, quantum: int, qset: int)
    requires 0 < quantum && 0 < qset && x < y < x + UINT_RANGE * (quantum * qset)
    ensures Landing(x, quantum, qset) != Landing(y, quantum, qset)
  {
    Positive(quantum, qset);
    Residues(x, y, UINT_RANGE * (quantum * qset));
  }

  lemma Residues(x: nat, y: nat, d: nat)
    requires 0 < d && x < y < x + d
    ensures x % d != y % d
  {
    if x % d == y % d {
      assert x == x / d * d + x % d && y == y / d * d + y % d;
      MulMono(x / d, y / d, d);
    }
  }

  /** Dropping the high part of the quotient by m. */
  lemma Truncated(x: nat, m: nat, w: nat)
    requires 0 < m && 0 < w
    ensures 0 < w * m
    ensures var y := x % (w * m);
            y / m == x / m % w && y % m == x % m && y <= x && (y == x <==> x < w * m)
  {
    Positive(w, m);
    Factor(x, x / m, x % m, x / m / w, x / m % w, m, w);
    LowPart(x / m % w, x % m, m, w);
    HighPart(x, w * m, x / m / w, x / m % w * m + x % m);
  }

  lemma Factor(x: nat, item: nat, rest: nat, k: nat, r: nat, m: nat, w: nat)
    requires x == item * m + rest && item == k * w + r
    ensures x == k * (w * m) + (r * m + rest)
  {
  }

  lemma LowPart(r: nat, rest: nat, m: nat, w: nat)
    requires r < w && rest < m
    ensures r * m + rest < w * m && (r * m + rest) / m == r && (r * m + rest) % m == rest
  {
    MulMono(r, w, m);
    DivUnique(r * m + rest, m, r, rest);
  }

  lemma HighPart(x: nat, d: nat, k: nat, y: nat)
    requires y < d && x == k * d + y
    ensures x % d == y && y <= x && (y == x <==> x < d)
  {
    DivUnique(x, d, k, y);
    if k > 0 {
      MulMono(0, k, d);
    }
  }

  /** The arithmetic at the head of read and write. */
  method Split(pos: nat, quantum: int, qset: int) returns (item: int, slot: nat, off: nat)
    requires Usable(quantum, qset)
    ensures Computed(pos, quantum, qset) == Some(CPlace(item, slot, off))
    ensures -INT_MAX - 1 <= item <= INT_MAX && slot < qset && off == pos % quantum && off < quantum
    ensures Lies(Landing(pos, quantum, qset), Turns(item), slot, off, quantum, qset)
  {
    Positive(quantum, qset);
    var itemsize := quantum * qset;
    item := ToInt32(pos / itemsize);
    var rest := pos % itemsize;
    slot, off := rest / quantum, rest % quantum;
    assert PlaceOf(pos, quantum, qset) == Place(pos / itemsize, slot, off);
    hide PlaceOf, Computed, Landing;
    TurnsOf(pos / itemsize);
    PlaceBounds(pos, quantum, qset);
    ComputedPlace(pos, quantum, qset);
    LandingFacts(pos, quantum, qset);
  }
}
