/** Domain decomposition of the threaded Python solver: every worker `num` of
    `threads` owns the half-open node range [lo, hi) of the `nx` nodes and, by
    its position in the chain, an incoming queue from the left and/or from the
    right. */
module HeatPartition {

  /** What `Worker.__init__` derives from the worker's number: its range and
      which of its two incoming queues exist. */
  datatype Placement = Placement(lo: nat, hi: nat, hasLeft: bool, hasRight: bool)
  {
    /** The worker's buffer length (`self.sz`). */
    function Size(): int { hi - lo }

    /** Does the worker own node `x`? */
    predicate Owns(x: int) { lo <= x < hi }
  }

  /** The common partition width `tx = nx // threads`. */
  function Tx(nx: nat, threads: nat): nat
    requires threads >= 1
  {
    nx / threads
  }

  /** `Worker.__init__`: `lo = tx*num`, `hi = tx*(num+1)`, and the four-way
      case split that lets the last worker absorb the remainder and gives the
      chain ends only one queue. */
  function Place(nx: nat, threads: nat, num: nat): Placement
    requires threads >= 1
  {
    var tx := Tx(nx, threads);
    if threads == 1 then Placement(tx * num, tx * (num + 1), false, false)
    else if num + 1 == threads then Placement(tx * num, nx, true, false)
    else if num == 0 then Placement(tx * num, tx * (num + 1), false, true)
    else Placement(tx * num, tx * (num + 1), true, true)
  }

  /** The worker that owns node `x`: the quotient by the width, clipped to the
      last worker, which holds the remainder. */
  function Owner(nx: nat, threads: nat, x: nat): nat
    requires 1 <= threads <= nx
  {
    var q := x / Tx(nx, threads);
    if q < threads - 1 then q else threads - 1
  }

  lemma MulMono(c: nat, a: nat, b: nat)
    requires a <= b
    ensures c * a <= c * b
  {
  }

  /** The width is at least one and `threads` widths fit in the domain. */
  lemma TxBounds(nx: nat, threads: nat)
    requires 1 <= threads <= nx
    ensures 1 <= Tx(nx, threads)
    ensures Tx(nx, threads) * threads <= nx
    ensures nx < Tx(nx, threads) * threads + threads
  {
  }

  /** Every non-last worker ends exactly where its successor starts; so does
      the single worker end at `nx`, and any worker not last ends at `tx*(num+1)`. */
  lemma PlaceHi(nx: nat, threads: nat, num: nat)
    requires 1 <= threads <= nx && num < threads
    ensures Place(nx, threads, num).lo == Tx(nx, threads) * num
    ensures num + 1 < threads ==> Place(nx, threads, num).hi == Tx(nx, threads) * (num + 1)
    ensures num + 1 == threads ==> Place(nx, threads, num).hi == nx
  {
    if threads == 1 {
      assert num == 0;
      assert Tx(nx, threads) == nx;
    }
  }

  /** Every range is non-empty and lies inside [0, nx): `sz >= 1`. */
  lemma PlaceInDomain(nx: nat, threads: nat, num: nat)
    requires 1 <= threads <= nx && num < threads
    ensures Place(nx, threads, num).lo < Place(nx, threads, num).hi <= nx
    ensures Place(nx, threads, num).Size() >= 1
  {
    var tx := Tx(nx, threads);
    TxBounds(nx, threads);
    PlaceHi(nx, threads, num);
    MulMono(tx, num + 1, threads);
    if num + 1 == threads {
      assert tx * num + tx == tx * threads;
    }
  }

  /** The ranges tile [0, nx): the first starts at 0, the last ends at `nx`,
      and each one ends exactly where the next begins. */
  lemma Tiling(nx: nat, threads: nat)
    requires 1 <= threads <= nx
    ensures Place(nx, threads, 0).lo == 0
    ensures Place(nx, threads, threads - 1).hi == nx
    ensures forall num :: 0 <= num < threads - 1 ==>
              Place(nx, threads, num).hi == Place(nx, threads, num + 1).lo
    ensures forall num :: 0 <= num < threads ==> Place(nx, threads, num).Size() >= 1
  {
    PlaceHi(nx, threads, threads - 1);
    forall num | 0 <= num < threads - 1
      ensures Place(nx, threads, num).hi == Place(nx, threads, num + 1).lo
    {
      PlaceHi(nx, threads, num);
      PlaceHi(nx, threads, num + 1);
    }
    forall num | 0 <= num < threads
      ensures Place(nx, threads, num).Size() >= 1
    {
      PlaceInDomain(nx, threads, num);
    }
  }

  /** The ranges are ordered by worker number and pairwise disjoint. */
  lemma Ordered(nx: nat, threads: nat, i: nat, j: nat)
    requires 1 <= threads <= nx && i < j < threads
    ensures Place(nx, threads, i).hi <= Place(nx, threads, j).lo
    ensures forall x :: !(Place(nx, threads, i).Owns(x) && Place(nx, threads, j).Owns(x))
  {
    PlaceHi(nx, threads, i);
    PlaceHi(nx, threads, j);
    MulMono(Tx(nx, threads), i + 1, j);
  }

  lemma DivBounds(x: nat, d: nat)
    requires d >= 1
    ensures d * (x / d) <= x < d * (x / d) + d
  {
    assert x == d * (x / d) + x % d;
  }

  /** The range named by `Owner` holds the node. */
  lemma OwnerOwns(nx: nat, threads: nat, x: nat)
    requires 1 <= threads <= nx && x < nx
    ensures Place(nx, threads, Owner(nx, threads, x)).Owns(x)
  {
    var tx := Tx(nx, threads);
    TxBounds(nx, threads);
    var q := x / tx;
    DivBounds(x, tx);
    var o := Owner(nx, threads, x);
    PlaceHi(nx, threads, o);
    if q >= threads - 1 {
      MulMono(tx, threads - 1, q);
      PlaceInDomain(nx, threads, o);
    } else {
      assert tx * (q + 1) == tx * q + tx;
    }
  }

  /** Each node has exactly one owner, and `Owner` names it: the ranges cover
      [0, nx) without overlap. */
  lemma OwnerExact(nx: nat, threads: nat, x: nat, num: nat)
    requires 1 <= threads <= nx && x < nx && num < threads
    ensures Place(nx, threads, num).Owns(x) <==> num == Owner(nx, threads, x)
  {
    var o := Owner(nx, threads, x);
    OwnerOwns(nx, threads, x);
    if num < o {
      Ordered(nx, threads, num, o);
    } else if o < num {
      Ordered(nx, threads, o, num);
    }
  }

  /** Queue presence follows position: a worker has a left queue exactly when
      it is not the first, a right queue exactly when it is not the last (so a
      single worker has neither). */
  lemma QueuePresence(nx: nat, threads: nat, num: nat)
    requires 1 <= threads && num < threads
    ensures Place(nx, threads, num).hasLeft <==> 0 < num
    ensures Place(nx, threads, num).hasRight <==> num + 1 < threads
  {
  }
}
