/** The double-buffered worker of the Swift solver.  A worker holds two
    buffers of `num + 2` slots; step `t` reads buffer `t % 2` and writes
    buffer `(t + 1) % 2`.  Neighbours exchange single slots directly, and the
    driver arranges the workers in a ring. */
module HeatSwift {

  /** Heat transfer coefficient, time step and grid spacing of heat_3.swift. */
  const K: real := 0.4
  const Dt: real := 1.0
  const Dx: real := 1.0

  /** The factor `r = k*dt/(dx*dx)` of `update`. */
  const R: real := K * Dt / (Dx * Dx)

  /** Buffer 0 as `init` leaves it: 0 at both ends and `lo + i` in slot `i`
      for `1 <= i <= num`. */
  function Initial(lo: int, num: nat): seq<real>
  {
    seq(num + 2, i => if 1 <= i <= num then (lo + i) as real else 0.0)
  }

  /** The new value of slot `i`: the old value plus `r` times the centred
      second difference. */
  function Explicit(s: seq<real>, i: int): real
    requires 0 < i < |s| - 1
  {
    s[i] + R * (s[i - 1] - 2.0 * s[i] + s[i + 1])
  }

  /** What `update` leaves in the target buffer `dst`: slots `1 ..= num - 2`
      (with `num = |dst| - 2`) take `Explicit` of `src`, every other slot
      keeps its value. */
  function Diffuse(src: seq<real>, dst: seq<real>): seq<real>
    requires |src| == |dst| >= 2
  {
    seq(|dst|, i requires 0 <= i < |dst| => if 1 <= i <= |dst| - 4 then Explicit(src, i) else dst[i])
  }

  /** The worker whose buffer `receiv_ghost` reads as the left neighbour of
      worker `p` of a ring of `threads`: the if-chain of the driver. */
  function LeftOf(p: nat, threads: nat): nat
    requires 1 < threads && p < threads
  {
    if p == 0 then threads - 1
    else if p == threads - 1 then p - 1
    else p - 1
  }

  /** The right neighbour of worker `p` in the driver's ring. */
  function RightOf(p: nat, threads: nat): nat
    requires 1 < threads && p < threads
  {
    if p == 0 then 1
    else if p == threads - 1 then 0
    else p + 1
  }

  /** The driver's neighbours are the ring neighbours modulo `threads`. */
  lemma RingNeighbours(p: nat, threads: nat)
    requires 1 < threads && p < threads
    ensures LeftOf(p, threads) == (p - 1 + threads) % threads
    ensures RightOf(p, threads) == (p + 1) % threads
    ensures LeftOf(p, threads) != p && RightOf(p, threads) != p
  {
    if p == 0 {
      assert (p - 1 + threads) % threads == threads - 1;
    } else {
      assert (p - 1 + threads) % threads == p - 1 by {
        assert p - 1 + threads == (p - 1) + 1 * threads;
      }
    }
    if p == threads - 1 {
      assert (p + 1) % threads == 0;
    }
  }

  /** Left and right are inverse: `q` is the left neighbour of `p` exactly
      when `p` is the right neighbour of `q`, so the workers form one ring. */
  lemma RingInverse(p: nat, q: nat, threads: nat)
    requires 1 < threads && p < threads && q < threads
    ensures LeftOf(p, threads) == q <==> RightOf(q, threads) == p
  {
  }

  /** A centred second difference vanishes on an arithmetic progression, so
      `update` keeps a slot whose two neighbours continue it linearly. */
  lemma DiffuseKeepsLinear(src: seq<real>, dst: seq<real>, i: nat)
    requires |src| == |dst| >= 2 && 1 <= i <= |dst| - 4
    requires src[i + 1] - src[i] == src[i] - src[i - 1]
    ensures Diffuse(src, dst)[i] == src[i]
  {
    assert src[i - 1] - 2.0 * src[i] + src[i + 1] == 0.0;
    assert Explicit(src, i) == src[i];
  }

  /** The slots `update` never writes: slot 0, the last two interior slots
      `num - 1` and `num`, and slot `num + 1`. */
  predicate SameEdges(a: seq<real>, b: seq<real>)
    requires |a| == |b| >= 3
  {
    var n := |a| - 2;
    a[0] == b[0] && a[n - 1] == b[n - 1] && a[n] == b[n] && a[n + 1] == b[n + 1]
  }

  /** `update` leaves those slots of its target alone. */
  lemma DiffuseWrites(src: seq<real>, dst: seq<real>)
    requires |src| == |dst| >= 3
    ensures |Diffuse(src, dst)| == |dst| && SameEdges(Diffuse(src, dst), dst)
  {
  }

  /** Both buffers of a lone worker after `n` steps of the driver: step `t`
      rewrites buffer `(t + 1) % 2` from buffer `t % 2`. */
  function Evolve(b0: seq<real>, b1: seq<real>, n: nat): (r: (seq<real>, seq<real>))
    requires |b0| == |b1| >= 2
    ensures |r.0| == |b0| && |r.1| == |b1|
  {
    if n == 0 then (b0, b1)
    else
      var c := Evolve(b0, b1, n - 1);
      if (n - 1) % 2 == 0 then (c.0, Diffuse(c.0, c.1)) else (Diffuse(c.1, c.0), c.1)
  }

  /** However many steps a lone worker takes, the slots `update` never
      writes keep their initial values in both buffers. */
  lemma {:induction false} EvolveKeepsEdges(b0: seq<real>, b1: seq<real>, n: nat)
    requires |b0| == |b1| >= 3
    ensures SameEdges(Evolve(b0, b1, n).0, b0) && SameEdges(Evolve(b0, b1, n).1, b1)
  {
    if n > 0 {
      var c := Evolve(b0, b1, n - 1);
      EvolveKeepsEdges(b0, b1, n - 1);
      DiffuseWrites(c.0, c.1);
      DiffuseWrites(c.1, c.0);
    }
  }

  /** The numbering `init` gives: worker `t` of width `length` holds
      `t*length + i` in slot `i`, so consecutive workers continue each
      other's numbering and the pool holds `1 ..= threads*length` in order. */
  lemma InitialNumbering(length: nat, t: nat)
    requires length >= 1
    ensures Initial(t * length, length)[length] as int + 1 == Initial((t + 1) * length, length)[1] as int
    ensures Initial(t * length, length)[1] as int == t * length + 1
  {
    assert (t + 1) * length == t * length + length;
  }

  class Worker {
    const space: seq<array<real>>
    const num: int
    const lo: int
    /** Computed by `init` and never read. */
    const hi: int

    ghost predicate Valid()
    {
      |space| == 2 && space[0] != space[1] && num >= 1 &&
      space[0].Length == num + 2 && space[1].Length == num + 2
    }

    /** No buffer of `this` is a buffer of `other`, unless they are the same
        worker: each worker allocates its own. */
    ghost predicate Apart(other: Worker)
      requires Valid() && other.Valid()
    {
      this == other ||
      (space[0] != other.space[0] && space[0] != other.space[1] &&
       space[1] != other.space[0] && space[1] != other.space[1])
    }

    /** `init(p_num, tx)`: two fresh buffers of `num + 2` slots, buffer 0
        numbered from `lo = tx*num`.  Buffer 1 is allocated uninitialised. */
    constructor (pNum: int, tx: int)
      requires pNum >= 1
      ensures Valid() && num == pNum && lo == tx * pNum && hi == tx * (pNum + 1)
      ensures fresh(space[0]) && fresh(space[1])
      ensures space[0][..] == Initial(lo, num)
    {
      num := pNum;
      lo := tx * pNum;
      hi := tx * (pNum + 1);
      var a := new real[pNum + 2];
      var b := new real[pNum + 2];
      space := [a, b];
      new;
      a[0] := 0.0;
      for i := 1 to pNum + 1
        invariant a[0] == 0.0
        invariant forall j :: 1 <= j < i ==> a[j] == (lo + j) as real
      {
        a[i] := (lo + i) as real;
      }
      a[pNum + 1] := 0.0;
      assert a[..] == Initial(lo, num);
    }

    /** `send_left(t)`: slot 1 of buffer `t % 2`. */
    function SendLeft(t: nat): real
      requires Valid()
      reads space[t % 2]
    {
      space[t % 2][1]
    }

    /** `send_right(t)`: slot `num - 1` of buffer `t % 2`. */
    function SendRight(t: nat): real
      requires Valid()
      reads space[t % 2]
    {
      space[t % 2][num - 1]
    }

    /** `receiv_left(t, value)`: slot 0 of buffer `(t + 1) % 2` takes `value`. */
    method ReceivLeft(t: nat, value: real)
      requires Valid()
      modifies space[(t + 1) % 2]
      ensures space[(t + 1) % 2][..] == old(space[(t + 1) % 2][..])[0 := value]
    {
      space[(t + 1) % 2][0] := value;
    }

    /** `receiv_right(t, value)`: slot `num - 1` of buffer `(t + 1) % 2`
        takes `value`. */
    method ReceivRight(t: nat, value: real)
      requires Valid()
      modifies space[(t + 1) % 2]
      ensures space[(t + 1) % 2][..] == old(space[(t + 1) % 2][..])[num - 1 := value]
    {
      space[(t + 1) % 2][num - 1] := value;
    }

    /** `receiv_ghost(left, right, t)`: slot 0 of buffer `t % 2` takes the
        left neighbour's `send_right`, then slot `num - 1` the right
        neighbour's `send_left`. */
    method ReceivGhost(left: Worker, right: Worker, t: nat)
      requires Valid() && left.Valid() && right.Valid()
      modifies space[t % 2]
      ensures space[t % 2][..] ==
              old(space[t % 2][..])[0 := old(left.SendRight(t))][num - 1 := old(right.SendLeft(t))]
    {
      var l := left.SendRight(t);
      space[t % 2][0] := l;
      var r := right.SendLeft(t);
      space[t % 2][num - 1] := r;
    }

    /** `send_ghost(left, right, t)`: the left neighbour's `receiv_right`
        gets this worker's `send_left`, then the right neighbour's
        `receiv_left` its `send_right`.  When both neighbours are one worker
        (a ring of two) both writes land in its buffer. */
    method SendGhost(left: Worker, right: Worker, t: nat)
      requires Valid() && left.Valid() && right.Valid() && Apart(left)
      modifies left.space[(t + 1) % 2], right.space[(t + 1) % 2]
      ensures var a, b := old(SendLeft(t)), old(SendRight(t));
              var lb, rb := left.space[(t + 1) % 2], right.space[(t + 1) % 2];
              if lb == rb then rb[..] == old(rb[..])[left.num - 1 := a][0 := b]
              else lb[..] == old(lb[..])[left.num - 1 := a] && rb[..] == old(rb[..])[0 := b]
    {
      var a := SendLeft(t);
      left.ReceivRight(t, a);
      var b := SendRight(t);
      right.ReceivLeft(t, b);
    }

    /** `update(t)`: buffer `(t + 1) % 2` becomes `Diffuse` of buffer
        `t % 2`, which is only read. */
    method Update(t: nat)
      requires Valid() && num >= 3
      modifies space[(t + 1) % 2]
      ensures space[(t + 1) % 2][..] == Diffuse(space[t % 2][..], old(space[(t + 1) % 2][..]))
      ensures space[t % 2][..] == old(space[t % 2][..])
    {
      var dst := space[(t + 1) % 2];
      var src := space[t % 2];
      assert src != dst by { assert (t + 1) % 2 != t % 2; }
      ghost var before := dst[..];
      for i := 1 to num - 1
        invariant forall j :: 0 <= j < num + 2 ==> dst[j] == if 1 <= j < i then Explicit(src[..], j) else before[j]
      {
        dst[i] := src[i] + R * (src[i - 1] - 2.0 * src[i] + src[i + 1]);
      }
      assert dst[..] == Diffuse(src[..], before);
    }
  }

  /** A pool as the driver builds it: valid workers of at least three slots
      of interior each, no two sharing a buffer. */
  ghost predicate PoolOk(pool: seq<Worker>)
  {
    (forall i :: 0 <= i < |pool| ==> pool[i].Valid() && pool[i].num >= 3) &&
    (forall i, j :: 0 <= i < |pool| && 0 <= j < |pool| && i != j ==> pool[i] != pool[j] && pool[i].Apart(pool[j]))
  }

  /** The loop appending `Worker(length, t)` for `t` in `0...(threads - 1)`,
      with `length = nx / threads`: worker `t` has width `length` and is
      numbered from `t*length`; every worker has buffers of its own. */
  method BuildPool(nx: nat, threads: nat) returns (pool: seq<Worker>)
    requires 1 <= threads <= nx
    ensures |pool| == threads
    ensures forall t :: 0 <= t < threads ==>
              pool[t].Valid() && pool[t].num == nx / threads && pool[t].lo == t * (nx / threads) &&
              pool[t].space[0][..] == Initial(t * (nx / threads), nx / threads)
    ensures forall t :: 0 <= t < threads ==> pool[t].Valid() && fresh(pool[t].space[0]) && fresh(pool[t].space[1])
    ensures forall i, j :: 0 <= i < threads && 0 <= j < threads && i != j ==> pool[i] != pool[j] && pool[i].Apart(pool[j])
  {
    var length := nx / threads;
    assert length >= 1 by {
      assert threads * 1 <= nx;
    }
    pool := [];
    for t := 0 to threads
      invariant |pool| == t
      invariant forall i :: 0 <= i < t ==>
                  pool[i].Valid() && pool[i].num == length && pool[i].lo == i * length &&
                  pool[i].space[0][..] == Initial(i * length, length)
      invariant forall i :: 0 <= i < t ==> fresh(pool[i].space[0]) && fresh(pool[i].space[1])
      invariant forall i, j :: 0 <= i < t && 0 <= j < t && i != j ==> pool[i] != pool[j] && pool[i].Apart(pool[j])
    {
      var w := new Worker(length, t);
      pool := pool + [w];
    }
  }

  /** The task of worker `p` at step `t`: in a ring of more than one worker
      it takes its ghosts from its ring neighbours, updates, and hands its
      edge slots back; alone it only updates.  The right neighbour's next
      ghost slot receives the value that neighbour itself sent, because
      `send_right` reads the slot `receiv_ghost` has just overwritten. */
  method Task(pool: seq<Worker>, p: nat, t: nat)
    requires PoolOk(pool) && p < |pool|
    modifies pool[p].space[0], pool[p].space[1]
    modifies if 1 < |pool| then {pool[LeftOf(p, |pool|)].space[(t + 1) % 2], pool[RightOf(p, |pool|)].space[(t + 1) % 2]} else {}
    ensures var w := pool[p];
            w.space[(t + 1) % 2][..] == Diffuse(w.space[t % 2][..], old(w.space[(t + 1) % 2][..]))
    ensures |pool| == 1 ==> pool[p].space[t % 2][..] == old(pool[p].space[t % 2][..])
    ensures 1 < |pool| ==>
              var w, l, r := pool[p], pool[LeftOf(p, |pool|)], pool[RightOf(p, |pool|)];
              w.space[t % 2][..] == old(w.space[t % 2][..])[0 := old(l.SendRight(t))][w.num - 1 := old(r.SendLeft(t))] &&
              l.space[(t + 1) % 2][l.num - 1] == w.space[t % 2][1] &&
              r.space[(t + 1) % 2][0] == old(r.SendLeft(t))
  {
    var w := pool[p];
    var threads := |pool|;
    if threads > 1 {
      var l, r := pool[LeftOf(p, threads)], pool[RightOf(p, threads)];
      RingNeighbours(p, threads);
      w.ReceivGhost(l, r, t);
      w.Update(t);
      w.SendGhost(l, r, t);
    } else {
      w.Update(t);
    }
  }

  /** The driver with a single worker: `nt` steps of `update` alone (the
      closed range `0...(nt - 1)` needs `nt >= 1`); the buffers follow
      `Evolve`. */
  method DriveAlone(w: Worker, nt: nat)
    requires w.Valid() && w.num >= 3 && nt >= 1
    modifies w.space[0], w.space[1]
    ensures (w.space[0][..], w.space[1][..]) == Evolve(old(w.space[0][..]), old(w.space[1][..]), nt)
  {
    ghost var b0, b1 := w.space[0][..], w.space[1][..];
    for t := 0 to nt
      invariant (w.space[0][..], w.space[1][..]) == Evolve(b0, b1, t)
    {
      w.Update(t);
    }
  }
}
