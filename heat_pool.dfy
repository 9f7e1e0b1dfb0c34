/** The coordinator of the threaded Python solver: it builds one worker per
    partition and wires them into a chain, each worker knowing its left and
    right neighbour.  Starting, joining and timing the threads is not part of
    this model. */
module HeatPool {
  import opened HeatProtocol
  import HeatPartition
  import opened HeatWorker

  /** Worker `num` as `Worker(num)` leaves it: its range and queues come from
      `Place`, its buffer holds its slice of the initial field, nothing has
      happened on it yet. */
  ghost predicate Placed(nx: nat, threads: nat, initial: seq<real>, w: Worker, num: nat)
    requires 1 <= threads
    reads w`data, w`data2, w`trace, w.data
  {
    var p := HeatPartition.Place(nx, threads, num);
    w.Valid() && w.num == num && w.lo == p.lo && w.hi == p.hi &&
    (w.left != null <==> p.hasLeft) && (w.right != null <==> p.hasRight) &&
    p.hi <= |initial| && w.data[..] == initial[p.lo..p.hi] && w.trace == []
  }

  /** Different workers of the pool, each with buffers of its own. */
  ghost predicate Separate(th: seq<Worker>)
    reads set i | 0 <= i < |th| :: th[i]
  {
    forall i, j :: 0 <= i < |th| && 0 <= j < |th| && i != j ==> th[i] != th[j] && th[i].Apart(th[j])
  }

  /** The chain `main` wires: worker `i`'s left neighbour is worker `i - 1`
      and its right neighbour worker `i + 1`, where those exist. */
  ghost predicate Chained(th: seq<Worker>)
    reads set i | 0 <= i < |th| :: th[i]
  {
    (forall i {:trigger th[i].leftThread} :: 0 <= i < |th| ==> th[i].leftThread == (if i == 0 then null else th[i - 1])) &&
    (forall i {:trigger th[i].rightThread} :: 0 <= i < |th| ==> th[i].rightThread == (if i + 1 == |th| then null else th[i + 1]))
  }

  /** `main`'s first two loops: one worker per partition, numbered in order,
      each with its slice of `initial` (standing for the random draws), then
      each adjacent pair linked both ways.  In the chain built, every worker
      passes the two asserts of `send_ghosts`. */
  method Build(nx: nat, threads: nat, initial: seq<real>) returns (th: seq<Worker>)
    requires 1 <= threads <= nx && |initial| == nx
    ensures |th| == threads
    ensures forall i, j :: 0 <= i < j < threads ==> th[i] != th[j]
    ensures forall i :: 0 <= i < threads ==> fresh(th[i]) && Placed(nx, threads, initial, th[i], i)
    ensures forall i :: 0 <= i < threads ==> fresh(th[i].data) && fresh(th[i].data2)
    ensures Separate(th)
    ensures Chained(th)
    ensures forall i :: 0 <= i < threads ==> th[i].SendReady()
  {
    th := Spawn(nx, threads, initial);
    Wire(th);
    ChainReady(nx, threads, initial, th);
  }

  /** In the wired chain every neighbour a worker puts on has the queue it
      puts on: the asserts of `send_ghosts` hold. */
  lemma ChainReady(nx: nat, threads: nat, initial: seq<real>, th: seq<Worker>)
    requires 1 <= threads && |th| == threads && Chained(th)
    requires forall i :: 0 <= i < threads ==> Placed(nx, threads, initial, th[i], i)
    ensures forall i :: 0 <= i < threads ==> th[i].SendReady()
  {
    forall j | 0 <= j < threads
      ensures th[j].SendReady()
    {
      if j > 0 {
        HeatPartition.QueuePresence(nx, threads, j - 1);
      }
      if j + 1 < threads {
        HeatPartition.QueuePresence(nx, threads, j + 1);
      }
    }
  }

  /** The loop `th += [Worker(num)]`. */
  method Spawn(nx: nat, threads: nat, initial: seq<real>) returns (th: seq<Worker>)
    requires 1 <= threads <= nx && |initial| == nx
    ensures |th| == threads
    ensures forall i, j :: 0 <= i < j < threads ==> th[i] != th[j]
    ensures forall i :: 0 <= i < threads ==> fresh(th[i]) && Placed(nx, threads, initial, th[i], i)
    ensures forall i :: 0 <= i < threads ==> fresh(th[i].data) && fresh(th[i].data2)
    ensures Separate(th)
    ensures forall i :: 0 <= i < threads ==> th[i].leftThread == null && th[i].rightThread == null
  {
    th := [];
    var num := 0;
    while num < threads
      invariant num <= threads && |th| == num && Spawned(nx, threads, initial, th)
      invariant forall i :: 0 <= i < num ==> fresh(th[i]) && fresh(th[i].data) && fresh(th[i].data2)
    {
      HeatPartition.PlaceInDomain(nx, threads, num);
      var p := HeatPartition.Place(nx, threads, num);
      var w := new Worker(nx, threads, num, initial[p.lo..p.hi]);
      SpawnedAppend(nx, threads, initial, th, w);
      th := th + [w];
      num := num + 1;
    }
  }

  /** The workers `th` as the first `|th|` rounds of `main`'s first loop
      leave them: each placed as its number says, none wired, no two
      sharing a buffer. */
  ghost predicate Spawned(nx: nat, threads: nat, initial: seq<real>, th: seq<Worker>)
    requires 1 <= threads
    reads set i | 0 <= i < |th| :: th[i], set i | 0 <= i < |th| :: th[i].data
  {
    (forall i :: 0 <= i < |th| ==>
       Placed(nx, threads, initial, th[i], i) && th[i].leftThread == null && th[i].rightThread == null) &&
    Separate(th)
  }

  /** A new worker placed as number `|th|`, sharing no buffer with the
      workers before it, extends the spawned pool. */
  lemma SpawnedAppend(nx: nat, threads: nat, initial: seq<real>, th: seq<Worker>, w: Worker)
    requires 1 <= threads && Spawned(nx, threads, initial, th)
    requires Placed(nx, threads, initial, w, |th|) && w.leftThread == null && w.rightThread == null
    requires forall i :: 0 <= i < |th| ==> th[i] != w && th[i].Apart(w) && w.Apart(th[i])
    ensures Spawned(nx, threads, initial, th + [w])
  {
    var u := th + [w];
    forall i | 0 <= i < |u|
      ensures Placed(nx, threads, initial, u[i], i) && u[i].leftThread == null && u[i].rightThread == null
    {
      if i < |th| { assert u[i] == th[i]; }
    }
    forall i, j | 0 <= i < |u| && 0 <= j < |u| && i != j
      ensures u[i] != u[j] && u[i].Apart(u[j])
    {
      if i < |th| && j < |th| { assert u[i] == th[i] && u[j] == th[j]; }
    }
  }

  /** The loop linking `th[i]` and `th[i+1]` both ways.  Only the neighbour
      references change. */
  method Wire(th: seq<Worker>)
    requires forall i, j :: 0 <= i < j < |th| ==> th[i] != th[j]
    requires forall i :: 0 <= i < |th| ==> th[i].leftThread == null && th[i].rightThread == null
    modifies set j | 0 <= j < |th| :: th[j]
    ensures Chained(th)
    ensures forall j :: 0 <= j < |th| ==> th[j].data == old(th[j].data) && th[j].data2 == old(th[j].data2) && th[j].trace == old(th[j].trace)
  {
    ghost var ws := set j | 0 <= j < |th| :: th[j];
    var i := 0;
    while i + 1 < |th|
      invariant i <= |th| && (i == 0 || i < |th|)
      invariant forall j {:trigger th[j].leftThread} :: 0 <= j < |th| ==> th[j].leftThread == (if 0 < j <= i then th[j - 1] else null)
      invariant forall j {:trigger th[j].rightThread} :: 0 <= j < |th| ==> th[j].rightThread == (if j < i then th[j + 1] else null)
      modifies ws`leftThread, ws`rightThread
    {
      th[i].rightThread := th[i + 1];
      th[i + 1].leftThread := th[i];
      i := i + 1;
    }
  }

  /** The operations of worker `j`'s `run` in the chain `main` wires: it
      owns the queues `Place` gives it, and it has a left (right) neighbour
      exactly when it is not the first (last). */
  function ChainProtocol(nx: nat, threads: nat, nt: nat, j: nat): seq<Op>
    requires 1 <= threads
  {
    var p := HeatPartition.Place(nx, threads, j);
    Protocol(nt, p.hasLeft, p.hasRight, 0 < j, j + 1 < threads)
  }

  /** `ChainProtocol` is what `Worker.Run` performs on worker `j` of the pool
      `Build` returns: the queues it owns are those `Place` gives it, and it
      is wired to a left (right) neighbour exactly when it is not the first
      (last). */
  lemma BuiltProtocol(nx: nat, threads: nat, initial: seq<real>, th: seq<Worker>, nt: nat, j: nat)
    requires 1 <= threads && |th| == threads && j < threads
    requires Chained(th) && Placed(nx, threads, initial, th[j], j)
    ensures Protocol(nt, th[j].left != null, th[j].right != null, th[j].leftThread != null, th[j].rightThread != null)
            == ChainProtocol(nx, threads, nt, j)
  {
  }

  /** In the chain every worker puts on each neighbour's queue exactly as
      many values as that neighbour takes from it, `nt + 1` per run, and
      the chain ends neither put nor take anything outward. */
  lemma QueuesBalanced(nx: nat, threads: nat, nt: nat, j: nat)
    requires 1 <= threads && j + 1 < threads
    ensures Count(ChainProtocol(nx, threads, nt, j), SendOp(Right)) == nt + 1
    ensures Count(ChainProtocol(nx, threads, nt, j + 1), RecvOp(Left)) == nt + 1
    ensures Count(ChainProtocol(nx, threads, nt, j + 1), SendOp(Left)) == nt + 1
    ensures Count(ChainProtocol(nx, threads, nt, j), RecvOp(Right)) == nt + 1
  {
    var p := HeatPartition.Place(nx, threads, j);
    var q := HeatPartition.Place(nx, threads, j + 1);
    HeatPartition.QueuePresence(nx, threads, j);
    HeatPartition.QueuePresence(nx, threads, j + 1);
    ProtocolCounts(nt, p.hasLeft, p.hasRight, 0 < j, true);
    ProtocolCounts(nt, q.hasLeft, q.hasRight, true, j + 2 < threads);
  }

  /** The first worker neither puts on nor takes from a left queue, the last
      none on the right. */
  lemma ChainEnds(nx: nat, threads: nat, nt: nat)
    requires 1 <= threads
    ensures Count(ChainProtocol(nx, threads, nt, 0), SendOp(Left)) == 0
    ensures Count(ChainProtocol(nx, threads, nt, 0), RecvOp(Left)) == 0
    ensures Count(ChainProtocol(nx, threads, nt, threads - 1), SendOp(Right)) == 0
    ensures Count(ChainProtocol(nx, threads, nt, threads - 1), RecvOp(Right)) == 0
  {
    var p := HeatPartition.Place(nx, threads, 0);
    var q := HeatPartition.Place(nx, threads, threads - 1);
    HeatPartition.QueuePresence(nx, threads, 0);
    HeatPartition.QueuePresence(nx, threads, threads - 1);
    ProtocolCounts(nt, p.hasLeft, p.hasRight, false, 0 + 1 < threads);
    ProtocolCounts(nt, q.hasLeft, q.hasRight, 0 < threads - 1, false);
  }
}
