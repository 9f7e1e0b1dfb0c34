/** One worker of the threaded Python solver.  A worker owns two buffers of its partition's
    length, `data` (current) and `data2` (next), the queues its neighbours put
    ghost values on, and references to its neighbours.  The values a blocking
    `get` delivers are produced by another thread; here they are parameters. */
module HeatWorker {
  import opened HeatProtocol
  import HeatPartition

  /** Heat transfer coefficient, time step and grid spacing of heat2.py. */
  const K: real := 0.5
  const Dt: real := 1.0
  const Dx: real := 1.0

  /** The factor `k*dt/(dx*dx)` of the compute step. */
  const Rate: real := K * Dt / (Dx * Dx)

  /** The new value of interior slot `j`: the old value plus the rate times
      the sum of the slot and its two neighbours (the sum, as written, not a
      second difference). */
  function Stencil(s: seq<real>, j: int): real
    requires 0 < j < |s| - 1
  {
    s[j] + Rate * (s[j + 1] + s[j] + s[j - 1])
  }

  /** `data2[1:-1] = ...`: `next` with every interior slot recomputed from
      `cur`, its first and last slots left as they were. */
  function Relax(cur: seq<real>, next: seq<real>): seq<real>
    requires |cur| == |next|
  {
    seq(|next|, j requires 0 <= j < |next| => if 0 < j < |next| - 1 then Stencil(cur, j) else next[j])
  }

  /** `recv_ghosts` on buffer contents: slot 0 takes the left value if there
      is a left queue, then the last slot takes the right value if there is a
      right queue. */
  function WithGhosts(s: seq<real>, hasLeft: bool, fromLeft: real, hasRight: bool, fromRight: real): seq<real>
    requires |s| >= 1
  {
    var s1 := if hasLeft then s[0 := fromLeft] else s;
    if hasRight then s1[|s| - 1 := fromRight] else s1
  }

  /** The events of one `recv_ghosts`. */
  function RecvEvents(hasLeft: bool, fromLeft: real, hasRight: bool, fromRight: real): seq<Event>
  {
    (if hasLeft then [Recv(Left, fromLeft)] else []) + (if hasRight then [Recv(Right, fromRight)] else [])
  }

  /** The events of one `send_ghosts`. */
  function SendEvents(toLeft: bool, first: real, toRight: bool, last: real): seq<Event>
  {
    (if toLeft then [Send(Left, first)] else []) + (if toRight then [Send(Right, last)] else [])
  }

  /** The values in the first and last slot of two buffers. */
  function EdgesOf(a: seq<real>, b: seq<real>): set<real>
    requires |a| >= 1 && |b| >= 1
  {
    {a[0], a[|a| - 1], b[0], b[|b| - 1]}
  }

  /** Every value a trace put on a queue from position `from` on came from the
      set `init` or from a value the trace had taken from a queue before it
      (`SentFromAt` states it position by position). */
  ghost predicate SentFrom(t: seq<Event>, from: nat, init: set<real>)
  {
    if |t| <= from then true
    else SentFrom(t[..|t| - 1], from, init) &&
         (t[|t| - 1].Send? ==> t[|t| - 1].value in init + RecvValues(t[..|t| - 1]))
  }

  /** Every send at or after `from` carries a value from `init` or one taken
      before that send. */
  lemma {:induction false} SentFromAt(t: seq<Event>, from: nat, init: set<real>, i: nat)
    requires SentFrom(t, from, init)
    requires from <= i < |t| && t[i].Send?
    ensures t[i].value in init + RecvValues(t[..i])
  {
    if i < |t| - 1 {
      SentFromAt(t[..|t| - 1], from, init, i);
      assert t[..|t| - 1][..i] == t[..i];
    }
  }

  /** `recv_ghosts` rewrites the first and last slot only, each only when its
      queue exists, and keeps the length. */
  lemma WithGhostsSlots(s: seq<real>, hasLeft: bool, fromLeft: real, hasRight: bool, fromRight: real)
    requires |s| >= 1
    ensures var r := WithGhosts(s, hasLeft, fromLeft, hasRight, fromRight);
            |r| == |s| &&
            (forall j :: 0 < j < |s| - 1 ==> r[j] == s[j]) &&
            r[|s| - 1] == (if hasRight then fromRight else if hasLeft && |s| == 1 then fromLeft else s[|s| - 1]) &&
            r[0] == (if hasRight && |s| == 1 then fromRight else if hasLeft then fromLeft else s[0])
  {
  }

  /** After `recv_ghosts` the edge slots hold old edge values or received ones. */
  lemma WithGhostsEdges(s: seq<real>, hasLeft: bool, fromLeft: real, hasRight: bool, fromRight: real)
    requires |s| >= 1
    ensures var r := WithGhosts(s, hasLeft, fromLeft, hasRight, fromRight);
            var got := RecvValues(RecvEvents(hasLeft, fromLeft, hasRight, fromRight));
            r[0] in {s[0], s[|s| - 1]} + got && r[|s| - 1] in {s[0], s[|s| - 1]} + got
  {
    var ev := RecvEvents(hasLeft, fromLeft, hasRight, fromRight);
    if hasLeft {
      assert ev[0] == Recv(Left, fromLeft);
    }
    if hasRight {
      assert ev[|ev| - 1] == Recv(Right, fromRight);
    }
  }

  /** The compute step writes the interior only: both edge slots of the
      target keep their values, and every interior slot is the stencil. */
  lemma RelaxSlots(cur: seq<real>, next: seq<real>)
    requires |cur| == |next| >= 1
    ensures var r := Relax(cur, next);
            |r| == |next| && r[0] == next[0] && r[|next| - 1] == next[|next| - 1] &&
            forall j :: 0 < j < |next| - 1 ==> r[j] == cur[j] + Rate * (cur[j + 1] + cur[j] + cur[j - 1])
  {
  }

  lemma ShapeOfRecv(hasLeft: bool, fromLeft: real, hasRight: bool, fromRight: real)
    ensures Shape(RecvEvents(hasLeft, fromLeft, hasRight, fromRight)) == RecvPhase(hasLeft, hasRight)
  {
    var a := if hasLeft then [Recv(Left, fromLeft)] else [];
    var b := if hasRight then [Recv(Right, fromRight)] else [];
    ShapeAppend(a, b);
    assert Shape(a) == (if hasLeft then [RecvOp(Left)] else []) by {
      if hasLeft { assert a[1..] == []; }
    }
    assert Shape(b) == (if hasRight then [RecvOp(Right)] else []) by {
      if hasRight { assert b[1..] == []; }
    }
  }

  lemma ShapeOfSend(toLeft: bool, first: real, toRight: bool, last: real)
    ensures Shape(SendEvents(toLeft, first, toRight, last)) == SendPhase(toLeft, toRight)
  {
    var a := if toLeft then [Send(Left, first)] else [];
    var b := if toRight then [Send(Right, last)] else [];
    ShapeAppend(a, b);
    assert Shape(a) == (if toLeft then [SendOp(Left)] else []) by {
      if toLeft { assert a[1..] == []; }
    }
    assert Shape(b) == (if toRight then [SendOp(Right)] else []) by {
      if toRight { assert b[1..] == []; }
    }
  }

  /** Appending events whose sent values all lie in a set already covered by
      `init` and the earlier receives keeps every send accounted for. */
  lemma {:induction false} SentFromExtend(t: seq<Event>, from: nat, init: set<real>, es: seq<Event>, vals: set<real>)
    requires SentFrom(t, from, init)
    requires vals <= init + RecvValues(t)
    requires forall i :: 0 <= i < |es| && es[i].Send? ==> es[i].value in vals
    ensures SentFrom(t + es, from, init)
  {
    if es != [] {
      var es' := es[..|es| - 1];
      SentFromExtend(t, from, init, es', vals);
      var u := t + es;
      assert u[..|u| - 1] == t + es';
      assert u[|u| - 1] == es[|es| - 1];
      RecvValuesAppend(t, es');
    } else {
      assert t + es == t;
    }
  }

  /** Across one `update` the sent slots come from the edges before it (the
      spare buffer's first and last slot), and every edge after it is an edge
      before it or a received value. */
  lemma UpdateEdges(before: seq<real>, spare: seq<real>,
                                       hasLeft: bool, fromLeft: real, hasRight: bool, fromRight: real)
    requires |before| == |spare| >= 1
    ensures var n := |before|;
            var cur := WithGhosts(before, hasLeft, fromLeft, hasRight, fromRight);
            var next := Relax(cur, spare);
            |cur| == |next| == n &&
            next[0] in EdgesOf(before, spare) && next[n - 1] in EdgesOf(before, spare) &&
            EdgesOf(next, cur) <= EdgesOf(before, spare) + RecvValues(RecvEvents(hasLeft, fromLeft, hasRight, fromRight))
  {
    WithGhostsEdges(before, hasLeft, fromLeft, hasRight, fromRight);
  }

  /** `send_ghosts` puts only the two values it reads. */
  lemma SendEventsValues(toLeft: bool, first: real, toRight: bool, last: real)
    ensures var sv := SendEvents(toLeft, first, toRight, last);
            forall i :: 0 <= i < |sv| ==> sv[i].Send? && sv[i].value in {first, last}
  {
    var sv := SendEvents(toLeft, first, toRight, last);
    forall i | 0 <= i < |sv|
      ensures sv[i].Send? && sv[i].value in {first, last}
    {
      if toLeft && i == 0 {
        assert sv[i] == Send(Left, first);
      } else {
        assert sv[i] == Send(Right, last);
      }
    }
  }

  /** The events of one update take exactly the received values, the left
      one only with a left queue, the right one only with a right queue. */
  lemma ReceivedRound(hasLeft: bool, fromLeft: real, hasRight: bool, fromRight: real,
                                         toLeft: bool, first: real, toRight: bool, last: real)
    ensures var es := RecvEvents(hasLeft, fromLeft, hasRight, fromRight) + [Compute] + SendEvents(toLeft, first, toRight, last);
            Received(es, Left) == (if hasLeft then [fromLeft] else []) &&
            Received(es, Right) == (if hasRight then [fromRight] else [])
  {
    var rv := RecvEvents(hasLeft, fromLeft, hasRight, fromRight);
    var sv := SendEvents(toLeft, first, toRight, last);
    ReceivedAppend(rv + [Compute], sv, Left);
    ReceivedAppend(rv + [Compute], sv, Right);
    ReceivedAppend(rv, [Compute], Left);
    ReceivedAppend(rv, [Compute], Right);
    ReceivedRecv(hasLeft, fromLeft, hasRight, fromRight);
    ReceivedSend(toLeft, first, toRight, last);
  }

  /** One `recv_ghosts` takes one value from each queue that exists. */
  lemma ReceivedRecv(hasLeft: bool, fromLeft: real, hasRight: bool, fromRight: real)
    ensures Received(RecvEvents(hasLeft, fromLeft, hasRight, fromRight), Left) == (if hasLeft then [fromLeft] else [])
    ensures Received(RecvEvents(hasLeft, fromLeft, hasRight, fromRight), Right) == (if hasRight then [fromRight] else [])
  {
    var l: seq<Event> := if hasLeft then [Recv(Left, fromLeft)] else [];
    var r: seq<Event> := if hasRight then [Recv(Right, fromRight)] else [];
    ReceivedAppend(l, r, Left);
    ReceivedAppend(l, r, Right);
    assert Received([Recv(Left, fromLeft)], Left) == [fromLeft] by {
      assert [Recv(Left, fromLeft)][..0] == [];
    }
    assert Received([Recv(Right, fromRight)], Right) == [fromRight] by {
      assert [Recv(Right, fromRight)][..0] == [];
    }
  }

  /** One `send_ghosts` takes nothing. */
  lemma ReceivedSend(toLeft: bool, first: real, toRight: bool, last: real)
    ensures Received(SendEvents(toLeft, first, toRight, last), Left) == []
    ensures Received(SendEvents(toLeft, first, toRight, last), Right) == []
  {
    var l: seq<Event> := if toLeft then [Send(Left, first)] else [];
    var r: seq<Event> := if toRight then [Send(Right, last)] else [];
    ReceivedAppend(l, r, Left);
    ReceivedAppend(l, r, Right);
    assert [Send(Left, first)][..0] == [];
    assert [Send(Right, last)][..0] == [];
  }

  /** The buffers `(data, data2)` after one `update` that takes `fromLeft`
      and `fromRight`: `data` receives the ghosts, its relaxation is written
      over `data2`, and the two are exchanged. */
  function Turn(c: (seq<real>, seq<real>), hasLeft: bool, hasRight: bool, fromLeft: real, fromRight: real): (seq<real>, seq<real>)
    requires |c.0| == |c.1| >= 1
  {
    var g := WithGhosts(c.0, hasLeft, fromLeft, hasRight, fromRight);
    (Relax(g, c.1), g)
  }

  /** The buffers `(data, data2)` after `n` updates of a run, starting from
      `(cur, spare)`, when update `i` takes `fromLeft[i]` and `fromRight[i]`. */
  function Sweep(cur: seq<real>, spare: seq<real>, hasLeft: bool, hasRight: bool,
                 fromLeft: seq<real>, fromRight: seq<real>, n: nat): (r: (seq<real>, seq<real>))
    requires |cur| == |spare| >= 1 && n <= |fromLeft| && n <= |fromRight|
    ensures |r.0| == |cur| && |r.1| == |cur|
  {
    if n == 0 then (cur, spare)
    else Turn(Sweep(cur, spare, hasLeft, hasRight, fromLeft, fromRight, n - 1), hasLeft, hasRight, fromLeft[n - 1], fromRight[n - 1])
  }

  /** A lone worker (no queues) never changes its boundary values: the first
      and last slot of its current buffer are those of `cur` after an even
      number of updates and those of `spare` after an odd number, and the
      other buffer holds the other pair. */
  lemma {:induction false} SweepAloneEdges(cur: seq<real>, spare: seq<real>, fromLeft: seq<real>, fromRight: seq<real>, n: nat)
    requires |cur| == |spare| >= 1 && n <= |fromLeft| && n <= |fromRight|
    ensures var r := Sweep(cur, spare, false, false, fromLeft, fromRight, n);
            var a := if n % 2 == 0 then cur else spare;
            var b := if n % 2 == 0 then spare else cur;
            r.0[0] == a[0] && r.0[|cur| - 1] == a[|cur| - 1] &&
            r.1[0] == b[0] && r.1[|cur| - 1] == b[|cur| - 1]
  {
    if n > 0 {
      SweepAloneEdges(cur, spare, fromLeft, fromRight, n - 1);
      var c := Sweep(cur, spare, false, false, fromLeft, fromRight, n - 1);
      RelaxSlots(c.0, c.1);
    }
  }

  /** Taking `s[n]` after `s[..n]` has taken `s[..n + 1]`, on an owned
      queue; a queue the worker does not own takes nothing. */
  lemma Taken(pre: seq<real>, s: seq<real>, n: nat, owned: bool)
    requires n < |s|
    ensures pre + (if owned then s[..n] else []) + (if owned then [s[n]] else []) == pre + (if owned then s[..n + 1] else [])
    ensures n + 1 == |s| ==> pre + (if owned then s[..n + 1] else []) == pre + (if owned then s else [])
  {
    assert s[..n + 1] == s[..n] + [s[n]];
    assert n + 1 == |s| ==> s[..n + 1] == s;
  }

  /** What a run has done so far: its trace extends `t0`, the operations
      since `t0` are `done`, every edge value is an initial edge value or a
      received one, and every value sent since `t0` is accounted for. */
  ghost predicate RunSoFar(t: seq<Event>, t0: seq<Event>, e0: set<real>, edges: set<real>, done: seq<Op>)
  {
    |t0| <= |t| && t[..|t0|] == t0 && Shape(t[|t0|..]) == done &&
    edges <= e0 + RecvValues(t) && SentFrom(t, |t0|, e0)
  }

  /** The bootstrap `send_ghosts` of a run. */
  lemma RunStarts(t0: seq<Event>, e0: set<real>, round: seq<Op>, toLeft: bool, first: real, toRight: bool, last: real)
    requires first in e0 && last in e0
    ensures RunSoFar(t0 + SendEvents(toLeft, first, toRight, last), t0, e0, e0, SendPhase(toLeft, toRight) + Repeat(round, 0))
  {
    assert SendPhase(toLeft, toRight) + Repeat(round, 0) == SendPhase(toLeft, toRight);
    var sv := SendEvents(toLeft, first, toRight, last);
    var u := t0 + sv;
    assert u[..|t0|] == t0 && u[|t0|..] == sv;
    ShapeOfSend(toLeft, first, toRight, last);
    StartValues(t0, e0, toLeft, first, toRight, last);
  }

  /** The bootstrap `send_ghosts` puts only initial edge values. */
  lemma StartValues(t0: seq<Event>, e0: set<real>, toLeft: bool, first: real, toRight: bool, last: real)
    requires first in e0 && last in e0
    ensures SentFrom(t0 + SendEvents(toLeft, first, toRight, last), |t0|, e0)
  {
    assert SentFrom(t0, |t0|, e0);
    SendEventsValues(toLeft, first, toRight, last);
    SentFromExtend(t0, |t0|, e0, SendEvents(toLeft, first, toRight, last), e0);
  }

  /** The operations of one `update` appended to a trace. */
  lemma StepShape(t: seq<Event>, t0: seq<Event>, done: seq<Op>,
                                     hasLeft: bool, fromLeft: real, hasRight: bool, fromRight: real,
                                     toLeft: bool, first: real, toRight: bool, last: real)
    requires |t0| <= |t| && t[..|t0|] == t0 && Shape(t[|t0|..]) == done
    ensures var u := t + (RecvEvents(hasLeft, fromLeft, hasRight, fromRight) + [Compute] + SendEvents(toLeft, first, toRight, last));
            |t0| <= |u| && u[..|t0|] == t0 && Shape(u[|t0|..]) == done + Round(hasLeft, hasRight, toLeft, toRight)
  {
    var rv := RecvEvents(hasLeft, fromLeft, hasRight, fromRight);
    var sv := SendEvents(toLeft, first, toRight, last);
    var es := rv + [Compute] + sv;
    var u := t + es;
    ShapeOfRecv(hasLeft, fromLeft, hasRight, fromRight);
    ShapeOfSend(toLeft, first, toRight, last);
    ShapeAppend(rv, [Compute]);
    ShapeAppend(rv + [Compute], sv);
    assert Shape([Compute]) == [ComputeOp] by { assert [Compute][1..] == []; }
    assert Shape(es) == Round(hasLeft, hasRight, toLeft, toRight);
    assert u[..|t0|] == t0;
    assert u[|t0|..] == t[|t0|..] + es;
    ShapeAppend(t[|t0|..], es);
  }

  /** The values of one `update` appended to a trace: its sends come from
      the edges before it, and the edges after it are those or the values it
      received. */
  lemma StepValues(t: seq<Event>, from: nat, e0: set<real>, edges: set<real>,
                                      hasLeft: bool, fromLeft: real, hasRight: bool, fromRight: real,
                                      toLeft: bool, first: real, toRight: bool, last: real, edges': set<real>)
    requires edges <= e0 + RecvValues(t) && SentFrom(t, from, e0)
    requires first in edges && last in edges
    requires edges' <= edges + RecvValues(RecvEvents(hasLeft, fromLeft, hasRight, fromRight))
    ensures var u := t + (RecvEvents(hasLeft, fromLeft, hasRight, fromRight) + [Compute] + SendEvents(toLeft, first, toRight, last));
            edges' <= e0 + RecvValues(u) && SentFrom(u, from, e0)
  {
    var rv := RecvEvents(hasLeft, fromLeft, hasRight, fromRight);
    var sv := SendEvents(toLeft, first, toRight, last);
    var es := rv + [Compute] + sv;
    RecvValuesAppend(t, es);
    RecvValuesAppend(rv + [Compute], sv);
    RecvValuesAppend(rv, [Compute]);
    StepSends(hasLeft, fromLeft, hasRight, fromRight, toLeft, first, toRight, last);
    SentFromExtend(t, from, e0, es, edges);
  }

  /** The only values one `update` puts are the two it reads for
      `send_ghosts`: its receives and its compute put nothing. */
  lemma StepSends(hasLeft: bool, fromLeft: real, hasRight: bool, fromRight: real,
                  toLeft: bool, first: real, toRight: bool, last: real)
    ensures var es := RecvEvents(hasLeft, fromLeft, hasRight, fromRight) + [Compute] + SendEvents(toLeft, first, toRight, last);
            forall i :: 0 <= i < |es| && es[i].Send? ==> es[i].value in {first, last}
  {
    var rv := RecvEvents(hasLeft, fromLeft, hasRight, fromRight);
    var sv := SendEvents(toLeft, first, toRight, last);
    var es := rv + [Compute] + sv;
    SendEventsValues(toLeft, first, toRight, last);
    forall i | 0 <= i < |es|
      ensures es[i].Send? ==> es[i].value in {first, last}
    {
      if i < |rv| {
        assert es[i] == rv[i];
        assert !rv[i].Send?;
      } else if i == |rv| {
        assert es[i] == Compute;
      } else {
        assert es[i] == sv[i - |rv| - 1];
      }
    }
  }

  /** One `update` of a run, on buffer contents: `before` and `spare` are
      `data` and `data2` before it, and the run's bookkeeping carries over to
      the trace and buffers after it, with one more `Round` done. */
  lemma RunStep(t: seq<Event>, t0: seq<Event>, e0: set<real>, done: seq<Op>,
                                   before: seq<real>, spare: seq<real>,
                                   hasLeft: bool, fromLeft: real, hasRight: bool, fromRight: real,
                                   toLeft: bool, toRight: bool)
    requires |before| == |spare| >= 1
    requires RunSoFar(t, t0, e0, EdgesOf(before, spare), done)
    ensures var k := |before|;
            var cur := WithGhosts(before, hasLeft, fromLeft, hasRight, fromRight);
            var next := Relax(cur, spare);
            |cur| == |next| == k &&
            RunSoFar(t + (RecvEvents(hasLeft, fromLeft, hasRight, fromRight) + [Compute] + SendEvents(toLeft, next[0], toRight, next[k - 1])),
                     t0, e0, EdgesOf(next, cur), done + Round(hasLeft, hasRight, toLeft, toRight))
  {
    var k := |before|;
    var cur := WithGhosts(before, hasLeft, fromLeft, hasRight, fromRight);
    var next := Relax(cur, spare);
    UpdateEdges(before, spare, hasLeft, fromLeft, hasRight, fromRight);
    StepShape(t, t0, done, hasLeft, fromLeft, hasRight, fromRight, toLeft, next[0], toRight, next[k - 1]);
    StepValues(t, |t0|, e0, EdgesOf(before, spare), hasLeft, fromLeft, hasRight, fromRight,
               toLeft, next[0], toRight, next[k - 1], EdgesOf(next, cur));
  }

  /** The final `recv_ghosts` of a run completes `Protocol`. */
  lemma RunEnds(t: seq<Event>, t0: seq<Event>, e0: set<real>, edges: set<real>, nt: nat,
                                   hasLeft: bool, fromLeft: real, hasRight: bool, fromRight: real,
                                   toLeft: bool, toRight: bool)
    requires RunSoFar(t, t0, e0, edges, SendPhase(toLeft, toRight) + Repeat(Round(hasLeft, hasRight, toLeft, toRight), nt))
    ensures var u := t + RecvEvents(hasLeft, fromLeft, hasRight, fromRight);
            |t0| <= |u| && u[..|t0|] == t0 &&
            Shape(u[|t0|..]) == Protocol(nt, hasLeft, hasRight, toLeft, toRight) &&
            SentFrom(u, |t0|, e0)
  {
    var rv := RecvEvents(hasLeft, fromLeft, hasRight, fromRight);
    var u := t + rv;
    SentFromExtend(t, |t0|, e0, rv, {});
    ShapeOfRecv(hasLeft, fromLeft, hasRight, fromRight);
    assert u[..|t0|] == t0;
    assert u[|t0|..] == t[|t0|..] + rv;
    ShapeAppend(t[|t0|..], rv);
  }

  lemma NextParity(n: nat)
    ensures ((n + 1) % 2 == 1) == (n % 2 != 1)
  {
  }

  /** A queue between two neighbouring workers.  Only its identity matters
      here: what is put on it and taken from it is recorded in the traces of
      the two workers that share it. */
  class Channel {
    constructor ()
    {
    }
  }

  class Worker {
    const num: nat
    const lo: nat
    const hi: nat
    const sz: nat
    /** The queues this worker takes ghost values from (`None` at the chain ends). */
    const left: Channel?
    const right: Channel?
    var data: array<real>
    var data2: array<real>
    var leftThread: Worker?
    var rightThread: Worker?
    /** Every queue interaction and compute step, in order. */
    ghost var trace: seq<Event>
    /** The values taken from the left and from the right queue so far, in
        the order taken. */
    ghost var takenLeft: seq<real>
    ghost var takenRight: seq<real>

    ghost predicate Valid()
      reads this`data, this`data2
    {
      sz == hi - lo && sz >= 1 &&
      data.Length == sz && data2.Length == sz && data != data2 &&
      (left != null && right != null ==> left != right)
    }

    /** No buffer of `this` is a buffer of `other`, unless they are the same
        worker: each worker allocates its own. */
    ghost predicate Apart(other: Worker)
      reads this`data, this`data2, other`data, other`data2
    {
      this == other ||
      (data != other.data && data != other.data2 && data2 != other.data && data2 != other.data2)
    }

    /** The values held in the first and last slot of either buffer. */
    ghost function Edges(): set<real>
      reads this`data, this`data2, data, data2
      requires Valid()
    {
      EdgesOf(data[..], data2[..])
    }

    /** What the two asserts of `send_ghosts` check: a wired neighbour has
        the queue this worker puts on. */
    ghost predicate SendReady()
      reads this, leftThread, rightThread
    {
      (leftThread != null ==> leftThread.right != null) &&
      (rightThread != null ==> rightThread.left != null)
    }

    /** `Worker.__init__` for worker `num` of `threads` over `nx` nodes, with
        `values` standing for the random initial data. */
    constructor (nx: nat, threads: nat, num: nat, values: seq<real>)
      requires 1 <= threads <= nx && num < threads
      requires |values| == HeatPartition.Place(nx, threads, num).Size()
      ensures Valid()
      ensures var p := HeatPartition.Place(nx, threads, num);
              this.num == num && lo == p.lo && hi == p.hi &&
              (left != null <==> p.hasLeft) && (right != null <==> p.hasRight)
      ensures left != null ==> fresh(left)
      ensures right != null ==> fresh(right)
      ensures fresh(data) && fresh(data2)
      ensures data[..] == values && forall j :: 0 <= j < sz ==> data2[j] == 0.0
      ensures leftThread == null && rightThread == null && trace == []
      ensures takenLeft == [] && takenRight == []
    {
      HeatPartition.PlaceInDomain(nx, threads, num);
      var p := HeatPartition.Place(nx, threads, num);
      this.num := num;
      lo := p.lo;
      hi := p.hi;
      sz := p.hi - p.lo;
      var l: Channel? := null;
      var r: Channel? := null;
      if p.hasLeft {
        l := new Channel();
      }
      if p.hasRight {
        r := new Channel();
      }
      left := l;
      right := r;
      data := new real[p.hi - p.lo](j requires 0 <= j < |values| => values[j]);
      data2 := new real[p.hi - p.lo](_ => 0.0);
      leftThread := null;
      rightThread := null;
      trace := [];
      takenLeft, takenRight := [], [];
    }

    /** `recv_ghosts`: take one value from each queue that exists, the left
        one into slot 0 and then the right one into the last slot. */
    method RecvGhosts(fromLeft: real, fromRight: real)
      requires Valid()
      modifies data, this`trace, this`takenLeft, this`takenRight
      ensures data[..] == WithGhosts(old(data[..]), left != null, fromLeft, right != null, fromRight)
      ensures trace == old(trace) + RecvEvents(left != null, fromLeft, right != null, fromRight)
      ensures takenLeft == old(takenLeft) + (if left != null then [fromLeft] else [])
      ensures takenRight == old(takenRight) + (if right != null then [fromRight] else [])
    {
      if left != null {
        data[0] := fromLeft;
        trace := trace + [Recv(Left, fromLeft)];
        takenLeft := takenLeft + [fromLeft];
      }
      if right != null {
        data[sz - 1] := fromRight;
        trace := trace + [Recv(Right, fromRight)];
        takenRight := takenRight + [fromRight];
      }
    }

    /** `send_ghosts`: put slot 0 on the left neighbour's right queue and the
        last slot on the right neighbour's left queue, each only if that
        neighbour is wired.  Neither buffer changes. */
    method SendGhosts()
      requires Valid() && SendReady()
      modifies this`trace
      ensures trace == old(trace) + SendEvents(leftThread != null, data[0], rightThread != null, data[sz - 1])
    {
      if leftThread != null {
        trace := trace + [Send(Left, data[0])];
      }
      if rightThread != null {
        trace := trace + [Send(Right, data[sz - 1])];
      }
    }

    /** `update`: receive, recompute the interior of `data2` from `data`,
        exchange the two buffers, send. */
    method Update(fromLeft: real, fromRight: real)
      requires Valid() && SendReady()
      modifies this`data, this`data2, this`trace, this`takenLeft, this`takenRight, data, data2
      ensures Valid() && data == old(data2) && data2 == old(data)
      ensures data2[..] == WithGhosts(old(data[..]), left != null, fromLeft, right != null, fromRight)
      ensures data[..] == Relax(data2[..], old(data2[..]))
      ensures takenLeft == old(takenLeft) + (if left != null then [fromLeft] else [])
      ensures takenRight == old(takenRight) + (if right != null then [fromRight] else [])
      ensures trace == old(trace) + (RecvEvents(left != null, fromLeft, right != null, fromRight) + [Compute]
                                     + SendEvents(leftThread != null, data[0], rightThread != null, data[sz - 1]))
    {
      RecvGhosts(fromLeft, fromRight);
      ComputeNext();
      data, data2 := data2, data;
      trace := trace + [Compute];
      SendGhosts();
    }

    /** The slice assignment `data2[1:-1] = ...` of `update`: every interior
        slot of `data2` gets the stencil of `data`; the first and last slot of
        `data2` and all of `data` keep their values. */
    method ComputeNext()
      requires Valid()
      modifies data2
      ensures data2[..] == Relax(data[..], old(data2[..]))
    {
      ghost var spare := data2[..];
      var j := 1;
      while j + 1 < sz
        invariant 1 <= j <= sz && (j == 1 || j <= sz - 1)
        invariant forall m :: 0 <= m < sz ==> data2[m] == if 0 < m < j then Stencil(data[..], m) else spare[m]
      {
        data2[j] := data[j] + Rate * (data[j + 1] + data[j] + data[j - 1]);
        j := j + 1;
      }
    }

    /** The bookkeeping of a run after its bootstrap send and `n` updates:
        the trace since `t0` has the operations of that prefix of `Protocol`,
        and every edge and every value sent is accounted for by `e0` and the
        values received. */
    ghost predicate Running(t0: seq<Event>, e0: set<real>, n: nat)
      reads this, data, data2
      requires Valid()
    {
      RunSoFar(trace, t0, e0, Edges(),
               SendPhase(leftThread != null, rightThread != null) +
               Repeat(Round(left != null, right != null, leftThread != null, rightThread != null), n))
    }

    /** Update `n` of a run, taking `fromLeft` and `fromRight` from the
        queues: the buffers are exchanged, `data2` holds what was received
        into `data`, `data` its relaxation, and the run's bookkeeping
        advances by one round. */
    method Advance(ghost t0: seq<Event>, ghost e0: set<real>, n: nat, fromLeft: real, fromRight: real)
      requires Valid() && SendReady() && Running(t0, e0, n)
      modifies this`data, this`data2, this`trace, this`takenLeft, this`takenRight, data, data2
      ensures Valid() && data == old(data2) && data2 == old(data)
      ensures (data[..], data2[..]) == Turn((old(data[..]), old(data2[..])), left != null, right != null, fromLeft, fromRight)
      ensures takenLeft == old(takenLeft) + (if left != null then [fromLeft] else [])
      ensures takenRight == old(takenRight) + (if right != null then [fromRight] else [])
      ensures Running(t0, e0, n + 1)
    {
      ghost var t, before, spare := trace, data[..], data2[..];
      ghost var start, round := SendPhase(leftThread != null, rightThread != null),
                                Round(left != null, right != null, leftThread != null, rightThread != null);
      Update(fromLeft, fromRight);
      RepeatStep(start, round, n);
      RunStep(t, t0, e0, start + Repeat(round, n), before, spare, left != null, fromLeft, right != null, fromRight,
              leftThread != null, rightThread != null);
    }

    /** `run`: a bootstrap send, `nt` updates and a final receive.  The
        `i`-th value taken from the left queue is `fromLeft[i]`, likewise on
        the right.  The operations follow `Protocol` (so, by `ProtocolCounts`,
        `nt + 1` values go to each wired neighbour and come from each queue the
        worker owns), every value put is an initial edge value or one taken
        earlier, and the buffers end exchanged exactly when `nt` is odd. */
    method Run(nt: nat, fromLeft: seq<real>, fromRight: seq<real>)
      requires Valid() && SendReady()
      requires |fromLeft| == nt + 1 && |fromRight| == nt + 1
      modifies this`data, this`data2, this`trace, this`takenLeft, this`takenRight, data, data2
      ensures Valid()
      ensures if nt % 2 == 0 then data == old(data) && data2 == old(data2) else data == old(data2) && data2 == old(data)
      ensures |old(trace)| <= |trace| && trace[..|old(trace)|] == old(trace)
      ensures Shape(trace[|old(trace)|..]) == Protocol(nt, left != null, right != null, leftThread != null, rightThread != null)
      ensures SentFrom(trace, |old(trace)|, old(Edges()))
      ensures takenLeft == old(takenLeft) + (if left != null then fromLeft else [])
      ensures takenRight == old(takenRight) + (if right != null then fromRight else [])
      ensures var r := Sweep(old(data[..]), old(data2[..]), left != null, right != null, fromLeft, fromRight, nt);
              data[..] == WithGhosts(r.0, left != null, fromLeft[nt], right != null, fromRight[nt]) &&
              data2[..] == r.1
    {
      ghost var t0, e0 := trace, Edges();
      SendGhosts();
      RunStarts(t0, e0, Round(left != null, right != null, leftThread != null, rightThread != null),
                leftThread != null, data[0], rightThread != null, data[sz - 1]);
      Updates(t0, e0, nt, fromLeft, fromRight);
      ghost var l0, r0 := old(takenLeft), old(takenRight);
      Finish(t0, e0, nt, fromLeft[nt], fromRight[nt]);
      Taken(l0, fromLeft, nt, left != null);
      Taken(r0, fromRight, nt, right != null);
    }

    /** The loop `for n in range(nt): self.update()` of `run`, update `n`
        taking `fromLeft[n]` and `fromRight[n]`: the buffers are exchanged
        once per update and follow `Sweep`, the trace grows by one round per
        update, and each update takes the next value of each owned queue. */
    method Updates(ghost t0: seq<Event>, ghost e0: set<real>, nt: nat, fromLeft: seq<real>, fromRight: seq<real>)
      requires Valid() && SendReady() && Running(t0, e0, 0)
      requires nt <= |fromLeft| && nt <= |fromRight|
      modifies this`data, this`data2, this`trace, this`takenLeft, this`takenRight, data, data2
      ensures Valid() && Running(t0, e0, nt)
      ensures if nt % 2 == 0 then data == old(data) && data2 == old(data2) else data == old(data2) && data2 == old(data)
      ensures (data[..], data2[..]) == Sweep(old(data[..]), old(data2[..]), left != null, right != null, fromLeft, fromRight, nt)
      ensures takenLeft == old(takenLeft) + (if left != null then fromLeft[..nt] else [])
      ensures takenRight == old(takenRight) + (if right != null then fromRight[..nt] else [])
    {
      ghost var d0, d1 := data, data2;
      ghost var c0, c1 := data[..], data2[..];
      ghost var l0, r0 := takenLeft, takenRight;
      var n := 0;
      while n < nt
        invariant n <= nt && Progress(t0, e0, d0, d1, c0, c1, l0, r0, n, fromLeft, fromRight)
      {
        UpdateAt(t0, e0, d0, d1, c0, c1, l0, r0, n, fromLeft, fromRight);
        n := n + 1;
      }
    }

    /** How far `Updates` has come after `n` updates from buffers `d0`
        (holding `c0`) and `d1` (holding `c1`): the buffers have been
        exchanged `n` times and hold the `n`-th state of the sweep, and the
        first `n` elements of each input have been taken. */
    ghost predicate Progress(t0: seq<Event>, e0: set<real>, d0: array<real>, d1: array<real>,
                             c0: seq<real>, c1: seq<real>, l0: seq<real>, r0: seq<real>,
                             n: nat, fromLeft: seq<real>, fromRight: seq<real>)
      reads this, data, data2
    {
      Valid() && Running(t0, e0, n) && n <= |fromLeft| && n <= |fromRight| && |c0| == |c1| >= 1 &&
      (if n % 2 == 1 then data == d1 && data2 == d0 else data == d0 && data2 == d1) &&
      (data[..], data2[..]) == Sweep(c0, c1, left != null, right != null, fromLeft, fromRight, n) &&
      takenLeft == l0 + (if left != null then fromLeft[..n] else []) &&
      takenRight == r0 + (if right != null then fromRight[..n] else [])
    }

    /** Update `n` of `Updates`. */
    method UpdateAt(ghost t0: seq<Event>, ghost e0: set<real>, ghost d0: array<real>, ghost d1: array<real>,
                    ghost c0: seq<real>, ghost c1: seq<real>, ghost l0: seq<real>, ghost r0: seq<real>,
                    n: nat, fromLeft: seq<real>, fromRight: seq<real>)
      requires SendReady() && n < |fromLeft| && n < |fromRight|
      requires Progress(t0, e0, d0, d1, c0, c1, l0, r0, n, fromLeft, fromRight)
      modifies this`data, this`data2, this`trace, this`takenLeft, this`takenRight, data, data2
      ensures Progress(t0, e0, d0, d1, c0, c1, l0, r0, n + 1, fromLeft, fromRight)
    {
      Advance(t0, e0, n, fromLeft[n], fromRight[n]);
      NextParity(n);
      Taken(l0, fromLeft, n, left != null);
      Taken(r0, fromRight, n, right != null);
    }

    /** The closing `recv_ghosts` of a run after its `nt` updates. */
    method Finish(ghost t0: seq<Event>, ghost e0: set<real>, nt: nat, fromLeft: real, fromRight: real)
      requires Valid() && Running(t0, e0, nt)
      modifies data, this`trace, this`takenLeft, this`takenRight
      ensures |t0| <= |trace| && trace[..|t0|] == t0
      ensures Shape(trace[|t0|..]) == Protocol(nt, left != null, right != null, leftThread != null, rightThread != null)
      ensures SentFrom(trace, |t0|, e0)
      ensures data[..] == WithGhosts(old(data[..]), left != null, fromLeft, right != null, fromRight)
      ensures takenLeft == old(takenLeft) + (if left != null then [fromLeft] else [])
      ensures takenRight == old(takenRight) + (if right != null then [fromRight] else [])
    {
      ghost var t, e := trace, Edges();
      RecvGhosts(fromLeft, fromRight);
      RunEnds(t, t0, e0, e, nt, left != null, fromLeft, right != null, fromRight,
              leftThread != null, rightThread != null);
    }
  }
}
