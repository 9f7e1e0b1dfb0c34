/** The order in which one worker of the threaded Python solver talks to its
    queues: a bootstrap send, `nt` rounds of receive, compute (with the buffer
    swap) and send, and a final receive.  Events carry the values moved;
    operations forget them, so that the shape of a run can be stated on its own. */
module HeatProtocol {

  datatype Side = Left | Right

  /** One interaction of a worker with the outside: a value taken from one of
      its own queues, one compute-and-swap, or a value put on a neighbour's queue. */
  datatype Event = Recv(side: Side, value: real) | Compute | Send(side: Side, value: real)

  /** An event without its value. */
  datatype Op = RecvOp(side: Side) | ComputeOp | SendOp(side: Side)

  function OpOf(e: Event): Op
  {
    match e
    case Recv(s, _) => RecvOp(s)
    case Compute => ComputeOp
    case Send(s, _) => SendOp(s)
  }

  /** The operations of a trace, in order. */
  function Shape(t: seq<Event>): seq<Op>
  {
    if t == [] then [] else [OpOf(t[0])] + Shape(t[1..])
  }

  /** `recv_ghosts`: the left queue first, then the right one, each only if it exists. */
  function RecvPhase(hasLeft: bool, hasRight: bool): seq<Op>
  {
    (if hasLeft then [RecvOp(Left)] else []) + (if hasRight then [RecvOp(Right)] else [])
  }

  /** `send_ghosts`: to the left neighbour first, then to the right one, each
      only if that neighbour is wired. */
  function SendPhase(toLeft: bool, toRight: bool): seq<Op>
  {
    (if toLeft then [SendOp(Left)] else []) + (if toRight then [SendOp(Right)] else [])
  }

  /** One `update`: receive, compute and swap, send. */
  function Round(hasLeft: bool, hasRight: bool, toLeft: bool, toRight: bool): seq<Op>
  {
    RecvPhase(hasLeft, hasRight) + [ComputeOp] + SendPhase(toLeft, toRight)
  }

  /** `n` copies of `block`, one after another. */
  function Repeat(block: seq<Op>, n: nat): seq<Op>
  {
    if n == 0 then [] else Repeat(block, n - 1) + block
  }

  /** `run`: bootstrap send, `nt` updates, final receive. */
  function Protocol(nt: nat, hasLeft: bool, hasRight: bool, toLeft: bool, toRight: bool): seq<Op>
  {
    SendPhase(toLeft, toRight) + Repeat(Round(hasLeft, hasRight, toLeft, toRight), nt) + RecvPhase(hasLeft, hasRight)
  }

  /** How often `o` occurs in `s`. */
  function Count(s: seq<Op>, o: Op): nat
  {
    if s == [] then 0 else (if s[0] == o then 1 else 0) + Count(s[1..], o)
  }

  /** Every value a trace has taken from a queue. */
  function RecvValues(t: seq<Event>): set<real>
  {
    if t == [] then {}
    else RecvValues(t[..|t| - 1]) + (if t[|t| - 1].Recv? then {t[|t| - 1].value} else {})
  }

  lemma {:induction false} ShapeAppend(a: seq<Event>, b: seq<Event>)
    ensures Shape(a + b) == Shape(a) + Shape(b)
  {
    if a != [] {
      assert (a + b)[1..] == a[1..] + b;
      ShapeAppend(a[1..], b);
    } else {
      assert a + b == b;
    }
  }

  lemma {:induction false} CountAppend(a: seq<Op>, b: seq<Op>, o: Op)
    ensures Count(a + b, o) == Count(a, o) + Count(b, o)
  {
    if a != [] {
      assert (a + b)[1..] == a[1..] + b;
      CountAppend(a[1..], b, o);
    } else {
      assert a + b == b;
    }
  }

  lemma CountSingle(a: Op, o: Op)
    ensures Count([a], o) == if a == o then 1 else 0
  {
    assert [a][1..] == [];
  }

  /** A receive or send phase holds each present side once. */
  lemma PhaseCount(x: bool, ox: Op, y: bool, oy: Op, o: Op)
    ensures Count((if x then [ox] else []) + (if y then [oy] else []), o)
            == (if x && o == ox then 1 else 0) + (if y && o == oy then 1 else 0)
  {
    CountAppend(if x then [ox] else [], if y then [oy] else [], o);
    CountSingle(ox, o);
    CountSingle(oy, o);
  }

  lemma RoundCount(hasLeft: bool, hasRight: bool, toLeft: bool, toRight: bool, o: Op)
    ensures Count(Round(hasLeft, hasRight, toLeft, toRight), o)
            == Count(RecvPhase(hasLeft, hasRight), o) + Count([ComputeOp], o) + Count(SendPhase(toLeft, toRight), o)
  {
    var r, s := RecvPhase(hasLeft, hasRight), SendPhase(toLeft, toRight);
    CountAppend(r, [ComputeOp], o);
    CountAppend(r + [ComputeOp], s, o);
  }

  lemma {:induction false} RepeatCount(block: seq<Op>, n: nat, o: Op)
    ensures Count(Repeat(block, n), o) == n * Count(block, o)
  {
    if n > 0 {
      RepeatCount(block, n - 1, o);
      CountAppend(Repeat(block, n - 1), block, o);
    }
  }

  /** How often one operation occurs in a run: once in the bootstrap or final
      phase and once per update for every operation a round performs once. */
  lemma ProtocolCount(nt: nat, hasLeft: bool, hasRight: bool, toLeft: bool, toRight: bool, o: Op, inRound: bool)
    requires Count(SendPhase(toLeft, toRight), o) + Count(RecvPhase(hasLeft, hasRight), o) == (if inRound && o != ComputeOp then 1 else 0)
    requires Count(Round(hasLeft, hasRight, toLeft, toRight), o) == (if inRound then 1 else 0)
    ensures Count(Protocol(nt, hasLeft, hasRight, toLeft, toRight), o)
            == if !inRound then 0 else if o == ComputeOp then nt else nt + 1
  {
    var s, r := SendPhase(toLeft, toRight), RecvPhase(hasLeft, hasRight);
    var round := Round(hasLeft, hasRight, toLeft, toRight);
    var rs := Repeat(round, nt);
    CountAppend(s, rs, o);
    CountAppend(s + rs, r, o);
    RepeatCount(round, nt, o);
  }

  /** A run sends exactly `nt + 1` values to each wired neighbour, takes
      exactly `nt + 1` values from each queue it owns, and computes `nt` times;
      nothing goes to or comes from a side that is absent. */
  lemma ProtocolCounts(nt: nat, hasLeft: bool, hasRight: bool, toLeft: bool, toRight: bool)
    ensures Count(Protocol(nt, hasLeft, hasRight, toLeft, toRight), SendOp(Left)) == (if toLeft then nt + 1 else 0)
    ensures Count(Protocol(nt, hasLeft, hasRight, toLeft, toRight), SendOp(Right)) == (if toRight then nt + 1 else 0)
    ensures Count(Protocol(nt, hasLeft, hasRight, toLeft, toRight), RecvOp(Left)) == (if hasLeft then nt + 1 else 0)
    ensures Count(Protocol(nt, hasLeft, hasRight, toLeft, toRight), RecvOp(Right)) == (if hasRight then nt + 1 else 0)
    ensures Count(Protocol(nt, hasLeft, hasRight, toLeft, toRight), ComputeOp) == nt
  {
    PhaseCounts(hasLeft, hasRight, toLeft, toRight, SendOp(Left));
    ProtocolCount(nt, hasLeft, hasRight, toLeft, toRight, SendOp(Left), toLeft);
    PhaseCounts(hasLeft, hasRight, toLeft, toRight, SendOp(Right));
    ProtocolCount(nt, hasLeft, hasRight, toLeft, toRight, SendOp(Right), toRight);
    PhaseCounts(hasLeft, hasRight, toLeft, toRight, RecvOp(Left));
    ProtocolCount(nt, hasLeft, hasRight, toLeft, toRight, RecvOp(Left), hasLeft);
    PhaseCounts(hasLeft, hasRight, toLeft, toRight, RecvOp(Right));
    ProtocolCount(nt, hasLeft, hasRight, toLeft, toRight, RecvOp(Right), hasRight);
    PhaseCounts(hasLeft, hasRight, toLeft, toRight, ComputeOp);
    ProtocolCount(nt, hasLeft, hasRight, toLeft, toRight, ComputeOp, true);
  }

  lemma PhaseCounts(hasLeft: bool, hasRight: bool, toLeft: bool, toRight: bool, o: Op)
    ensures Count(SendPhase(toLeft, toRight), o) == (if toLeft && o == SendOp(Left) then 1 else 0) + (if toRight && o == SendOp(Right) then 1 else 0)
    ensures Count(RecvPhase(hasLeft, hasRight), o) == (if hasLeft && o == RecvOp(Left) then 1 else 0) + (if hasRight && o == RecvOp(Right) then 1 else 0)
    ensures Count(Round(hasLeft, hasRight, toLeft, toRight), o)
            == Count(RecvPhase(hasLeft, hasRight), o) + (if o == ComputeOp then 1 else 0) + Count(SendPhase(toLeft, toRight), o)
  {
    PhaseCount(toLeft, SendOp(Left), toRight, SendOp(Right), o);
    PhaseCount(hasLeft, RecvOp(Left), hasRight, RecvOp(Right), o);
    CountSingle(ComputeOp, o);
    RoundCount(hasLeft, hasRight, toLeft, toRight, o);
  }

  /** One more block after `n` repetitions makes `n + 1`. */
  lemma RepeatStep(pre: seq<Op>, block: seq<Op>, n: nat)
    ensures pre + Repeat(block, n) + block == pre + Repeat(block, n + 1)
  {
  }

  lemma {:induction false} RepeatLength(block: seq<Op>, n: nat)
    ensures |Repeat(block, n)| == n * |block|
  {
    if n > 0 {
      RepeatLength(block, n - 1);
    }
  }

  /** Block `i` of `Repeat(block, n)` is `block`. */
  lemma {:induction false} BlockAt(block: seq<Op>, n: nat, i: nat)
    requires i < n
    ensures (i + 1) * |block| <= |Repeat(block, n)|
    ensures Repeat(block, n)[i * |block| .. (i + 1) * |block|] == block
  {
    var k := |block|;
    var prev := Repeat(block, n - 1);
    RepeatLength(block, n - 1);
    assert (i + 1) * k == i * k + k;
    assert n * k == (n - 1) * k + k;
    if i < n - 1 {
      BlockAt(block, n - 1, i);
      assert (prev + block)[i * k .. (i + 1) * k] == prev[i * k .. (i + 1) * k];
    } else {
      assert i * k == |prev|;
      assert (prev + block)[|prev| .. |prev| + k] == block;
    }
  }

  /** Block `i` of a repetition keeps its place when the repetition is framed. */
  lemma FramedBlockAt(pre: seq<Op>, block: seq<Op>, n: nat, post: seq<Op>, i: nat)
    requires i < n
    ensures |pre| + (i + 1) * |block| <= |pre + Repeat(block, n) + post|
    ensures (pre + Repeat(block, n) + post)[|pre| + i * |block| .. |pre| + (i + 1) * |block|] == block
  {
    var rs := Repeat(block, n);
    BlockAt(block, n, i);
    var lo, hi := i * |block|, (i + 1) * |block|;
    assert (pre + rs + post)[|pre| + lo .. |pre| + hi] == rs[lo .. hi];
  }

  /** The `i`-th update of a run occupies its own block of the trace, right
      after the bootstrap send and the `i` updates before it, and within that
      block the receives precede the compute, which precedes the sends. */
  lemma RoundAt(nt: nat, hasLeft: bool, hasRight: bool, toLeft: bool, toRight: bool, i: nat)
    requires i < nt
    ensures var k := |Round(hasLeft, hasRight, toLeft, toRight)|;
            var start := |SendPhase(toLeft, toRight)|;
            var p := Protocol(nt, hasLeft, hasRight, toLeft, toRight);
            start + (i + 1) * k <= |p| &&
            p[start + i * k .. start + (i + 1) * k] == RecvPhase(hasLeft, hasRight) + [ComputeOp] + SendPhase(toLeft, toRight)
  {
    FramedBlockAt(SendPhase(toLeft, toRight), Round(hasLeft, hasRight, toLeft, toRight), nt, RecvPhase(hasLeft, hasRight), i);
  }

  lemma {:induction false} RecvValuesAppend(a: seq<Event>, b: seq<Event>)
    ensures RecvValues(a + b) == RecvValues(a) + RecvValues(b)
  {
    if b == [] {
      assert a + b == a;
    } else {
      var b' := b[..|b| - 1];
      RecvValuesAppend(a, b');
      assert (a + b)[..|a + b| - 1] == a + b';
      assert (a + b)[|a + b| - 1] == b[|b| - 1];
    }
  }

  /** The values taken from the queue on side `side`, in the order taken. */
  function Received(t: seq<Event>, side: Side): seq<real>
  {
    if t == [] then []
    else Received(t[..|t| - 1], side) + (if t[|t| - 1].Recv? && t[|t| - 1].side == side then [t[|t| - 1].value] else [])
  }

  lemma {:induction false} ReceivedAppend(a: seq<Event>, b: seq<Event>, side: Side)
    ensures Received(a + b, side) == Received(a, side) + Received(b, side)
  {
    if b == [] {
      assert a + b == a;
    } else {
      var b' := b[..|b| - 1];
      ReceivedAppend(a, b', side);
      assert (a + b)[..|a + b| - 1] == a + b';
      assert (a + b)[|a + b| - 1] == b[|b| - 1];
    }
  }

}
