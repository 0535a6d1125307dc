/** The descriptor ring as arithmetic: slot rounding, head and tail, and the queue they stand for. */
module DmaRing {
  import opened Wrappers
  import opened Words

  // ---- the number of slots, as the parser rounds it ----

  function BitLength(n: nat): nat {
    if n == 0 then 0 else 1 + BitLength(n / 2)
  }

  /** `dma_ring_init`: at least two; `1 << n.bit_length()` unless n & (n - 1) is zero. */
  function RoundSlots(n: int): int {
    var m := if n < 2 then 2 else n;
    if Bitwise(BitAnd, m, m - 1) != 0 then Pow2(BitLength(m)) else m
  }

  lemma {:induction false} BitLengthBound(n: nat)
    ensures n < Pow2(BitLength(n)) && (n > 0 ==> Pow2(BitLength(n)) <= 2 * n)
  {
    if n > 0 {
      BitLengthBound(n / 2);
    }
  }

  /** n & (n - 1) is zero exactly for powers of two; `k` names the power. */
  lemma {:induction false} AndPredecessor(n: nat) returns (k: nat)
    requires n > 0
    ensures Bitwise(BitAnd, n, n - 1) == 0 ==> n == Pow2(k)
    ensures Bitwise(BitAnd, n, n - 1) != 0 ==> forall j: nat :: n != Pow2(j)
  {
    var m := n / 2;
    k := 0;
    if n % 2 == 1 {
      assert (n - 1) / 2 == m && (n - 1) % 2 == 0;
      AndSelf(m);
      if n > 1 {
        OddNotPower(n);
      }
    } else {
      assert (n - 1) / 2 == m - 1 && (n - 1) % 2 == 1;
      var i := AndPredecessor(m);
      k := i + 1;
      if Bitwise(BitAnd, n, n - 1) != 0 {
        forall j: nat
          ensures n != Pow2(j)
        {
          if j > 0 { assert Pow2(j) == 2 * Pow2(j - 1) && m != Pow2(j - 1); }
        }
      }
    }
  }

  lemma OddNotPower(n: nat)
    requires n % 2 == 1 && n > 1
    ensures forall j: nat :: n != Pow2(j)
  {
    forall j: nat
      ensures n != Pow2(j)
    {
      if j > 0 { assert Pow2(j) == 2 * Pow2(j - 1); }
    }
  }

  /** The ring always has a power of two slots, at least two and at least as many as requested, and fewer
      than twice as many when two or more are requested. */
  lemma SlotsArePowerOfTwo(n: int) returns (k: nat)
    ensures RoundSlots(n) == Pow2(k) && k >= 1 && RoundSlots(n) >= n
    ensures n >= 2 ==> RoundSlots(n) < 2 * n
    ensures n >= 2 && (exists j: nat :: n == Pow2(j)) ==> RoundSlots(n) == n
  {
    var m: nat := if n < 2 then 2 else n;
    k := AndPredecessor(m);
    BitLengthBound(m);
    if Bitwise(BitAnd, m, m - 1) != 0 {
      k := BitLength(m);
      assert Pow2(k) == 2 * Pow2(k - 1) && m != Pow2(k - 1);
    }
    assert Pow2(0) == 1;
  }

  // ---- head and tail ----

  /** Next position: `(p + 1) & mask` with mask = n - 1. */
  function Masked(p: nat, n: nat): nat
    requires n > 0
  {
    Bitwise(BitAnd, p + 1, n - 1)
  }

  lemma MaskedIsModulo(p: nat, n: nat, k: nat)
    requires n == Pow2(k)
    ensures Masked(p, n) == (p + 1) % n
  {
    AndMask(p + 1, k);
  }

  type Cell = (Word, Word)

  datatype Ring = Ring(head: nat, tail: nat, cells: seq<Cell>)

  predicate RingOk(r: Ring) {
    |r.cells| >= 2 && r.head < |r.cells| && r.tail < |r.cells|
  }

  function Following(p: nat, n: nat): (q: nat)
    requires p < n
    ensures q < n && q == (p + 1) % n
  {
    if p + 1 == n then
      DivModUnique(n, n, 1, 0);
      0
    else
      SmallMod(p + 1, n);
      p + 1
  }

  /** `dma_ring_push`: the status, and the ring after it. */
  function PushTo(r: Ring, c: Cell): (int, Ring)
    requires RingOk(r)
  {
    var next := Following(r.head, |r.cells|);
    if next == r.tail then (1, r) else (0, r.(cells := r.cells[r.head := c], head := next))
  }

  /** `dma_ring_pop`: the status, the pair taken, and the ring after it. */
  function PopFrom(r: Ring): (int, Option<Cell>, Ring)
    requires RingOk(r)
  {
    if r.head == r.tail then (1, None, r)
    else (0, Some(r.cells[r.tail]), r.(tail := Following(r.tail, |r.cells|)))
  }

  // ---- the queue ----

  function Used(r: Ring): nat
    requires RingOk(r)
  {
    if r.head >= r.tail then r.head - r.tail else r.head + |r.cells| - r.tail
  }

  function Position(r: Ring, i: nat): (p: nat)
    requires RingOk(r) && i < |r.cells|
    ensures p < |r.cells|
  {
    if r.tail + i < |r.cells| then r.tail + i else r.tail + i - |r.cells|
  }

  /** Pairs from the oldest to the newest. */
  function Queue(r: Ring): (q: seq<Cell>)
    requires RingOk(r)
    ensures |q| == Used(r)
  {
    seq(Used(r), i requires 0 <= i < Used(r) => r.cells[Position(r, i)])
  }

  /** A push reports full exactly when slots - 1 pairs are queued, and otherwise appends its pair. */
  lemma PushIsEnqueue(r: Ring, c: Cell)
    requires RingOk(r)
    ensures var (status, r') := PushTo(r, c);
            && RingOk(r') && |r'.cells| == |r.cells|
            && (status == 1 <==> |Queue(r)| == |r.cells| - 1) && (status == 0 || status == 1)
            && Queue(r') == if status == 1 then Queue(r) else Queue(r) + [c]
  {
    var (status, r') := PushTo(r, c);
    if status == 0 {
      assert Used(r') == Used(r) + 1;
      assert Position(r', Used(r)) == r.head;
      forall i | 0 <= i < Used(r)
        ensures Queue(r')[i] == Queue(r)[i]
      {
        assert Position(r', i) == Position(r, i) != r.head;
      }
    }
  }

  /** A pop reports empty exactly when nothing is queued, and otherwise removes the oldest pair. */
  lemma PopIsDequeue(r: Ring)
    requires RingOk(r)
    ensures var (status, c, r') := PopFrom(r);
            && RingOk(r') && |r'.cells| == |r.cells|
            && (status == 1 <==> Queue(r) == []) && (status == 0 || status == 1)
            && (if status == 1 then c == None && Queue(r') == Queue(r)
                else c.Some? && Queue(r) == [c.value] + Queue(r'))
  {
    var (status, c, r') := PopFrom(r);
    if status == 0 {
      assert Used(r) == Used(r') + 1;
      assert Position(r, 0) == r.tail;
      forall i | 0 <= i < Used(r')
        ensures Queue(r)[i + 1] == Queue(r')[i]
      {
        assert Position(r', i) == Position(r, i + 1);
      }
      assert Queue(r) == [c.value] + Queue(r');
    }
  }

  // ---- runs ----

  datatype Op = Enqueue(cell: Cell) | Dequeue

  /** What an operation reports: its status, and the pair of a successful pop. */
  datatype Report = Report(status: int, cell: Option<Cell>)

  function DoRing(r: Ring, op: Op): (Report, Ring)
    requires RingOk(r)
  {
    match op
    case Enqueue(c) => var (status, r') := PushTo(r, c); (Report(status, None), r')
    case Dequeue => var (status, c, r') := PopFrom(r); (Report(status, c), r')
  }

  /** The bounded FIFO of a given capacity. */
  function DoFifo(q: seq<Cell>, capacity: nat, op: Op): (Report, seq<Cell>) {
    match op
    case Enqueue(c) => if |q| == capacity then (Report(1, None), q) else (Report(0, None), q + [c])
    case Dequeue => if q == [] then (Report(1, None), q) else (Report(0, Some(q[0])), q[1..])
  }

  lemma StepRefines(r: Ring, op: Op)
    requires RingOk(r)
    ensures var (a, r') := DoRing(r, op);
            var (b, q') := DoFifo(Queue(r), |r.cells| - 1, op);
            RingOk(r') && |r'.cells| == |r.cells| && a == b && Queue(r') == q'
  {
    hide Queue;
    match op
    case Enqueue(c) => PushIsEnqueue(r, c);
    case Dequeue => PopIsDequeue(r);
  }

  function RunRing(r: Ring, ops: seq<Op>): (p: (seq<Report>, Ring))
    requires RingOk(r)
    ensures RingOk(p.1)
    decreases |ops|
  {
    if ops == [] then ([], r)
    else
      var (a, r1) := DoRing(r, ops[0]);
      StepRefines(r, ops[0]);
      var (rest, r2) := RunRing(r1, ops[1..]);
      ([a] + rest, r2)
  }

  function RunFifo(q: seq<Cell>, capacity: nat, ops: seq<Op>): (seq<Report>, seq<Cell>)
    decreases |ops|
  {
    if ops == [] then ([], q)
    else
      var (a, q1) := DoFifo(q, capacity, ops[0]);
      var (rest, q2) := RunFifo(q1, capacity, ops[1..]);
      ([a] + rest, q2)
  }

  /** Every run of pushes and pops reports what the FIFO of capacity slots - 1 reports. */
  lemma {:induction false} RunRefinesFifo(r: Ring, ops: seq<Op>)
    requires RingOk(r)
    ensures RunRing(r, ops).0 == RunFifo(Queue(r), |r.cells| - 1, ops).0
    ensures Queue(RunRing(r, ops).1) == RunFifo(Queue(r), |r.cells| - 1, ops).1
    decreases |ops|
  {
    hide DoRing, DoFifo, Queue;
    if ops != [] {
      StepRefines(r, ops[0]);
      RunRefinesFifo(DoRing(r, ops[0]).1, ops[1..]);
    }
  }

  /** After init the queue is empty. */
  lemma FreshRing(cells: seq<Cell>)
    requires |cells| >= 2
    ensures RingOk(Ring(0, 0, cells)) && Queue(Ring(0, 0, cells)) == []
  {
  }
}
