/** The open-loop load generator (pavis-benchkit, bin/bench-loadgen.rs): the drift-free schedule, and the
    counters that the scheduler and its workers share. */
module Schedule {
  import opened Common

  const NANOS := 1_000_000_000
  const U64_MAX := 0xFFFF_FFFF_FFFF_FFFF

  /* ---- the schedule ---- */

  /** The deadline of request `i`, in nanoseconds from the start. */
  function Deadline(i: nat, rate: nat): nat
    requires rate > 0
  {
    i * NANOS / rate
  }

  lemma FloorBelow(x: nat, r: nat, m: nat)
    requires r > 0
    ensures x / r < m <==> x < m * r
  {
    var q := x / r;
    assert q * r <= x < q * r + r;
    if q < m { ProductMonotone(q + 1, m, r); } else { ProductMonotone(m, q, r); }
  }

  lemma ProductMonotone(a: nat, b: nat, r: nat)
    requires a <= b
    ensures a * r <= b * r
  {
  }

  /** A request falls inside the run exactly when its index is below rate times seconds. */
  lemma InsideTheRun(i: nat, rate: nat, seconds: nat)
    requires rate > 0
    ensures Deadline(i, rate) < seconds * 1_000_000_000 <==> i < rate * seconds
  {
    FloorBelow(i * NANOS, rate, seconds * NANOS);
    assert seconds * NANOS * rate == rate * seconds * NANOS;
  }

  /** Truncation never accumulates: each deadline is less than a nanosecond early, and deadlines never
      go back. */
  lemma NoDrift(i: nat, rate: nat)
    requires rate > 0
    ensures (Deadline(i, rate) as real) <= (i * 1_000_000_000) as real / rate as real < (Deadline(i, rate) + 1) as real
    ensures Deadline(i, rate) <= Deadline(i + 1, rate)
  {
    var x, q := i * NANOS, Deadline(i, rate);
    assert q * rate <= x < q * rate + rate;
    RealFloor(x, rate, q);
    var x', q' := (i + 1) * NANOS, Deadline(i + 1, rate);
    assert x <= x';
    FloorBelow(x', rate, q);
  }

  lemma RealFloor(x: nat, r: nat, q: nat)
    requires r > 0 && q * r <= x < (q + 1) * r
    ensures (q as real) <= x as real / r as real < (q + 1) as real
  {
    RealQuotient(x as real, r as real, q as real);
    assert (q * r) as real == (q as real) * (r as real);
    assert ((q + 1) * r) as real == (q as real + 1.0) * (r as real);
  }

  lemma RealQuotient(x: real, r: real, q: real)
    requires r > 0.0
    ensures q * r <= x ==> q <= x / r
    ensures x < (q + 1.0) * r ==> x / r < q + 1.0
  {
    var y := x / r;
    assert y * r == x;
    if y < q { ScaleUp(y, q, r); }
    if q + 1.0 <= y { ScaleUp'(q + 1.0, y, r); }
  }

  lemma ScaleUp(a: real, b: real, r: real)
    requires a < b && r > 0.0
    ensures a * r < b * r
  {
  }

  lemma ScaleUp'(a: real, b: real, r: real)
    requires a <= b && r > 0.0
    ensures a * r <= b * r
  {
  }

  /** The scheduler's loop over a run of whole seconds; `None` is an overflow of the 64-bit product. It
      happens exactly when rate * seconds * 10^9 does not fit; otherwise exactly rate * seconds
      requests are issued, request `i` at deadline `i`. */
  method Issue(rate: nat, seconds: nat) returns (slots: Option<seq<nat>>)
    requires rate > 0
    ensures slots.None? <==> rate * seconds * 1_000_000_000 > 18_446_744_073_709_551_615
    ensures slots.Some? ==> |slots.value| == rate * seconds
                            && forall i :: 0 <= i < rate * seconds ==> slots.value[i] == i * 1_000_000_000 / rate
  {
    var issued: seq<nat> := [];
    var index := 0;
    while true
      invariant |issued| == index <= rate * seconds
      invariant index == 0 || (index - 1) * NANOS <= U64_MAX
      invariant forall i :: 0 <= i < index ==> issued[i] == Deadline(i, rate)
      decreases rate * seconds - index
    {
      if index * NANOS > U64_MAX {
        ProductMonotone(index, rate * seconds, NANOS);
        return None;
      }
      var deadline := index * NANOS / rate;
      InsideTheRun(index, rate, seconds);
      if deadline >= seconds * NANOS { return Some(issued); }
      issued := issued + [deadline];
      index := index + 1;
    }
  }

  /* ---- the counters ---- */

  /** A worker task: spawned with its permit, counted as sent, counted as a success whose latency is
      still to be stored, finished, and gone with its permit returned. */
  datatype Worker = Spawned | Sending | Succeeded | Finished | Gone

  /** `pending`: a slot has been counted as scheduled and not yet been spawned or dropped. */
  datatype State = State(
    permits: nat, pending: bool, scheduled: nat, dropped: nat, sent: nat, ok: nat, errors: nat, samples: nat,
    workers: seq<Worker>)

  datatype Label =
    | Slot | Acquire
    | Send(id: nat) | Succeed(id: nat) | Sample(id: nat) | FailWith(id: nat) | Release(id: nat)

  function Initial(connections: nat): State { State(connections, false, 0, 0, 0, 0, 0, 0, []) }

  function StepWorker(s: State, l: Label, w: Worker): State
    requires !l.Slot? && !l.Acquire? && l.id < |s.workers|
  {
    match (l, w)
    case (Send(i), Spawned) => s.(sent := s.sent + 1, workers := s.workers[i := Sending])
    case (Succeed(i), Sending) => s.(ok := s.ok + 1, workers := s.workers[i := Succeeded])
    case (Sample(i), Succeeded) => s.(samples := s.samples + 1, workers := s.workers[i := Finished])
    case (FailWith(i), Sending) => s.(errors := s.errors + 1, workers := s.workers[i := Finished])
    case (Release(i), Finished) => s.(permits := s.permits + 1, workers := s.workers[i := Gone])
    case (_, _) => s
  }

  function Step(s: State, l: Label): State {
    match l
    case Slot => if s.pending then s else s.(pending := true, scheduled := s.scheduled + 1)
    case Acquire =>
      if !s.pending then s
      else if s.permits > 0 then s.(pending := false, permits := s.permits - 1, workers := s.workers + [Spawned])
      else s.(pending := false, dropped := s.dropped + 1)
    case _ => if l.id < |s.workers| then StepWorker(s, l, s.workers[l.id]) else s
  }

  function Run(s: State, labels: seq<Label>): State {
    if labels == [] then s else Step(Run(s, labels[..|labels| - 1]), labels[|labels| - 1])
  }

  function Count(workers: seq<Worker>, w: Worker): nat {
    if workers == [] then 0
    else Count(workers[..|workers| - 1], w) + if workers[|workers| - 1] == w then 1 else 0
  }

  lemma {:induction false} CountUpdate(workers: seq<Worker>, i: nat, v: Worker, w: Worker)
    requires i < |workers|
    ensures Count(workers[i := v], w) ==
            Count(workers, w) - (if workers[i] == w then 1 else 0) + (if v == w then 1 else 0)
  {
    var n := |workers| - 1;
    if i == n {
      assert workers[i := v][..n] == workers[..n];
    } else {
      CountUpdate(workers[..n], i, v, w);
      assert workers[i := v][..n] == workers[..n][i := v];
    }
  }

  lemma {:induction false} CountsCover(workers: seq<Worker>)
    ensures Count(workers, Spawned) + Count(workers, Sending) + Count(workers, Succeeded) + Count(workers, Finished)
            + Count(workers, Gone) == |workers|
  {
    if workers != [] { CountsCover(workers[..|workers| - 1]); }
  }

  /** Requests holding a permit. */
  function InFlight(s: State): nat {
    Count(s.workers, Spawned) + Count(s.workers, Sending) + Count(s.workers, Succeeded) + Count(s.workers, Finished)
  }

  ghost predicate Inv(connections: nat, s: State) {
    && s.scheduled == s.dropped + |s.workers| + (if s.pending then 1 else 0)
    && s.permits + InFlight(s) == connections
    && s.sent == |s.workers| - Count(s.workers, Spawned)
    && s.ok + s.errors == s.sent - Count(s.workers, Sending)
    && s.ok == s.samples + Count(s.workers, Succeeded)
  }

  lemma CountAppend(workers: seq<Worker>, v: Worker, w: Worker)
    ensures Count(workers + [v], w) == Count(workers, w) + if v == w then 1 else 0
  {
    assert (workers + [v])[..|workers|] == workers;
  }

  lemma AcquireKeepsInv(connections: nat, s: State)
    requires Inv(connections, s)
    ensures Inv(connections, Step(s, Acquire))
  {
    CountAppend(s.workers, Spawned, Spawned);
    CountAppend(s.workers, Spawned, Sending);
    CountAppend(s.workers, Spawned, Succeeded);
    CountAppend(s.workers, Spawned, Finished);
  }

  /** A worker moves on from `from` to `to`, and the counters with it. */
  lemma MoveKeepsInv(connections: nat, s: State, i: nat, to: Worker, t: State)
    requires Inv(connections, s) && i < |s.workers| && t.workers == s.workers[i := to]
    requires t.scheduled == s.scheduled && t.dropped == s.dropped && t.pending == s.pending
    requires var from := s.workers[i];
             || (from == Spawned && to == Sending && t == s.(sent := s.sent + 1, workers := t.workers))
             || (from == Sending && to == Succeeded && t == s.(ok := s.ok + 1, workers := t.workers))
             || (from == Succeeded && to == Finished && t == s.(samples := s.samples + 1, workers := t.workers))
             || (from == Sending && to == Finished && t == s.(errors := s.errors + 1, workers := t.workers))
             || (from == Finished && to == Gone && t == s.(permits := s.permits + 1, workers := t.workers))
    ensures Inv(connections, t)
  {
    CountUpdate(s.workers, i, to, Spawned);
    CountUpdate(s.workers, i, to, Sending);
    CountUpdate(s.workers, i, to, Succeeded);
    CountUpdate(s.workers, i, to, Finished);
  }

  lemma WorkerKeepsInv(connections: nat, s: State, l: Label)
    requires Inv(connections, s) && !l.Slot? && !l.Acquire? && l.id < |s.workers|
    ensures Inv(connections, StepWorker(s, l, s.workers[l.id]))
  {
    var t := StepWorker(s, l, s.workers[l.id]);
    if t != s { MoveKeepsInv(connections, s, l.id, t.workers[l.id], t); }
  }

  lemma StepKeepsInv(connections: nat, s: State, l: Label)
    requires Inv(connections, s)
    ensures Inv(connections, Step(s, l))
  {
    if l.Acquire? {
      AcquireKeepsInv(connections, s);
    } else if !l.Slot? && l.id < |s.workers| {
      WorkerKeepsInv(connections, s, l);
    }
  }

  lemma {:induction false} RunKeepsInv(connections: nat, labels: seq<Label>)
    ensures Inv(connections, Run(Initial(connections), labels))
  {
    if labels != [] {
      RunKeepsInv(connections, labels[..|labels| - 1]);
      StepKeepsInv(connections, Run(Initial(connections), labels[..|labels| - 1]), labels[|labels| - 1]);
    }
  }

  /** In every interleaving of the scheduler and its workers: a slot is dropped or spawned, requests in
      flight never pass the connections, answers never pass requests sent, nor those the ones
      spawned, and the stored latencies are the successes up to those just being stored. */
  lemma CountersAgree(connections: nat, labels: seq<Label>)
    ensures var s := Run(Initial(connections), labels);
            && s.scheduled == s.dropped + |s.workers| + (if s.pending then 1 else 0)
            && InFlight(s) <= connections
            && s.ok + s.errors <= s.sent <= |s.workers|
            && s.samples <= s.ok <= s.samples + InFlight(s)
  {
    RunKeepsInv(connections, labels);
    CountsCover(Run(Initial(connections), labels).workers);
  }

  /** Once nothing is in flight, every request sent has been answered, every success has its latency,
      and all permits are back. */
  lemma NothingIsLost(connections: nat, labels: seq<Label>)
    requires InFlight(Run(Initial(connections), labels)) == 0
    ensures var s := Run(Initial(connections), labels);
            s.ok + s.errors == s.sent == |s.workers| && s.samples == s.ok && s.permits == connections
  {
    RunKeepsInv(connections, labels);
  }

  /** A slot is dropped exactly when every connection is in use. */
  lemma DropMeansSaturated(connections: nat, labels: seq<Label>)
    requires Run(Initial(connections), labels).pending
    ensures var s := Run(Initial(connections), labels);
            Step(s, Acquire).dropped == s.dropped + 1 <==> InFlight(s) == connections
  {
    RunKeepsInv(connections, labels);
  }
}
