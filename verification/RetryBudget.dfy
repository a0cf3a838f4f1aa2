/** The shared budget for buffered retry bodies (pavis, retry.rs): any number of guards reserve bytes in
    one atomic counter by compare-and-swap and give them back when dropped.

    Each atomic operation is one step; a run is any sequence of steps of any guards. */
module RetryBudget {
  import opened Common

  const LIMIT := 33_554_432
  const U64_RANGE := 0x1_0000_0000_0000_0000

  function SaturatingAdd(a: nat, b: nat): nat { if a + b < U64_RANGE then a + b else U64_RANGE - 1 }

  /** `fetch_sub` wraps around. */
  function WrappingSub(a: nat, b: nat): nat { (a - b) % U64_RANGE }

  /** Where a guard is: outside `try_add`, about to load, holding a loaded value it has checked against
      the limit, past a won swap but before recording it, or dropped. */
  datatype Phase = Ready | Wanting(extra: nat) | Loaded(extra: nat, seen: nat) | Won(extra: nat) | Dropped

  /** `granted` is the answer of the guard's last `try_add`. */
  datatype Guard = Guard(held: nat, phase: Phase, granted: Option<bool>)

  /** `past` holds every value the counter has had: a relaxed load may return any of them, where the swap
      compares with the latest. */
  datatype State = State(used: nat, guards: seq<Guard>, past: set<nat>)

  datatype Label =
    | Create
    | Call(id: nat, extra: nat)
    | Load(id: nat, seen: nat)
    | Swap(id: nat)
    | Record(id: nat)
    | Drop(id: nat)

  const Initial := State(0, [], {0})

  function StepGuard(used: nat, g: Guard, l: Label): (nat, Guard) {
    match (l, g.phase)
    case (Call(_, extra), Ready) =>
      if extra == 0 then (used, g.(granted := Some(true))) else (used, g.(phase := Wanting(extra), granted := None))
    case (Load(_, seen), Wanting(extra)) =>
      if SaturatingAdd(seen, extra) > LIMIT then (used, g.(phase := Ready, granted := Some(false)))
      else (used, g.(phase := Loaded(extra, seen)))
    case (Swap(_), Loaded(extra, seen)) =>
      if used == seen then (SaturatingAdd(seen, extra), g.(phase := Won(extra)))
      else (used, g.(phase := Wanting(extra)))
    case (Record(_), Won(extra)) => (used, Guard(SaturatingAdd(g.held, extra), Ready, Some(true)))
    case (Drop(_), Ready) => (if g.held > 0 then WrappingSub(used, g.held) else used, g.(phase := Dropped))
    case (_, _) => (used, g)
  }

  function Step(s: State, l: Label): State {
    if l.Create? then s.(guards := s.guards + [Guard(0, Ready, None)])
    else if l.id >= |s.guards| || (l.Load? && l.seen !in s.past) then s
    else
      var (used, g) := StepGuard(s.used, s.guards[l.id], l);
      State(used, s.guards[l.id := g], s.past + {used})
  }

  function Run(s: State, labels: seq<Label>): State {
    if labels == [] then s else Step(Run(s, labels[..|labels| - 1]), labels[|labels| - 1])
  }

  /* ---- what the counter stands for ---- */

  /** What a guard has in the counter: what it holds, and a swap it has won but not recorded. */
  function Share(g: Guard): nat {
    match g.phase
    case Dropped => 0
    case Won(extra) => g.held + extra
    case _ => g.held
  }

  function Total(guards: seq<Guard>): nat {
    if guards == [] then 0 else Total(guards[..|guards| - 1]) + Share(guards[|guards| - 1])
  }

  lemma {:induction false} TotalUpdate(guards: seq<Guard>, i: nat, g: Guard)
    requires i < |guards|
    ensures Total(guards[i := g]) == Total(guards) - Share(guards[i]) + Share(g)
  {
    var n := |guards| - 1;
    if i == n {
      assert guards[i := g][..n] == guards[..n];
    } else {
      TotalUpdate(guards[..n], i, g);
      assert guards[i := g][..n] == guards[..n][i := g];
    }
  }

  lemma {:induction false} ShareBelowTotal(guards: seq<Guard>, i: nat)
    requires i < |guards|
    ensures Share(guards[i]) <= Total(guards)
  {
    var n := |guards| - 1;
    if i < n { ShareBelowTotal(guards[..n], i); }
  }

  ghost predicate Checked(g: Guard) {
    g.phase.Loaded? ==> g.phase.seen + g.phase.extra <= LIMIT
  }

  ghost predicate Inv(s: State) {
    && s.used == Total(s.guards) && s.used in s.past
    && (forall v :: v in s.past ==> v <= LIMIT)
    && forall i :: 0 <= i < |s.guards| ==> Checked(s.guards[i])
  }

  lemma CreateKeepsInv(s: State)
    requires Inv(s)
    ensures Inv(Step(s, Create))
  {
    assert (s.guards + [Guard(0, Ready, None)])[..|s.guards|] == s.guards;
  }

  /** Replacing a guard and moving the counter by the same amount keeps them in step. */
  lemma ReplaceKeepsInv(s: State, id: nat, used: nat, g: Guard)
    requires Inv(s) && id < |s.guards|
    requires Checked(g) && used - s.used == Share(g) - Share(s.guards[id]) && used <= LIMIT
    ensures Inv(State(used, s.guards[id := g], s.past + {used}))
  {
    TotalUpdate(s.guards, id, g);
  }

  lemma StepKeepsInv(s: State, l: Label)
    requires Inv(s)
    ensures Inv(Step(s, l))
  {
    if l.Create? {
      CreateKeepsInv(s);
    } else if l.id < |s.guards| && !(l.Load? && l.seen !in s.past) {
      ShareBelowTotal(s.guards, l.id);
      GuardStep(s.used, s.guards[l.id], l);
      ReplaceKeepsInv(s, l.id, StepGuard(s.used, s.guards[l.id], l).0, StepGuard(s.used, s.guards[l.id], l).1);
    }
  }

  /** One guard's step moves the counter and its share by the same amount; nothing saturates or wraps. */
  lemma GuardStep(used: nat, g: Guard, l: Label)
    requires Checked(g) && Share(g) <= used <= LIMIT
    ensures var (used', g') := StepGuard(used, g, l);
            Checked(g') && used' - used == Share(g') - Share(g) && used' <= LIMIT
  {
  }

  /** In every interleaving the counter is exactly what the live guards hold, it never passes the
      limit, and it has never wrapped. */
  lemma {:induction false} CounterIsExact(labels: seq<Label>)
    ensures Inv(Run(Initial, labels))
    ensures Run(Initial, labels).used <= 33_554_432
  {
    if labels != [] {
      CounterIsExact(labels[..|labels| - 1]);
      StepKeepsInv(Run(Initial, labels[..|labels| - 1]), labels[|labels| - 1]);
    }
  }

  lemma {:induction false} DroppedHoldNothing(guards: seq<Guard>)
    requires forall i :: 0 <= i < |guards| ==> guards[i].phase.Dropped?
    ensures Total(guards) == 0
  {
    if guards != [] { DroppedHoldNothing(guards[..|guards| - 1]); }
  }

  /** Nothing leaks: once every guard is dropped the counter is back at zero. */
  lemma AllDroppedMeansZero(labels: seq<Label>)
    requires forall i :: 0 <= i < |Run(Initial, labels).guards| ==> Run(Initial, labels).guards[i].phase.Dropped?
    ensures Run(Initial, labels).used == 0
  {
    CounterIsExact(labels);
    DroppedHoldNothing(Run(Initial, labels).guards);
  }

  /** A reservation is refused exactly when the value its load returned leaves no room, and granted by a swap
      exactly when that value is still the counter's; a granted one always fits beside what the live
      guards hold. So a load of the latest value decides by the live bytes, and a refusal against the
      live bytes takes a load from before the counter came down. */
  lemma DecisionsAreJustified(labels: seq<Label>, id: nat, seen: nat)
    requires id < |Run(Initial, labels).guards| && Run(Initial, labels).guards[id].phase.Wanting?
    requires seen in Run(Initial, labels).past
    ensures var s := Run(Initial, labels);
            var extra := s.guards[id].phase.extra;
            var loaded := Step(s, Load(id, seen));
            var swapped := Step(loaded, Swap(id));
            && (loaded.guards[id].granted == Some(false) <==> seen + extra > LIMIT)
            && (seen + extra <= LIMIT ==> (swapped.guards[id].phase == Won(extra) <==> seen == Total(s.guards)))
            && (swapped.guards[id].phase == Won(extra) ==> swapped.used == Total(s.guards) + extra <= LIMIT)
            && (seen == s.used ==> (loaded.guards[id].granted == Some(false) <==> Total(s.guards) + extra > LIMIT))
            && (loaded.guards[id].granted == Some(false) && Total(s.guards) + extra <= LIMIT ==> seen > s.used)
  {
    CounterIsExact(labels);
    MeaningOfGranted(labels, id);
  }

  lemma RunSnoc(labels: seq<Label>, l: Label)
    ensures Run(Initial, labels + [l]) == Step(Run(Initial, labels), l)
  {
    assert (labels + [l])[..|labels|] == labels;
  }

  /** A refusal with the whole budget free: one guard takes it all and is dropped, and another's load still
      returns the full counter. */
  lemma StaleLoadRefuses() returns (labels: seq<Label>)
    ensures var s := Run(Initial, labels);
            |s.guards| == 2 && s.guards[1].phase == Wanting(1) && s.used == 0 && LIMIT in s.past
            && Step(s, Load(1, LIMIT)).guards[1].granted == Some(false)
  {
    var idle, full := Guard(0, Ready, None), Guard(LIMIT, Ready, Some(true));
    labels := FillBudget();
    RunSnoc(labels, Drop(0));
    labels := labels + [Drop(0)];
    assert Run(Initial, labels) == State(0, [full.(phase := Dropped), idle], {0, LIMIT});
    RunSnoc(labels, Call(1, 1));
    labels := labels + [Call(1, 1)];
    assert Run(Initial, labels) == State(0, [full.(phase := Dropped), idle.(phase := Wanting(1))], {0, LIMIT});
  }

  lemma TwoGuards() returns (labels: seq<Label>)
    ensures Run(Initial, labels) == State(0, [Guard(0, Ready, None), Guard(0, Ready, None)], {0})
  {
    labels := [];
    RunSnoc(labels, Create);
    labels := labels + [Create];
    RunSnoc(labels, Create);
    labels := labels + [Create];
  }

  lemma FillBudget() returns (labels: seq<Label>)
    ensures Run(Initial, labels) == State(LIMIT, [Guard(LIMIT, Ready, Some(true)), Guard(0, Ready, None)], {0, LIMIT})
  {
    var idle := Guard(0, Ready, None);
    labels := TwoGuards();
    RunSnoc(labels, Call(0, LIMIT));
    labels := labels + [Call(0, LIMIT)];
    var wanting := State(0, [Guard(0, Wanting(LIMIT), None), idle], {0});
    assert Run(Initial, labels) == wanting;
    RunSnoc(labels, Load(0, 0));
    labels := labels + [Load(0, 0)];
    RunSnoc(labels, Swap(0));
    labels := labels + [Swap(0)];
    RunSnoc(labels, Record(0));
    labels := labels + [Record(0)];
    TakeAll(wanting);
  }

  lemma TakeAll(s: State)
    requires s == State(0, [Guard(0, Wanting(LIMIT), None), Guard(0, Ready, None)], {0})
    ensures Step(Step(Step(s, Load(0, 0)), Swap(0)), Record(0))
         == State(LIMIT, [Guard(LIMIT, Ready, Some(true)), Guard(0, Ready, None)], {0, LIMIT})
  {
    var idle := Guard(0, Ready, None);
    assert Step(s, Load(0, 0)) == State(0, [Guard(0, Loaded(LIMIT, 0), None), idle], {0});
    assert Step(Step(s, Load(0, 0)), Swap(0)) == State(LIMIT, [Guard(0, Won(LIMIT), None), idle], {0, LIMIT});
  }

  /** A guard inside `try_add` has no answer yet. */
  lemma {:induction false} MeaningOfGranted(labels: seq<Label>, id: nat)
    requires id < |Run(Initial, labels).guards|
    ensures var g := Run(Initial, labels).guards[id];
            g.phase.Wanting? || g.phase.Loaded? || g.phase.Won? ==> g.granted.None?
  {
    var n := |labels| - 1;
    if labels != [] && id < |Run(Initial, labels[..n]).guards| { MeaningOfGranted(labels[..n], id); }
  }

  /** A guard that gets all it asks for ends up holding the sum of its requests, and so does the counter
      for it: recording adds to `held` exactly what the swap added to the counter. */
  lemma RecordMatchesSwap(labels: seq<Label>, id: nat)
    requires id < |Run(Initial, labels).guards| && Run(Initial, labels).guards[id].phase.Won?
    ensures var s := Run(Initial, labels);
            var t := Step(s, Record(id));
            && t.guards[id].held == s.guards[id].held + s.guards[id].phase.extra
            && t.guards[id].granted == Some(true) && t.used == s.used
  {
    CounterIsExact(labels);
    RecordStep(Run(Initial, labels), id);
  }

  lemma RecordStep(s: State, id: nat)
    requires Inv(s) && id < |s.guards| && s.guards[id].phase.Won?
    ensures Step(s, Record(id)).guards[id] == Guard(s.guards[id].held + s.guards[id].phase.extra, Ready, Some(true))
    ensures Step(s, Record(id)).used == s.used
  {
    ShareBelowTotal(s.guards, id);
    var g := s.guards[id];
    assert g.held + g.phase.extra == Share(g) <= s.used <= LIMIT;
    assert StepGuard(s.used, g, Record(id)) == (s.used, Guard(g.held + g.phase.extra, Ready, Some(true)));
  }

  /* ---- the objects ---- */

  class Counter {
    var used: nat

    constructor ()
      ensures used == 0
    {
      used := 0;
    }

    method CompareExchange(expected: nat, desired: nat) returns (ok: bool)
      modifies this
      ensures ok == (old(used) == expected) && used == if ok then desired else old(used)
    {
      ok := used == expected;
      if ok { used := desired; }
    }
  }

  class BudgetGuard {
    const counter: Counter
    var bytes: nat

    /** The guard's bytes are in the counter, which is within the limit. */
    ghost predicate Valid()
      reads this, counter
    {
      bytes <= counter.used <= LIMIT
    }

    constructor (counter: Counter)
      requires counter.used <= LIMIT
      ensures Valid() && bytes == 0 && this.counter == counter
    {
      this.counter := counter;
      bytes := 0;
    }

    /** The counter's values that successive loads of a `try_add` meet. */
    static function Values(first: nat, others: seq<nat>): seq<nat> { [first] + others }

    /** Round `k` finds room and loses its swap to a counter that has moved. */
    static predicate LosesRound(values: seq<nat>, extra: nat, k: nat) {
      k + 1 < |values| && values[k] + extra <= LIMIT && values[k + 1] != values[k]
    }

    /** `try_add`, with other guards at work: `others[k]` is what they make of the counter between the
        `k`-th load and the swap after it, and they leave this guard's bytes in it and keep the limit.
        Round after round the swap is lost because the counter has moved; the call is decided in the
        first round whose value leaves no room, refused, or stays put, granted. Then counter and guard
        grow by the same amount; refused, neither is changed by this guard. */
    method TryAdd(extra: nat, others: seq<nat>) returns (granted: bool, ghost round: nat)
      requires Valid() && forall k :: 0 <= k < |others| ==> bytes <= others[k] <= LIMIT
      modifies this, counter
      ensures Valid()
      ensures extra == 0 ==> granted && counter.used == old(counter.used) && bytes == old(bytes)
      ensures extra > 0 ==>
                var values := Values(old(counter.used), others);
                && round <= |others|
                && (forall k :: 0 <= k < round ==> LosesRound(values, extra, k))
                && (granted <==> values[round] + extra <= 33_554_432)
                && (granted ==> round == |others| || values[round + 1] == values[round])
                && counter.used == values[round] + (if granted then extra else 0)
                && bytes == old(bytes) + (if granted then extra else 0)
    {
      round := 0;
      if extra == 0 { return true, 0; }
      granted := false;
      ghost var values := Values(counter.used, others);
      var k := 0;
      while true
        invariant k == round <= |others| && !granted && bytes == old(bytes)
        invariant counter.used == values[k]
        invariant forall j :: 0 <= j < k ==> LosesRound(values, extra, j)
        decreases |others| - k
      {
        var used := counter.used;
        var newUsed := SaturatingAdd(used, extra);
        if newUsed > LIMIT { return; }
        if k < |others| { counter.used := others[k]; }
        granted := counter.CompareExchange(used, newUsed);
        if granted {
          bytes := SaturatingAdd(bytes, extra);
          return;
        }
        k, round := k + 1, round + 1;
      }
    }

    /** Dropping gives back exactly what the guard holds. */
    method Release()
      requires Valid()
      modifies this, counter
      ensures Valid() && bytes == 0 && counter.used == old(counter.used) - old(bytes)
    {
      if bytes > 0 { counter.used := WrappingSub(counter.used, bytes); }
      bytes := 0;
    }
  }
}
