/** Route predicates and their normalizer (pavis-core, runtime/matcher.rs).

    `Normalize` is the source's `PredicateNode::normalize`; the cost function that drives its
    stable sort is a parameter, so every result here holds whatever cost estimate is used.
    `NormalizeTree` is the same computation with the source's flattening loop. */
module Predicates {

  datatype MethodMatcher = OneMethod(name: string) | AnyMethodOf(names: seq<string>)

  datatype HeaderMatcher =
    | HeaderExact(name: string, value: string)
    | HeaderPrefix(name: string, prefix: string)
    | HeaderRegex(name: string, pattern: string)
    | HeaderPresent(name: string)

  datatype Pred =
    | True
    | False
    | Method(ofMethod: MethodMatcher)
    | Header(ofHeader: HeaderMatcher)
    | And(conjuncts: seq<Pred>)
    | Or(disjuncts: seq<Pred>)
    | Not(negated: Pred)

  /** A truth value for every method and header leaf. */
  datatype Valuation = Valuation(methodHolds: MethodMatcher -> bool, headerHolds: HeaderMatcher -> bool)

  predicate Holds(v: Valuation, p: Pred) {
    match p
    case True => true
    case False => false
    case Method(m) => v.methodHolds(m)
    case Header(h) => v.headerHolds(h)
    case And(ps) => forall q | q in ps :: Holds(v, q)
    case Or(ps) => exists q | q in ps :: Holds(v, q)
    case Not(q) => !Holds(v, q)
  }

  /** The two list connectives. `normalize_and` and `normalize_or` are one algorithm with the
      connective, its identity and its absorbing element exchanged. */
  datatype Op = Conj | Disj

  function Wrap(op: Op, ps: seq<Pred>): Pred { if op.Conj? then And(ps) else Or(ps) }

  function Identity(op: Op): Pred { if op.Conj? then True else False }

  function Absorber(op: Op): Pred { if op.Conj? then False else True }

  predicate IsGroup(op: Op, p: Pred) { if op.Conj? then p.And? else p.Or? }

  function Members(op: Op, p: Pred): seq<Pred> {
    if op.Conj? && p.And? then p.conjuncts else if op.Disj? && p.Or? then p.disjuncts else [p]
  }

  /** Truth of a list of predicates joined by `op`. */
  predicate HoldsList(v: Valuation, op: Op, ps: seq<Pred>) {
    if op.Conj? then forall q | q in ps :: Holds(v, q) else exists q | q in ps :: Holds(v, q)
  }

  function Flatten(op: Op, ps: seq<Pred>): seq<Pred> {
    if ps == [] then [] else Flatten(op, ps[..|ps| - 1]) + Members(op, ps[|ps| - 1])
  }

  function Retain(drop: Pred, ps: seq<Pred>): seq<Pred> {
    if ps == [] then [] else (if ps[0] == drop then [] else [ps[0]]) + Retain(drop, ps[1..])
  }

  type Cost = Pred -> nat

  /** Insert `p` behind every element of the same or a smaller cost. */
  function Insert(cost: Cost, ps: seq<Pred>, p: Pred): seq<Pred> {
    if ps != [] && cost(p) < cost(ps[|ps| - 1])
    then Insert(cost, ps[..|ps| - 1], p) + [ps[|ps| - 1]]
    else ps + [p]
  }

  /** The stable sort by cost. */
  function Sort(cost: Cost, ps: seq<Pred>): seq<Pred> {
    if ps == [] then [] else Insert(cost, Sort(cost, ps[..|ps| - 1]), ps[|ps| - 1])
  }

  /** Removes an element equal to its right neighbour, as `Vec::dedup` does. */
  function Dedup(ps: seq<Pred>): seq<Pred> {
    if |ps| < 2 then ps
    else (if ps[0] == ps[1] then [] else [ps[0]]) + Dedup(ps[1..])
  }

  function Finish(op: Op, ps: seq<Pred>): Pred {
    if ps == [] then Identity(op) else if |ps| == 1 then ps[0] else Wrap(op, ps)
  }

  /** Everything a group does after its children are normalized. */
  function Regroup(cost: Cost, op: Op, ps: seq<Pred>): Pred {
    var flat := Flatten(op, ps);
    if Absorber(op) in flat then Absorber(op)
    else Finish(op, Dedup(Sort(cost, Retain(Identity(op), flat))))
  }

  function Negate(p: Pred): Pred {
    match p
    case True => False
    case False => True
    case Not(q) => q
    case _ => Not(p)
  }

  function Normalize(cost: Cost, p: Pred): Pred {
    match p
    case And(ps) => Regroup(cost, Conj, seq(|ps|, i requires 0 <= i < |ps| => Normalize(cost, ps[i])))
    case Or(ps) => Regroup(cost, Disj, seq(|ps|, i requires 0 <= i < |ps| => Normalize(cost, ps[i])))
    case Not(q) => Negate(Normalize(cost, q))
    case _ => p
  }

  /* ---- the loops ---- */

  method NormalizeTree(cost: Cost, p: Pred) returns (r: Pred)
    ensures r == Normalize(cost, p)
    decreases p, 1
  {
    match p
    case And(ps) => r := NormalizeGroup(cost, Conj, ps, p);
    case Or(ps) => r := NormalizeGroup(cost, Disj, ps, p);
    case Not(q) => var n := NormalizeTree(cost, q); r := Negate(n);
    case _ => r := p;
  }

  method NormalizeGroup(cost: Cost, op: Op, children: seq<Pred>, ghost parent: Pred) returns (r: Pred)
    requires parent == Wrap(op, children)
    ensures r == Normalize(cost, parent)
    decreases parent, 0
  {
    ghost var normal := seq(|children|, i requires 0 <= i < |children| => Normalize(cost, children[i]));
    var flattened: seq<Pred> := [];
    for n := 0 to |children|
      invariant flattened == Flatten(op, normal[..n])
    {
      var child := NormalizeTree(cost, children[n]);
      assert normal[..n + 1][..n] == normal[..n];
      if IsGroup(op, child) {
        flattened := flattened + Members(op, child);
      } else {
        flattened := flattened + [child];
      }
    }
    assert normal[..|children|] == normal;
    if Absorber(op) in flattened {
      return Absorber(op);
    }
    flattened := Retain(Identity(op), flattened);
    flattened := Sort(cost, flattened);
    flattened := Dedup(flattened);
    r := Finish(op, flattened);
  }

  /* ---- meaning ---- */

  lemma HoldsListConcat(v: Valuation, op: Op, ps: seq<Pred>, qs: seq<Pred>)
    ensures op.Conj? ==> (HoldsList(v, op, ps + qs) <==> HoldsList(v, op, ps) && HoldsList(v, op, qs))
    ensures op.Disj? ==> (HoldsList(v, op, ps + qs) <==> HoldsList(v, op, ps) || HoldsList(v, op, qs))
  {
    assert forall q :: q in ps + qs <==> q in ps || q in qs;
  }

  lemma MembersKeepMeaning(v: Valuation, op: Op, p: Pred)
    ensures HoldsList(v, op, Members(op, p)) == Holds(v, p)
  {
  }

  lemma {:induction false} FlattenKeepsMeaning(v: Valuation, op: Op, ps: seq<Pred>)
    ensures HoldsList(v, op, Flatten(op, ps)) == HoldsList(v, op, ps)
  {
    if ps != [] {
      var n := |ps| - 1;
      FlattenKeepsMeaning(v, op, ps[..n]);
      assert ps == ps[..n] + [ps[n]];
      HoldsListConcat(v, op, ps[..n], [ps[n]]);
      HoldsListConcat(v, op, Flatten(op, ps[..n]), Members(op, ps[n]));
      MembersKeepMeaning(v, op, ps[n]);
    }
  }

  lemma {:induction false} RetainElements(drop: Pred, ps: seq<Pred>)
    ensures forall q :: q in Retain(drop, ps) <==> q in ps && q != drop
  {
    if ps != [] {
      RetainElements(drop, ps[1..]);
      assert ps == [ps[0]] + ps[1..];
    }
  }

  lemma {:induction false} InsertElements(cost: Cost, ps: seq<Pred>, p: Pred)
    ensures forall q :: q in Insert(cost, ps, p) <==> q in ps || q == p
  {
    if ps != [] && cost(p) < cost(ps[|ps| - 1]) {
      InsertElements(cost, ps[..|ps| - 1], p);
      assert ps == ps[..|ps| - 1] + [ps[|ps| - 1]];
    }
  }

  lemma {:induction false} SortElements(cost: Cost, ps: seq<Pred>)
    ensures forall q :: q in Sort(cost, ps) <==> q in ps
  {
    if ps != [] {
      SortElements(cost, ps[..|ps| - 1]);
      InsertElements(cost, Sort(cost, ps[..|ps| - 1]), ps[|ps| - 1]);
      assert ps == ps[..|ps| - 1] + [ps[|ps| - 1]];
    }
  }

  lemma {:induction false} DedupElements(ps: seq<Pred>)
    ensures forall q :: q in Dedup(ps) <==> q in ps
  {
    if |ps| >= 2 {
      DedupElements(ps[1..]);
      assert ps == [ps[0]] + ps[1..];
    }
  }

  lemma FinishKeepsMeaning(v: Valuation, op: Op, ps: seq<Pred>)
    ensures Holds(v, Finish(op, ps)) == HoldsList(v, op, ps)
  {
    if |ps| == 1 {
      assert ps == [ps[0]];
    }
  }

  lemma RegroupKeepsMeaning(v: Valuation, cost: Cost, op: Op, ps: seq<Pred>)
    ensures Holds(v, Regroup(cost, op, ps)) == HoldsList(v, op, ps)
  {
    var flat := Flatten(op, ps);
    FlattenKeepsMeaning(v, op, ps);
    if Absorber(op) in flat {
    } else {
      var kept := Retain(Identity(op), flat);
      RetainElements(Identity(op), flat);
      SortElements(cost, kept);
      DedupElements(Sort(cost, kept));
      FinishKeepsMeaning(v, op, Dedup(Sort(cost, kept)));
    }
  }

  /** Normalizing never changes which requests a predicate accepts. */
  lemma {:induction false} NormalizeKeepsMeaning(v: Valuation, cost: Cost, p: Pred)
    ensures Holds(v, Normalize(cost, p)) == Holds(v, p)
    decreases p, 1
  {
    match p
    case And(ps) => NormalizeGroupKeepsMeaning(v, cost, Conj, ps, p);
    case Or(ps) => NormalizeGroupKeepsMeaning(v, cost, Disj, ps, p);
    case Not(q) => NormalizeKeepsMeaning(v, cost, q);
    case _ =>
  }

  lemma {:induction false} NormalizeGroupKeepsMeaning(v: Valuation, cost: Cost, op: Op, ps: seq<Pred>, parent: Pred)
    requires parent == Wrap(op, ps)
    ensures Holds(v, Normalize(cost, parent)) == Holds(v, parent)
    decreases parent, 0
  {
    var normal := seq(|ps|, i requires 0 <= i < |ps| => Normalize(cost, ps[i]));
    forall i | 0 <= i < |ps| ensures Holds(v, normal[i]) == Holds(v, ps[i]) {
      NormalizeKeepsMeaning(v, cost, ps[i]);
    }
    RegroupKeepsMeaning(v, cost, op, normal);
    assert HoldsList(v, op, normal) == HoldsList(v, op, ps) by {
      assert forall i | 0 <= i < |ps| :: normal[i] in normal && ps[i] in ps;
    }
  }

  /* ---- normal form ---- */

  predicate Constant(p: Pred) { p.True? || p.False? }

  predicate SortedByCost(cost: Cost, ps: seq<Pred>) {
    forall i, j | 0 <= i < j < |ps| :: cost(ps[i]) <= cost(ps[j])
  }

  predicate NoAdjacentEqual(ps: seq<Pred>) {
    forall i | 0 < i < |ps| :: ps[i - 1] != ps[i]
  }

  /** What may stand inside a group. */
  predicate Elements(op: Op, ps: seq<Pred>) {
    forall i | 0 <= i < |ps| :: !Constant(ps[i]) && !IsGroup(op, ps[i])
  }

  /** The grammar of normalized predicates, at every depth. */
  predicate Normal(cost: Cost, p: Pred) {
    match p
    case And(ps) => NormalGroup(cost, Conj, ps) && forall q | q in ps :: Normal(cost, q)
    case Or(ps) => NormalGroup(cost, Disj, ps) && forall q | q in ps :: Normal(cost, q)
    case Not(q) => !Constant(q) && !q.Not? && Normal(cost, q)
    case _ => true
  }

  predicate NormalGroup(cost: Cost, op: Op, ps: seq<Pred>) {
    |ps| >= 2 && Elements(op, ps) && SortedByCost(cost, ps) && NoAdjacentEqual(ps)
  }

  lemma {:induction false} InsertSorted(cost: Cost, ps: seq<Pred>, p: Pred)
    requires SortedByCost(cost, ps)
    ensures SortedByCost(cost, Insert(cost, ps, p))
  {
    if ps != [] && cost(p) < cost(ps[|ps| - 1]) {
      var front := ps[..|ps| - 1];
      InsertSorted(cost, front, p);
      InsertElements(cost, front, p);
      var r := Insert(cost, front, p);
      assert forall q | q in r :: cost(q) <= cost(ps[|ps| - 1]);
      assert forall i | 0 <= i < |r| :: r[i] in r;
    }
  }

  lemma {:induction false} SortSorted(cost: Cost, ps: seq<Pred>)
    ensures SortedByCost(cost, Sort(cost, ps))
  {
    if ps != [] {
      SortSorted(cost, ps[..|ps| - 1]);
      InsertSorted(cost, Sort(cost, ps[..|ps| - 1]), ps[|ps| - 1]);
    }
  }

  lemma {:induction false} SortOfSorted(cost: Cost, ps: seq<Pred>)
    requires SortedByCost(cost, ps)
    ensures Sort(cost, ps) == ps
  {
    if ps != [] {
      var front, last := ps[..|ps| - 1], ps[|ps| - 1];
      SortOfSorted(cost, front);
      assert Sort(cost, ps) == Insert(cost, front, last);
      assert Insert(cost, front, last) == front + [last] by {
        assert front != [] ==> cost(front[|front| - 1]) <= cost(last);
      }
      assert ps == front + [last];
    }
  }

  lemma {:induction false} DedupNoAdjacentEqual(ps: seq<Pred>)
    ensures NoAdjacentEqual(Dedup(ps))
    ensures ps != [] ==> Dedup(ps) != [] && Dedup(ps)[0] == ps[0]
  {
    if |ps| >= 2 {
      DedupNoAdjacentEqual(ps[1..]);
    }
  }

  lemma SortedCons(cost: Cost, p: Pred, ps: seq<Pred>)
    requires SortedByCost(cost, ps) && forall q | q in ps :: cost(p) <= cost(q)
    ensures SortedByCost(cost, [p] + ps)
  {
    assert forall i | 0 <= i < |ps| :: ps[i] in ps;
  }

  lemma {:induction false} DedupSorted(cost: Cost, ps: seq<Pred>)
    requires SortedByCost(cost, ps)
    ensures SortedByCost(cost, Dedup(ps))
  {
    if |ps| >= 2 {
      DedupSorted(cost, ps[1..]);
      DedupElements(ps[1..]);
      SortedCons(cost, ps[0], Dedup(ps[1..]));
    }
  }

  lemma {:induction false} DedupOfDeduped(ps: seq<Pred>)
    requires NoAdjacentEqual(ps)
    ensures Dedup(ps) == ps
  {
    if |ps| >= 2 {
      assert ps[0] != ps[1];
      assert NoAdjacentEqual(ps[1..]) by {
        forall i | 0 < i < |ps[1..]| ensures ps[1..][i - 1] != ps[1..][i] {
          assert ps[i] != ps[i + 1];
        }
      }
      DedupOfDeduped(ps[1..]);
    }
  }

  /** Normalized children, flattened: no group of the same kind is left. */
  lemma {:induction false} FlattenShape(cost: Cost, op: Op, ps: seq<Pred>)
    requires forall q | q in ps :: Normal(cost, q)
    ensures forall q | q in Flatten(op, ps) :: Normal(cost, q) && !IsGroup(op, q)
  {
    if ps != [] {
      var n := |ps| - 1;
      FlattenShape(cost, op, ps[..n]);
      assert ps[n] in ps;
    }
  }

  lemma RegroupNormal(cost: Cost, op: Op, ps: seq<Pred>)
    requires forall q | q in ps :: Normal(cost, q)
    ensures Normal(cost, Regroup(cost, op, ps))
  {
    var flat := Flatten(op, ps);
    FlattenShape(cost, op, ps);
    if Absorber(op) !in flat {
      var kept := Retain(Identity(op), flat);
      RetainElements(Identity(op), flat);
      var sorted := Sort(cost, kept);
      SortElements(cost, kept);
      SortSorted(cost, kept);
      DedupElements(sorted);
      DedupSorted(cost, sorted);
      DedupNoAdjacentEqual(sorted);
      assert forall i | 0 <= i < |Dedup(sorted)| :: Dedup(sorted)[i] in Dedup(sorted);
    }
  }

  /** Every result obeys the normal-form grammar. */
  lemma {:induction false} NormalizeIsNormal(cost: Cost, p: Pred)
    ensures Normal(cost, Normalize(cost, p))
  {
    match p
    case And(ps) =>
      forall i | 0 <= i < |ps| { NormalizeIsNormal(cost, ps[i]); }
      RegroupNormal(cost, Conj, seq(|ps|, i requires 0 <= i < |ps| => Normalize(cost, ps[i])));
    case Or(ps) =>
      forall i | 0 <= i < |ps| { NormalizeIsNormal(cost, ps[i]); }
      RegroupNormal(cost, Disj, seq(|ps|, i requires 0 <= i < |ps| => Normalize(cost, ps[i])));
    case Not(q) => NormalizeIsNormal(cost, q);
    case _ =>
  }

  lemma {:induction false} FlattenOfElements(op: Op, ps: seq<Pred>)
    requires Elements(op, ps)
    ensures Flatten(op, ps) == ps
  {
    if ps != [] {
      FlattenOfElements(op, ps[..|ps| - 1]);
      assert ps == ps[..|ps| - 1] + [ps[|ps| - 1]];
    }
  }

  lemma {:induction false} RetainOfElements(op: Op, drop: Pred, ps: seq<Pred>)
    requires Elements(op, ps) && Constant(drop)
    ensures Retain(drop, ps) == ps
  {
    if ps != [] {
      RetainOfElements(op, drop, ps[1..]);
    }
  }

  lemma RegroupOfNormalGroup(cost: Cost, op: Op, ps: seq<Pred>)
    requires NormalGroup(cost, op, ps)
    ensures Regroup(cost, op, ps) == Wrap(op, ps)
  {
    FlattenOfElements(op, ps);
    RetainOfElements(op, Identity(op), ps);
    SortOfSorted(cost, ps);
    DedupOfDeduped(ps);
  }

  lemma {:induction false} NormalIsFixed(cost: Cost, p: Pred)
    requires Normal(cost, p)
    ensures Normalize(cost, p) == p
    decreases p, 1
  {
    match p
    case And(ps) => NormalGroupIsFixed(cost, Conj, ps, p);
    case Or(ps) => NormalGroupIsFixed(cost, Disj, ps, p);
    case Not(q) => NormalIsFixed(cost, q);
    case _ =>
  }

  lemma {:induction false} NormalGroupIsFixed(cost: Cost, op: Op, ps: seq<Pred>, parent: Pred)
    requires parent == Wrap(op, ps) && Normal(cost, parent)
    ensures Normalize(cost, parent) == parent
    decreases parent, 0
  {
    var normal := seq(|ps|, i requires 0 <= i < |ps| => Normalize(cost, ps[i]));
    forall i | 0 <= i < |ps| ensures normal[i] == ps[i] {
      assert ps[i] in ps;
      NormalIsFixed(cost, ps[i]);
    }
    assert normal == ps;
    RegroupOfNormalGroup(cost, op, ps);
  }

  /** The grammar describes exactly the fixed points. */
  lemma FixedExactlyWhenNormal(cost: Cost, p: Pred)
    ensures Normalize(cost, p) == p <==> Normal(cost, p)
  {
    NormalizeIsNormal(cost, p);
    if Normal(cost, p) { NormalIsFixed(cost, p); }
  }

  lemma Idempotent(cost: Cost, p: Pred)
    ensures Normalize(cost, Normalize(cost, p)) == Normalize(cost, p)
  {
    NormalizeIsNormal(cost, p);
    NormalIsFixed(cost, Normalize(cost, p));
  }

  /* ---- duplicates: `dedup` only removes neighbours ---- */

  predicate Distinct(ps: seq<Pred>) {
    forall i, j | 0 <= i < j < |ps| :: ps[i] != ps[j]
  }

  /** Equal elements stand next to each other. */
  predicate Grouped(ps: seq<Pred>) {
    forall i, k, j | 0 <= i < k < j < |ps| && ps[i] == ps[j] :: ps[k] == ps[i]
  }

  /** No two equal elements are parted by a different element of the same cost. */
  predicate Separable(cost: Cost, ps: seq<Pred>) {
    forall i, k, j | 0 <= i < k < j < |ps| && ps[i] == ps[j] && cost(ps[k]) == cost(ps[i]) :: ps[k] == ps[i]
  }

  lemma SwapSeparable(cost: Cost, s: seq<Pred>, a: Pred, b: Pred, r: seq<Pred>)
    requires cost(a) != cost(b) && Separable(cost, s + [a, b] + r)
    ensures Separable(cost, s + [b, a] + r)
  {
    var from, to, n := s + [a, b] + r, s + [b, a] + r, |s|;
    forall i, k, j | 0 <= i < k < j < |to| && to[i] == to[j] && cost(to[k]) == cost(to[i]) ensures to[k] == to[i] {
      var i' := if i == n then n + 1 else if i == n + 1 then n else i;
      var k' := if k == n then n + 1 else if k == n + 1 then n else k;
      var j' := if j == n then n + 1 else if j == n + 1 then n else j;
      assert to[i] == from[i'] && to[k] == from[k'] && to[j] == from[j'];
      assert i' < k' < j';
    }
  }

  lemma {:induction false} InsertSeparable(cost: Cost, ps: seq<Pred>, p: Pred, rest: seq<Pred>)
    ensures Separable(cost, ps + [p] + rest) <==> Separable(cost, Insert(cost, ps, p) + rest)
  {
    if ps != [] && cost(p) < cost(ps[|ps| - 1]) {
      var front, last := ps[..|ps| - 1], ps[|ps| - 1];
      calc <==> {
        Separable(cost, ps + [p] + rest);
        { assert ps + [p] + rest == front + [last, p] + rest; }
        Separable(cost, front + [last, p] + rest);
        { SwapSeparableBothWays(cost, front, last, p, rest); }
        Separable(cost, front + [p, last] + rest);
        { assert front + [p, last] + rest == front + [p] + ([last] + rest); }
        Separable(cost, front + [p] + ([last] + rest));
        { InsertSeparable(cost, front, p, [last] + rest); }
        Separable(cost, Insert(cost, front, p) + ([last] + rest));
        { assert Insert(cost, ps, p) + rest == Insert(cost, front, p) + ([last] + rest); }
        Separable(cost, Insert(cost, ps, p) + rest);
      }
    }
  }

  lemma SwapSeparableBothWays(cost: Cost, s: seq<Pred>, a: Pred, b: Pred, r: seq<Pred>)
    requires cost(a) != cost(b)
    ensures Separable(cost, s + [a, b] + r) <==> Separable(cost, s + [b, a] + r)
  {
    if Separable(cost, s + [a, b] + r) { SwapSeparable(cost, s, a, b, r); }
    if Separable(cost, s + [b, a] + r) { SwapSeparable(cost, s, b, a, r); }
  }

  lemma {:induction false} SortSeparable(cost: Cost, ps: seq<Pred>, rest: seq<Pred>)
    ensures Separable(cost, ps + rest) <==> Separable(cost, Sort(cost, ps) + rest)
  {
    if ps != [] {
      var front, last := ps[..|ps| - 1], ps[|ps| - 1];
      assert ps + rest == front + ([last] + rest);
      SortSeparable(cost, front, [last] + rest);
      assert Sort(cost, front) + ([last] + rest) == Sort(cost, front) + [last] + rest;
      InsertSeparable(cost, Sort(cost, front), last, rest);
    }
  }

  lemma GroupedTail(p: Pred, ps: seq<Pred>)
    requires Grouped([p] + ps)
    ensures Grouped(ps)
    ensures ps != [] && ps[0] != p ==> p !in ps
  {
    var qs := [p] + ps;
    forall i, k, j | 0 <= i < k < j < |ps| && ps[i] == ps[j] ensures ps[k] == ps[i] {
      assert qs[i + 1] == qs[j + 1] && qs[k + 1] == qs[i + 1];
    }
    if j :| 0 < j < |ps| && ps[j] == p {
      assert qs[0] == qs[j + 1] && qs[1] == qs[0];
    }
  }

  lemma GroupedCons(p: Pred, ps: seq<Pred>)
    requires Grouped(ps) && ps != [] && (p == ps[0] || p !in ps)
    ensures Grouped([p] + ps)
  {
    var qs := [p] + ps;
    forall i, k, j | 0 <= i < k < j < |qs| && qs[i] == qs[j] ensures qs[k] == qs[i] {
      assert qs[j] == ps[j - 1] && qs[k] == ps[k - 1] && ps[j - 1] in ps;
      if i > 0 { assert qs[i] == ps[i - 1]; } else { assert qs[i] == p; }
    }
  }

  lemma {:induction false} DedupDistinct(ps: seq<Pred>)
    ensures Distinct(Dedup(ps)) <==> Grouped(ps)
  {
    if |ps| >= 2 {
      var tail := ps[1..];
      DedupDistinct(tail);
      DedupElements(tail);
      DistinctCons(ps[0], Dedup(tail));
      assert Grouped(ps) <==> Grouped(tail) && (ps[0] == tail[0] || ps[0] !in tail) by {
        assert ps == [ps[0]] + tail;
        GroupedFirst(ps[0], tail);
      }
      if ps[0] == ps[1] { assert Dedup(ps) == [] + Dedup(tail) == Dedup(tail); }
    }
  }

  lemma GroupedFirst(p: Pred, ps: seq<Pred>)
    requires ps != []
    ensures Grouped([p] + ps) <==> Grouped(ps) && (p == ps[0] || p !in ps)
  {
    if Grouped([p] + ps) { GroupedTail(p, ps); }
    if Grouped(ps) && (p == ps[0] || p !in ps) { GroupedCons(p, ps); }
  }

  lemma DistinctCons(p: Pred, ps: seq<Pred>)
    ensures Distinct([p] + ps) <==> Distinct(ps) && p !in ps
  {
    var qs := [p] + ps;
    if Distinct(qs) {
      forall i, j | 0 <= i < j < |ps| ensures ps[i] != ps[j] { assert qs[i + 1] != qs[j + 1]; }
      forall i | 0 <= i < |ps| ensures ps[i] != p { assert qs[0] != qs[i + 1]; }
    }
  }

  /** A group's list comes out free of duplicates exactly when the flattened list has no two equal
      elements parted by a different element of the same cost. */
  lemma DuplicateFreeExactlyWhenSeparable(cost: Cost, ps: seq<Pred>)
    ensures Distinct(Dedup(Sort(cost, ps))) <==> Separable(cost, ps)
  {
    var sorted := Sort(cost, ps);
    SortSeparable(cost, ps, []);
    assert ps + [] == ps && sorted + [] == sorted;
    SortSorted(cost, ps);
    assert Grouped(sorted) <==> Separable(cost, sorted);
    DedupDistinct(sorted);
  }

  /** The result of a whole group, in terms of what the group is made of. */
  lemma NormalGroupDuplicates(cost: Cost, op: Op, ps: seq<Pred>)
    requires IsGroup(op, Regroup(cost, op, ps)) && forall q | q in ps :: Normal(cost, q)
    ensures Distinct(Members(op, Regroup(cost, op, ps)))
       <==> Separable(cost, Retain(Identity(op), Flatten(op, ps)))
  {
    var flat := Flatten(op, ps);
    var kept := Retain(Identity(op), flat);
    DuplicateFreeExactlyWhenSeparable(cost, kept);
    var result := Dedup(Sort(cost, kept));
    if |result| == 1 {
      FlattenShape(cost, op, ps);
      RetainElements(Identity(op), flat);
      SortElements(cost, kept);
      DedupElements(Sort(cost, kept));
    }
  }

  /* ---- order: what the sort decides and what it leaves to the input ---- */

  function OfCost(cost: Cost, ps: seq<Pred>, k: nat): seq<Pred> {
    if ps == [] then []
    else OfCost(cost, ps[..|ps| - 1], k) + if cost(ps[|ps| - 1]) == k then [ps[|ps| - 1]] else []
  }

  lemma {:induction false} InsertOfCost(cost: Cost, ps: seq<Pred>, p: Pred, k: nat)
    ensures OfCost(cost, Insert(cost, ps, p), k) == OfCost(cost, ps, k) + if cost(p) == k then [p] else []
  {
    var r := Insert(cost, ps, p);
    if ps != [] && cost(p) < cost(ps[|ps| - 1]) {
      InsertOfCost(cost, ps[..|ps| - 1], p, k);
      assert r[..|r| - 1] == Insert(cost, ps[..|ps| - 1], p);
    } else {
      assert r[..|r| - 1] == ps;
    }
  }

  lemma {:induction false} SortOfCost(cost: Cost, ps: seq<Pred>, k: nat)
    ensures OfCost(cost, Sort(cost, ps), k) == OfCost(cost, ps, k)
  {
    if ps != [] {
      SortOfCost(cost, ps[..|ps| - 1], k);
      InsertOfCost(cost, Sort(cost, ps[..|ps| - 1]), ps[|ps| - 1], k);
    }
  }

  lemma {:induction false} OfCostElements(cost: Cost, ps: seq<Pred>, k: nat)
    ensures forall q :: q in OfCost(cost, ps, k) <==> q in ps && cost(q) == k
  {
    if ps != [] {
      OfCostElements(cost, ps[..|ps| - 1], k);
      assert ps == ps[..|ps| - 1] + [ps[|ps| - 1]];
    }
  }

  /** `ps` and `qs` list the same elements of cost `k`, in the same order. */
  predicate SameClass(cost: Cost, ps: seq<Pred>, qs: seq<Pred>, k: nat) {
    OfCost(cost, ps, k) == OfCost(cost, qs, k)
  }

  lemma {:induction false} SortedDetermined(cost: Cost, ps: seq<Pred>, qs: seq<Pred>)
    requires SortedByCost(cost, ps) && SortedByCost(cost, qs)
    requires forall k: nat :: SameClass(cost, ps, qs, k)
    ensures ps == qs
  {
    forall k: nat ensures SameClass(cost, qs, ps, k) { assert SameClass(cost, ps, qs, k); }
    if ps == [] {
      NoClassesNoElements(cost, qs, ps);
    } else if qs == [] {
      NoClassesNoElements(cost, ps, qs);
    } else {
      LastCost(cost, ps, qs);
      LastCost(cost, qs, ps);
      assert SameClass(cost, ps, qs, cost(ps[|ps| - 1]));
      SameLast(cost, ps, qs);
      var ps', qs' := ps[..|ps| - 1], qs[..|qs| - 1];
      forall k: nat ensures SameClass(cost, ps', qs', k) {
        assert SameClass(cost, ps, qs, k);
        SameFronts(cost, ps, qs, k);
      }
      SortedDetermined(cost, ps', qs');
      assert ps == ps[..|ps| - 1] + [ps[|ps| - 1]] && qs == qs[..|qs| - 1] + [qs[|qs| - 1]];
    }
  }

  lemma NoClassesNoElements(cost: Cost, ps: seq<Pred>, qs: seq<Pred>)
    requires qs == [] && forall k: nat :: SameClass(cost, ps, qs, k)
    ensures ps == []
  {
    if ps != [] {
      assert SameClass(cost, ps, qs, cost(ps[0]));
      OfCostElements(cost, ps, cost(ps[0]));
    }
  }

  lemma SameLast(cost: Cost, ps: seq<Pred>, qs: seq<Pred>)
    requires ps != [] && qs != [] && cost(ps[|ps| - 1]) == cost(qs[|qs| - 1])
    requires SameClass(cost, ps, qs, cost(ps[|ps| - 1]))
    ensures ps[|ps| - 1] == qs[|qs| - 1]
    ensures SameClass(cost, ps[..|ps| - 1], qs[..|qs| - 1], cost(ps[|ps| - 1]))
  {
    var k := cost(ps[|ps| - 1]);
    SnocInjective(OfCost(cost, ps[..|ps| - 1], k), ps[|ps| - 1], OfCost(cost, qs[..|qs| - 1], k), qs[|qs| - 1]);
  }

  lemma SameFronts(cost: Cost, ps: seq<Pred>, qs: seq<Pred>, k: nat)
    requires ps != [] && qs != [] && cost(ps[|ps| - 1]) == cost(qs[|qs| - 1]) && SameClass(cost, ps, qs, k)
    ensures SameClass(cost, ps[..|ps| - 1], qs[..|qs| - 1], k)
  {
    if k == cost(ps[|ps| - 1]) {
      SameLast(cost, ps, qs);
    } else {
      assert OfCost(cost, ps, k) == OfCost(cost, ps[..|ps| - 1], k) + [] == OfCost(cost, ps[..|ps| - 1], k);
      assert OfCost(cost, qs, k) == OfCost(cost, qs[..|qs| - 1], k) + [] == OfCost(cost, qs[..|qs| - 1], k);
    }
  }

  lemma SnocInjective(s: seq<Pred>, x: Pred, t: seq<Pred>, y: Pred)
    requires s + [x] == t + [y]
    ensures s == t && x == y
  {
    assert s == (s + [x])[..|s + [x]| - 1] == (t + [y])[..|t + [y]| - 1] == t;
    assert (s + [x])[|s|] == x;
  }

  lemma LastCost(cost: Cost, ps: seq<Pred>, qs: seq<Pred>)
    requires ps != [] && qs != [] && SortedByCost(cost, qs)
    requires forall k: nat :: SameClass(cost, ps, qs, k)
    ensures cost(ps[|ps| - 1]) <= cost(qs[|qs| - 1])
  {
    var k := cost(ps[|ps| - 1]);
    assert SameClass(cost, ps, qs, k);
    OfCostElements(cost, ps, k);
    OfCostElements(cost, qs, k);
    assert ps[|ps| - 1] in qs;
  }

  /** Two lists sort to the same list exactly when they list the elements of each cost in the same
      order: the sort is stable, and it does not make the order of equal costs canonical. */
  lemma SameSortExactlyWhenSameCostClasses(cost: Cost, ps: seq<Pred>, qs: seq<Pred>)
    ensures Sort(cost, ps) == Sort(cost, qs) <==> forall k: nat :: SameClass(cost, ps, qs, k)
  {
    forall k: nat
      ensures SameClass(cost, ps, qs, k) <==> SameClass(cost, Sort(cost, ps), Sort(cost, qs), k)
    {
      SortOfCost(cost, ps, k);
      SortOfCost(cost, qs, k);
    }
    SortSorted(cost, ps);
    SortSorted(cost, qs);
    if forall k: nat :: SameClass(cost, ps, qs, k) {
      forall k: nat ensures SameClass(cost, Sort(cost, ps), Sort(cost, qs), k) {
        assert SameClass(cost, ps, qs, k);
      }
      SortedDetermined(cost, Sort(cost, ps), Sort(cost, qs));
    }
  }

  /* ---- when two groups normalize alike ---- */

  lemma {:induction false} OfCostCons(cost: Cost, p: Pred, ps: seq<Pred>, k: nat)
    ensures OfCost(cost, [p] + ps, k) == (if cost(p) == k then [p] else []) + OfCost(cost, ps, k)
  {
    if ps == [] {
      assert [p] + ps == [p] && [p][..0] == [];
      assert OfCost(cost, [p], k) == OfCost(cost, [], k) + if cost(p) == k then [p] else [];
    } else {
      var n := |ps| - 1;
      OfCostCons(cost, p, ps[..n], k);
      assert ([p] + ps)[..n + 1] == [p] + ps[..n];
    }
  }

  /** On a sorted list, removing equal neighbours and picking out a cost commute. */
  lemma {:induction false} DedupOfCost(cost: Cost, ps: seq<Pred>, k: nat)
    requires SortedByCost(cost, ps)
    ensures OfCost(cost, Dedup(ps), k) == Dedup(OfCost(cost, ps, k))
  {
    if |ps| == 1 {
      assert ps == [ps[0]] + [];
      OfCostCons(cost, ps[0], [], k);
    } else if |ps| >= 2 {
      var x, tail := ps[0], ps[1..];
      assert ps == [x] + tail;
      DedupOfCost(cost, tail, k);
      OfCostCons(cost, x, tail, k);
      OfCostCons(cost, x, Dedup(tail), k);
      var rest := OfCost(cost, tail, k);
      if cost(x) == k {
        FirstOfCost(cost, x, tail);
        if rest == [] {
          assert x !in tail by { OfCostElements(cost, tail, k); }
          assert [x] + rest == [x];
        } else {
          assert ([x] + rest)[1..] == rest;
        }
        if x == tail[0] { assert Dedup(ps) == [] + Dedup(tail) == Dedup(tail); }
      } else {
        assert [] + rest == rest;
        if x == tail[0] { assert Dedup(ps) == [] + Dedup(tail) == Dedup(tail); }
      }
    }
  }

  /** Behind a first element of cost `k`, the rest of that cost comes first. */
  lemma FirstOfCost(cost: Cost, x: Pred, tail: seq<Pred>)
    requires tail != [] && SortedByCost(cost, [x] + tail)
    ensures var rest := OfCost(cost, tail, cost(x)); rest != [] ==> rest[0] == tail[0]
  {
    var all, k := [x] + tail, cost(x);
    var rest := OfCost(cost, tail, k);
    if rest != [] {
      OfCostElements(cost, tail, k);
      assert rest[0] in tail;
      var i :| 0 <= i < |tail| && tail[i] == rest[0];
      assert all[0] == x && all[1] == tail[0] && all[i + 1] == tail[i];
      assert cost(tail[0]) == k;
      assert tail == [tail[0]] + tail[1..];
      OfCostCons(cost, tail[0], tail[1..], k);
    }
  }

  /** The elements of cost `k` agree once neighbours that are equal are merged. */
  predicate SameRuns(cost: Cost, ps: seq<Pred>, qs: seq<Pred>, k: nat) {
    Dedup(OfCost(cost, ps, k)) == Dedup(OfCost(cost, qs, k))
  }

  /** Sort and dedup give two lists the same result exactly when they agree in that way at every cost. */
  lemma SameDedupExactlyWhenSameRuns(cost: Cost, ps: seq<Pred>, qs: seq<Pred>)
    ensures Dedup(Sort(cost, ps)) == Dedup(Sort(cost, qs)) <==> forall k: nat :: SameRuns(cost, ps, qs, k)
  {
    var s, t := Sort(cost, ps), Sort(cost, qs);
    SortSorted(cost, ps);
    SortSorted(cost, qs);
    DedupSorted(cost, s);
    DedupSorted(cost, t);
    forall k: nat ensures SameRuns(cost, ps, qs, k) <==> SameClass(cost, Dedup(s), Dedup(t), k) {
      SortOfCost(cost, ps, k);
      SortOfCost(cost, qs, k);
      DedupOfCost(cost, s, k);
      DedupOfCost(cost, t, k);
    }
    if forall k: nat :: SameRuns(cost, ps, qs, k) {
      forall k: nat ensures SameClass(cost, Dedup(s), Dedup(t), k) { assert SameRuns(cost, ps, qs, k); }
      SortedDetermined(cost, Dedup(s), Dedup(t));
    }
  }

  lemma FinishInjective(op: Op, ps: seq<Pred>, qs: seq<Pred>)
    requires Elements(op, ps) && Elements(op, qs)
    ensures Finish(op, ps) == Finish(op, qs) <==> ps == qs
    ensures Finish(op, ps) != Absorber(op)
  {
  }

  /** What is left of a group before it is closed again. */
  function Kept(cost: Cost, op: Op, ps: seq<Pred>): seq<Pred> {
    Dedup(Sort(cost, Retain(Identity(op), Flatten(op, ps))))
  }

  lemma KeptElements(cost: Cost, op: Op, ps: seq<Pred>)
    requires (forall q | q in ps :: Normal(cost, q)) && Absorber(op) !in Flatten(op, ps)
    ensures Elements(op, Kept(cost, op, ps))
  {
    var flat := Flatten(op, ps);
    var kept := Retain(Identity(op), flat);
    FlattenShape(cost, op, ps);
    RetainElements(Identity(op), flat);
    SortElements(cost, kept);
    DedupElements(Sort(cost, kept));
    assert forall i | 0 <= i < |Kept(cost, op, ps)| :: Kept(cost, op, ps)[i] in Kept(cost, op, ps);
  }

  /** The exact sameness of two child lists: both absorbed, or equal runs at every cost. */
  ghost predicate SameGroup(cost: Cost, op: Op, ps: seq<Pred>, qs: seq<Pred>) {
    var f, g := Flatten(op, ps), Flatten(op, qs);
    if Absorber(op) in f || Absorber(op) in g then Absorber(op) in f && Absorber(op) in g
    else forall k: nat :: SameRuns(cost, Retain(Identity(op), f), Retain(Identity(op), g), k)
  }

  lemma SameRegroupExactlyWhenSameGroup(cost: Cost, op: Op, ps: seq<Pred>, qs: seq<Pred>)
    requires (forall q | q in ps :: Normal(cost, q)) && forall q | q in qs :: Normal(cost, q)
    ensures Regroup(cost, op, ps) == Regroup(cost, op, qs) <==> SameGroup(cost, op, ps, qs)
  {
    var f, g := Flatten(op, ps), Flatten(op, qs);
    if Absorber(op) !in f { KeptElements(cost, op, ps); FinishInjective(op, Kept(cost, op, ps), Kept(cost, op, ps)); }
    if Absorber(op) !in g { KeptElements(cost, op, qs); FinishInjective(op, Kept(cost, op, qs), Kept(cost, op, qs)); }
    if Absorber(op) !in f && Absorber(op) !in g {
      FinishInjective(op, Kept(cost, op, ps), Kept(cost, op, qs));
      SameDedupExactlyWhenSameRuns(cost, Retain(Identity(op), f), Retain(Identity(op), g));
    }
  }

  function NormalizeAll(cost: Cost, ps: seq<Pred>): seq<Pred> {
    seq(|ps|, i requires 0 <= i < |ps| => Normalize(cost, ps[i]))
  }

  /** Two groups have the same normal form if and only if their normalized children, flattened, are
      both absorbed or list the same predicates at every cost, in the same order, up to repeats next
      to each other. That is all the structural equality there is. */
  lemma SameNormalFormExactlyWhenSameGroup(cost: Cost, op: Op, ps: seq<Pred>, qs: seq<Pred>)
    ensures Normalize(cost, Wrap(op, ps)) == Normalize(cost, Wrap(op, qs))
       <==> SameGroup(cost, op, NormalizeAll(cost, ps), NormalizeAll(cost, qs))
  {
    forall i | 0 <= i < |ps| { NormalizeIsNormal(cost, ps[i]); }
    forall i | 0 <= i < |qs| { NormalizeIsNormal(cost, qs[i]); }
    assert Normalize(cost, Wrap(op, ps)) == Regroup(cost, op, NormalizeAll(cost, ps));
    assert Normalize(cost, Wrap(op, qs)) == Regroup(cost, op, NormalizeAll(cost, qs));
    SameRegroupExactlyWhenSameGroup(cost, op, NormalizeAll(cost, ps), NormalizeAll(cost, qs));
  }

  /** An `And` and an `Or` group end alike if and only if both end in the same constant, or in the same single
      predicate that is neither, or one of them is left with the other as its only child. */
  ghost predicate SameAcross(cost: Cost, ps: seq<Pred>, qs: seq<Pred>) {
    var absorbedA, absorbedO := False in Flatten(Conj, ps), True in Flatten(Disj, qs);
    var a, o := Kept(cost, Conj, ps), Kept(cost, Disj, qs);
    if absorbedA && absorbedO then false
    else if absorbedA then o == []
    else if absorbedO then a == []
    else || (|a| == 1 && o == a)
         || (|a| == 1 && |o| >= 2 && a[0] == Or(o))
         || (|o| == 1 && |a| >= 2 && o[0] == And(a))
  }

  lemma FinishAcross(a: seq<Pred>, o: seq<Pred>)
    requires Elements(Conj, a) && Elements(Disj, o)
    ensures Finish(Conj, a) == Finish(Disj, o) <==>
            || (|a| == 1 && o == a)
            || (|a| == 1 && |o| >= 2 && a[0] == Or(o))
            || (|o| == 1 && |a| >= 2 && o[0] == And(a))
    ensures Finish(Conj, a) == True <==> a == []
    ensures Finish(Disj, o) == False <==> o == []
  {
    if |a| == 1 && |o| == 1 { assert o == a <==> o[0] == a[0]; }
  }

  lemma SameRegroupAcrossExactlyWhen(cost: Cost, ps: seq<Pred>, qs: seq<Pred>)
    requires (forall q | q in ps :: Normal(cost, q)) && forall q | q in qs :: Normal(cost, q)
    ensures Regroup(cost, Conj, ps) == Regroup(cost, Disj, qs) <==> SameAcross(cost, ps, qs)
  {
    var a, o := Kept(cost, Conj, ps), Kept(cost, Disj, qs);
    if False !in Flatten(Conj, ps) { KeptElements(cost, Conj, ps); FinishAcross(a, []); }
    if True !in Flatten(Disj, qs) { KeptElements(cost, Disj, qs); FinishAcross([], o); }
    if False !in Flatten(Conj, ps) && True !in Flatten(Disj, qs) { FinishAcross(a, o); }
  }

  /** Two groups of different connectives have the same normal form exactly under that condition. */
  lemma SameNormalFormAcrossExactlyWhen(cost: Cost, ps: seq<Pred>, qs: seq<Pred>)
    ensures Normalize(cost, And(ps)) == Normalize(cost, Or(qs))
       <==> SameAcross(cost, NormalizeAll(cost, ps), NormalizeAll(cost, qs))
  {
    forall i | 0 <= i < |ps| { NormalizeIsNormal(cost, ps[i]); }
    forall i | 0 <= i < |qs| { NormalizeIsNormal(cost, qs[i]); }
    assert Normalize(cost, And(ps)) == Regroup(cost, Conj, NormalizeAll(cost, ps));
    assert Normalize(cost, Or(qs)) == Regroup(cost, Disj, NormalizeAll(cost, qs));
    SameRegroupAcrossExactlyWhen(cost, NormalizeAll(cost, ps), NormalizeAll(cost, qs));
  }

  /* ---- the concrete cost estimate ---- */

  const U16 := 0x1_0000

  function Leaf(p: Pred): nat {
    match p
    case Method(_) => 1
    case Header(h) => (match h case HeaderPrefix(_, _) => 2 case HeaderRegex(_, _) => 10 case _ => 1)
    case _ => 0
  }

  function Cap(sum: nat): (c: nat) ensures c <= 255 { if sum < 255 then sum else 255 }

  /** The estimate over unbounded integers. */
  function IdealCost(p: Pred): (c: nat)
    ensures c <= 255
    decreases p, 0
  {
    match p
    case And(ps) => Cap(IdealSum(ps))
    case Or(ps) => Cap(IdealSum(ps))
    case Not(q) => IdealCost(q)
    case _ => Leaf(p)
  }

  function IdealSum(ps: seq<Pred>): nat
    decreases ps, 1
  {
    if ps == [] then 0 else IdealSum(ps[..|ps| - 1]) + IdealCost(ps[|ps| - 1])
  }

  /** The estimate as computed: the sum of the children's costs is kept in 16 bits. */
  function MachineCost(p: Pred): (c: nat)
    ensures c <= 255
    decreases p, 0
  {
    match p
    case And(ps) => Cap(MachineSum(ps) % U16)
    case Or(ps) => Cap(MachineSum(ps) % U16)
    case Not(q) => MachineCost(q)
    case _ => Leaf(p)
  }

  function MachineSum(ps: seq<Pred>): nat
    decreases ps, 1
  {
    if ps == [] then 0 else MachineSum(ps[..|ps| - 1]) + MachineCost(ps[|ps| - 1])
  }

  /** The costs of the leaves, and of a negation. */
  lemma LeafCosts(m: MethodMatcher, name: string, text: string, q: Pred)
    ensures MachineCost(Method(m)) == 1
    ensures MachineCost(Header(HeaderExact(name, text))) == 1 && MachineCost(Header(HeaderPresent(name))) == 1
    ensures MachineCost(Header(HeaderPrefix(name, text))) == 2 && MachineCost(Header(HeaderRegex(name, text))) == 10
    ensures MachineCost(True) == 0 && MachineCost(False) == 0 && MachineCost(Not(q)) == MachineCost(q)
    ensures MachineCost(And([])) == 0 && MachineCost(And([q, q])) == MachineCost(Or([q, q]))
  {
  }

  predicate IsRegex(p: Pred) { p.Header? && p.ofHeader.HeaderRegex? }

  predicate IsPrefix(p: Pred) { p.Header? && p.ofHeader.HeaderPrefix? }

  /** What the estimate is for: in every normal form a test of the method, of a whole value or of presence stands
      before every prefix test of its group, and those before every regular expression. */
  lemma CheapTestsComeFirst(p: Pred, op: Op, ps: seq<Pred>, i: nat, j: nat)
    requires Normalize(MachineCost, p) == Wrap(op, ps) && i < j < |ps|
    requires ps[j].Method? || ps[j].Header?
    ensures IsRegex(ps[i]) ==> IsRegex(ps[j])
    ensures IsPrefix(ps[i]) ==> IsPrefix(ps[j]) || IsRegex(ps[j])
  {
    NormalizeIsNormal(MachineCost, p);
    assert SortedByCost(MachineCost, ps);
    assert MachineCost(ps[i]) <= MachineCost(ps[j]);
  }

  /** Machine and ideal estimate agree on the tree and on every part of it. */
  predicate ExactEverywhere(p: Pred) {
    && MachineCost(p) == IdealCost(p)
    && (match p
        case And(ps) => forall q | q in ps :: ExactEverywhere(q)
        case Or(ps) => forall q | q in ps :: ExactEverywhere(q)
        case Not(q) => ExactEverywhere(q)
        case _ => true)
  }

  /** The sum survives 16 bits as far as the cap can tell: it fits, or what is left of it is capped too. */
  predicate Survives(sum: nat) { sum < U16 || sum % U16 >= 255 }

  /** Every group's sum survives. */
  predicate AllSurvive(p: Pred) {
    match p
    case And(ps) => Survives(IdealSum(ps)) && forall q | q in ps :: AllSurvive(q)
    case Or(ps) => Survives(IdealSum(ps)) && forall q | q in ps :: AllSurvive(q)
    case Not(q) => AllSurvive(q)
    case _ => true
  }

  lemma {:induction false} ExactChildrenExactSum(ps: seq<Pred>)
    requires forall q | q in ps :: MachineCost(q) == IdealCost(q)
    ensures MachineSum(ps) == IdealSum(ps)
  {
    if ps != [] {
      assert ps[|ps| - 1] in ps;
      ExactChildrenExactSum(ps[..|ps| - 1]);
    }
  }

  lemma CapSurvives(sum: nat)
    ensures Cap(sum % U16) == Cap(sum) <==> Survives(sum)
  {
  }

  /** At a node with exact children. */
  lemma ExactNodeExactlyWhenSurvives(op: Op, ps: seq<Pred>)
    requires forall q | q in ps :: MachineCost(q) == IdealCost(q)
    ensures MachineCost(Wrap(op, ps)) == IdealCost(Wrap(op, ps)) <==> Survives(IdealSum(ps))
  {
    ExactChildrenExactSum(ps);
    CapSurvives(IdealSum(ps));
    assert IdealCost(Wrap(op, ps)) == Cap(IdealSum(ps));
    assert MachineCost(Wrap(op, ps)) == Cap(MachineSum(ps) % U16);
  }

  /** For a whole tree: the 16-bit estimate is exact in every part if and only if every group's sum
      survives. */
  lemma {:induction false} ExactExactlyWhenSumsSurvive(p: Pred)
    ensures ExactEverywhere(p) <==> AllSurvive(p)
  {
    match p
    case And(ps) =>
      forall q | q in ps { ExactExactlyWhenSumsSurvive(q); }
      if forall q | q in ps :: ExactEverywhere(q) { ExactNodeExactlyWhenSurvives(Conj, ps); }
    case Or(ps) =>
      forall q | q in ps { ExactExactlyWhenSumsSurvive(q); }
      if forall q | q in ps :: ExactEverywhere(q) { ExactNodeExactlyWhenSurvives(Disj, ps); }
    case Not(q) => ExactExactlyWhenSumsSurvive(q);
    case _ =>
  }

  /** No group's sum reaches 2^16. */
  predicate AllFit(p: Pred) {
    match p
    case And(ps) => IdealSum(ps) < U16 && forall q | q in ps :: AllFit(q)
    case Or(ps) => IdealSum(ps) < U16 && forall q | q in ps :: AllFit(q)
    case Not(q) => AllFit(q)
    case _ => true
  }

  lemma {:induction false} FittingCostIsExact(p: Pred)
    requires AllFit(p)
    ensures ExactEverywhere(p)
  {
    FittingSurvives(p);
    ExactExactlyWhenSumsSurvive(p);
  }

  lemma {:induction false} FittingSurvives(p: Pred)
    requires AllFit(p)
    ensures AllSurvive(p)
  {
    match p
    case And(ps) => forall q | q in ps { FittingSurvives(q); }
    case Or(ps) => forall q | q in ps { FittingSurvives(q); }
    case Not(q) => FittingSurvives(q);
    case _ =>
  }

  const MAX_CHILDREN := 257

  /** No group of the tree has more than 257 children. */
  predicate Narrow(p: Pred) {
    match p
    case And(ps) => |ps| <= MAX_CHILDREN && forall q | q in ps :: Narrow(q)
    case Or(ps) => |ps| <= MAX_CHILDREN && forall q | q in ps :: Narrow(q)
    case Not(q) => Narrow(q)
    case _ => true
  }

  lemma {:induction false} SumBound(ps: seq<Pred>)
    ensures IdealSum(ps) <= 255 * |ps|
  {
    if ps != [] { SumBound(ps[..|ps| - 1]); }
  }

  lemma {:induction false} NarrowFits(p: Pred)
    requires Narrow(p)
    ensures AllFit(p)
  {
    match p
    case And(ps) => SumBound(ps); forall q | q in ps { NarrowFits(q); }
    case Or(ps) => SumBound(ps); forall q | q in ps { NarrowFits(q); }
    case Not(q) => NarrowFits(q);
    case _ =>
  }

  /** The bound that needs no sums: 257 children at most. */
  lemma NarrowCostIsExact(p: Pred)
    requires Narrow(p)
    ensures ExactEverywhere(p)
  {
    NarrowFits(p);
    FittingCostIsExact(p);
  }

  /* ---- where the documented claims stop ---- */

  function Word(n: nat): string { seq(n, _ => 'x') }

  /** A leaf per pair of numbers, of cost 10. */
  function RegexLeaf(i: nat, j: nat): Pred { Header(HeaderRegex(Word(i), Word(j))) }

  lemma RegexLeafInjective(i: nat, j: nat, i': nat, j': nat)
    ensures RegexLeaf(i, j) == RegexLeaf(i', j') ==> i == i' && j == j'
  {
    assert |Word(i)| == i && |Word(j)| == j && |Word(i')| == i' && |Word(j')| == j';
  }

  lemma LeafGroupIsFixed(cost: Cost, ps: seq<Pred>)
    requires |ps| >= 2 && NoAdjacentEqual(ps)
    requires forall i | 0 <= i < |ps| :: ps[i].Header? && cost(ps[i]) == cost(ps[0])
    ensures Normalize(cost, And(ps)) == And(ps)
  {
    NormalIsFixed(cost, And(ps));
  }

  /** Duplicates survive when a different predicate of the same cost stands between them. */
  lemma DuplicatesSurvive(cost: Cost, a: Pred, b: Pred)
    requires a.Header? && b.Header? && a != b && cost(a) == cost(b)
    ensures Normalize(cost, And([a, b, a])) == And([a, b, a])
  {
    LeafGroupIsFixed(cost, [a, b, a]);
  }

  /** Equivalent predicates can keep different normal forms. */
  lemma NormalFormIsNotCanonical(cost: Cost, a: Pred, b: Pred)
    requires a.Header? && b.Header? && a != b && cost(a) == cost(b)
    ensures Normalize(cost, And([a, b])) != Normalize(cost, And([b, a]))
    ensures forall v: Valuation :: HoldsList(v, Conj, [a, b]) == HoldsList(v, Conj, [b, a])
  {
    LeafGroupIsFixed(cost, [a, b]);
    LeafGroupIsFixed(cost, [b, a]);
    assert [a, b][0] != [b, a][0];
  }

  /** 26 regex leaves: cost 260, capped to 255. */
  function Costly(i: nat): Pred { Or(seq(26, j requires 0 <= j < 26 => RegexLeaf(i, j))) }

  function CostlyRun(from: nat, n: nat): seq<Pred> { seq(n, i requires 0 <= i < n => Costly(from + i)) }

  lemma {:induction false} RegexSum(ps: seq<Pred>)
    requires |ps| <= 26 && forall q | q in ps :: q.Header? && q.ofHeader.HeaderRegex?
    ensures MachineSum(ps) == 10 * |ps|
  {
    if ps != [] {
      assert ps[|ps| - 1] in ps;
      RegexSum(ps[..|ps| - 1]);
    }
  }

  lemma CostlyFacts(i: nat)
    ensures MachineCost(Costly(i)) == 255 && Normal(MachineCost, Costly(i)) && Narrow(Costly(i))
  {
    var ps := Costly(i).disjuncts;
    RegexSum(ps);
    forall k | 0 < k < |ps| ensures ps[k - 1] != ps[k] { RegexLeafInjective(i, k - 1, i, k); }
  }

  lemma {:induction false} FullCostSum(ps: seq<Pred>)
    requires forall q | q in ps :: MachineCost(q) == 255
    ensures MachineSum(ps) == 255 * |ps|
  {
    if ps != [] {
      assert ps[|ps| - 1] in ps;
      FullCostSum(ps[..|ps| - 1]);
    }
  }

  lemma CostlyDistinct(i: nat, j: nat)
    requires i != j
    ensures Costly(i) != Costly(j)
  {
    RegexLeafInjective(i, 0, j, 0);
    assert Costly(i).disjuncts[0] == RegexLeaf(i, 0) && Costly(j).disjuncts[0] == RegexLeaf(j, 0);
  }

  lemma CostlyMembers(from: nat, n: nat)
    ensures forall q | q in CostlyRun(from, n) ::
      q.Or? && MachineCost(q) == 255 && Normal(MachineCost, q) && Narrow(q)
  {
    forall k | 0 <= k < n
      ensures var q := CostlyRun(from, n)[k];
        q.Or? && MachineCost(q) == 255 && Normal(MachineCost, q) && Narrow(q)
    {
      CostlyFacts(from + k);
    }
  }

  lemma CostlyGroupIsNormal(from: nat, n: nat)
    requires n >= 2
    ensures NormalGroup(MachineCost, Conj, CostlyRun(from, n)) && Normal(MachineCost, And(CostlyRun(from, n)))
  {
    var ps := CostlyRun(from, n);
    CostlyMembers(from, n);
    forall k | 0 < k < n ensures ps[k - 1] != ps[k] { CostlyDistinct(from + k - 1, from + k); }
    assert forall k | 0 <= k < n :: ps[k] in ps;
  }

  lemma FlattenTwoGroups(ps: seq<Pred>, qs: seq<Pred>)
    ensures Flatten(Conj, [And(ps), And(qs)]) == ps + qs
  {
    var two := [And(ps), And(qs)];
    assert two[..1] == [And(ps)] && [And(ps)][..0] == [];
    assert Flatten(Conj, [And(ps)]) == [] + ps;
  }

  lemma NormalGroupsMerge(cost: Cost, ps: seq<Pred>, qs: seq<Pred>)
    requires Normal(cost, And(ps)) && Normal(cost, And(qs)) && NormalGroup(cost, Conj, ps + qs)
    ensures Normalize(cost, And([And(ps), And(qs)])) == And(ps + qs)
  {
    NormalIsFixed(cost, And(ps));
    NormalIsFixed(cost, And(qs));
    var two := [And(ps), And(qs)];
    var normal := seq(|two|, i requires 0 <= i < |two| => Normalize(cost, two[i]));
    assert normal == two;
    FlattenTwoGroups(ps, qs);
    FlattenOfElements(Conj, ps + qs);
    RegroupOfNormalGroup(cost, Conj, ps + qs);
    assert Regroup(cost, Conj, two) == Regroup(cost, Conj, ps + qs);
  }

  lemma TwoCostlyGroupsAreNarrow(m: nat)
    requires m <= MAX_CHILDREN
    ensures Narrow(And([And(CostlyRun(0, m)), And(CostlyRun(m, m))]))
  {
    CostlyMembers(0, m);
    CostlyMembers(m, m);
  }

  /** ... and from 258 children on, the 16-bit sum of such a group is not its sum: at 258 children of
      cost 255 the estimate drops to 254. */
  lemma CostlyGroupCost(n: nat)
    ensures MachineCost(And(CostlyRun(0, n))) == Cap((255 * n) % U16)
  {
    CostlyMembers(0, n);
    FullCostSum(CostlyRun(0, n));
  }

  /** Two groups of m children each, with m at most 257, merge into one group of 2m children. */
  lemma FlatteningOutgrowsTheBound(m: nat)
    requires 2 <= m <= MAX_CHILDREN
    ensures Narrow(And([And(CostlyRun(0, m)), And(CostlyRun(m, m))]))
    ensures Normalize(MachineCost, And([And(CostlyRun(0, m)), And(CostlyRun(m, m))])) == And(CostlyRun(0, m + m))
  {
    TwoCostlyGroupsAreNarrow(m);
    CostlyGroupIsNormal(0, m);
    CostlyGroupIsNormal(m, m);
    CostlyGroupIsNormal(0, m + m);
    assert CostlyRun(0, m) + CostlyRun(m, m) == CostlyRun(0, m + m);
    NormalGroupsMerge(MachineCost, CostlyRun(0, m), CostlyRun(m, m));
  }
}
