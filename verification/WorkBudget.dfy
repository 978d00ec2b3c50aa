/**
 BackgroundWorkSlice (src/backgroundWorkBudget.ts): the admission object of background
 work. Each reading of performance.now() is a parameter.
 */
module WorkBudget {
  import opened Arithmetic

  datatype Limits = Limits(maxTargets: int, maxRoundTrips: int, maxContinuousMs: real, yieldEvery: int)

  const RECOVERY_WORK_LIMITS := Limits(16, 384, 25.0, 8)
  const CONNECTION_WORK_LIMITS := Limits(32, 192, 25.0, 8)

  /** The mutable fields of a slice. */
  datatype Slice = Slice(targets: int, roundTrips: int, continuousStartedAt: real)

  datatype Outcome = Outcome(granted: bool, slice: Slice)

  /** reserve: no round trips beyond the limit, and none in an expired continuous span after the first target. */
  function Reserved(limits: Limits, s: Slice, estimate: int, now: real): Outcome {
    if s.roundTrips + estimate > limits.maxRoundTrips
       || (s.targets > 0 && now - s.continuousStartedAt >= limits.maxContinuousMs)
    then Outcome(false, s)
    else Outcome(true, s.(roundTrips := s.roundTrips + estimate))
  }

  function Taken(limits: Limits, s: Slice, estimate: int, now: real): Outcome {
    if s.targets >= limits.maxTargets then Outcome(false, s)
    else
      var r := Reserved(limits, s, estimate, now);
      if r.granted then Outcome(true, r.slice.(targets := s.targets + 1)) else r
  }

  /** `targets % yieldEvery === 0`, false for a zero yieldEvery. */
  predicate YieldDue(limits: Limits, s: Slice) {
    limits.yieldEvery != 0 && s.targets % limits.yieldEvery == 0
  }

  function Yielded(limits: Limits, s: Slice, now: real): Slice {
    if YieldDue(limits, s) then s.(continuousStartedAt := now) else s
  }

  class BackgroundWorkSlice {
    const limits: Limits
    const startedAt: real
    var continuousStartedAt: real
    var targets: int
    var roundTrips: int

    constructor (limits: Limits, now: real)
      ensures this.limits == limits && startedAt == now && View() == Slice(0, 0, now)
    {
      this.limits := limits;
      startedAt, continuousStartedAt := now, now;
      targets, roundTrips := 0, 0;
    }

    function View(): Slice
      reads this
    {
      Slice(targets, roundTrips, continuousStartedAt)
    }

    method Take(estimatedRoundTrips: int, now: real) returns (granted: bool)
      modifies this
      ensures Outcome(granted, View()) == Taken(limits, old(View()), estimatedRoundTrips, now)
    {
      if targets >= limits.maxTargets {
        return false;
      }
      var reserved := Reserve(estimatedRoundTrips, now);
      if !reserved {
        return false;
      }
      targets := targets + 1;
      return true;
    }

    method Reserve(estimatedRoundTrips: int, now: real) returns (granted: bool)
      modifies this`roundTrips
      ensures Outcome(granted, View()) == Reserved(limits, old(View()), estimatedRoundTrips, now)
    {
      if roundTrips + estimatedRoundTrips > limits.maxRoundTrips {
        return false;
      }
      if targets > 0 && now - continuousStartedAt >= limits.maxContinuousMs {
        return false;
      }
      roundTrips := roundTrips + estimatedRoundTrips;
      return true;
    }

    method YieldIfNeeded(now: real)
      modifies this`continuousStartedAt
      ensures View() == Yielded(limits, old(View()), now)
    {
      if limits.yieldEvery != 0 && targets % limits.yieldEvery == 0 {
        continuousStartedAt := now;
      }
    }

    /** The turn after an awaited operation, whether it resolved or threw. */
    method AwaitExternal(now: real)
      modifies this`continuousStartedAt
      ensures View() == old(View()).(continuousStartedAt := now)
    {
      continuousStartedAt := now;
    }
  }

  // ------------------------------------------------------------------ whole runs

  datatype Op =
    | Take(estimate: int, now: real)
    | Reserve(estimate: int, now: real)
    | YieldIfNeeded(now: real)
    | AwaitExternal(now: real)

  function Attempt(limits: Limits, s: Slice, op: Op): Outcome {
    match op
    case Take(estimate, now) => Taken(limits, s, estimate, now)
    case Reserve(estimate, now) => Reserved(limits, s, estimate, now)
    case YieldIfNeeded(now) => Outcome(true, Yielded(limits, s, now))
    case AwaitExternal(now) => Outcome(true, s.(continuousStartedAt := now))
  }

  function Run(limits: Limits, s: Slice, ops: seq<Op>): Slice {
    if ops == [] then s else Attempt(limits, Run(limits, s, ops[..|ops| - 1]), ops[|ops| - 1]).slice
  }

  predicate IsCharge(op: Op) { op.Take? || op.Reserve? }

  /** The estimates granted over a run. */
  function Granted(limits: Limits, s: Slice, ops: seq<Op>): int {
    if ops == [] then 0
    else
      var op := ops[|ops| - 1];
      var before := Run(limits, s, ops[..|ops| - 1]);
      Granted(limits, s, ops[..|ops| - 1])
      + (if IsCharge(op) && Attempt(limits, before, op).granted then op.estimate else 0)
  }

  /** The targets granted over a run. */
  function GrantedTargets(limits: Limits, s: Slice, ops: seq<Op>): nat {
    if ops == [] then 0
    else
      var op := ops[|ops| - 1];
      var before := Run(limits, s, ops[..|ops| - 1]);
      GrantedTargets(limits, s, ops[..|ops| - 1])
      + (if op.Take? && Attempt(limits, before, op).granted then 1 else 0)
  }

  /** The fields of a slice are the accounts of its run, whatever the estimates. */
  lemma {:induction false} AccountsBalance(limits: Limits, s: Slice, ops: seq<Op>)
    ensures Run(limits, s, ops).targets == s.targets + GrantedTargets(limits, s, ops)
    ensures Run(limits, s, ops).roundTrips == s.roundTrips + Granted(limits, s, ops)
  {
    if ops != [] {
      AccountsBalance(limits, s, ops[..|ops| - 1]);
    }
  }

  /** Accounts balance and limits hold over every run; a sweep may start with round trips already charged. */
  lemma {:induction false} BudgetHolds(limits: Limits, s: Slice, ops: seq<Op>)
    requires forall i :: 0 <= i < |ops| && IsCharge(ops[i]) ==> ops[i].estimate >= 0
    ensures
      var r := Run(limits, s, ops);
      && r.targets == s.targets + GrantedTargets(limits, s, ops)
      && r.roundTrips == s.roundTrips + Granted(limits, s, ops)
      && r.targets <= Max(s.targets, limits.maxTargets)
      && s.roundTrips <= r.roundTrips <= Max(s.roundTrips, limits.maxRoundTrips)
  {
    if ops != [] {
      BudgetHolds(limits, s, ops[..|ops| - 1]);
    }
  }

  // ------------------------------------------------------------ turns of a run

  /** Operation i begins a new turn: an external await, or a yield at a multiple of yieldEvery targets. */
  predicate StartsTurn(limits: Limits, s: Slice, ops: seq<Op>, i: int)
    requires 0 <= i < |ops|
  {
    || ops[i].AwaitExternal?
    || (&& ops[i].YieldIfNeeded? && limits.yieldEvery != 0
        && (s.targets + GrantedTargets(limits, s, ops[..i])) % limits.yieldEvery == 0)
  }

  /** Since when the turn lasts that the k-th operation began; the first turn lasts since the slice's own start. */
  function TurnTime(s: Slice, ops: seq<Op>, k: nat): real
    requires k <= |ops|
  {
    if k == 0 then s.continuousStartedAt else ops[k - 1].now
  }

  /** All operations from k on are in the turn that operation k - 1 began. */
  ghost predicate InOneTurn(limits: Limits, s: Slice, ops: seq<Op>, k: nat)
    requires k <= |ops|
  {
    && (k == 0 || StartsTurn(limits, s, ops, k - 1))
    && forall i :: k <= i < |ops| ==> !StartsTurn(limits, s, ops, i)
  }

  /** How many operations a run has before its last turn. */
  function LastTurn(limits: Limits, s: Slice, ops: seq<Op>): (k: nat)
    ensures k <= |ops|
  {
    if ops == [] then 0
    else if StartsTurn(limits, s, ops, |ops| - 1) then |ops|
    else LastTurn(limits, s, ops[..|ops| - 1])
  }

  lemma TurnInPrefix(limits: Limits, s: Slice, ops: seq<Op>, i: nat)
    requires i < |ops| - 1
    ensures StartsTurn(limits, s, ops, i) <==> StartsTurn(limits, s, ops[..|ops| - 1], i)
  {
    assert ops[..|ops| - 1][..i] == ops[..i];
  }

  lemma {:induction false} LastTurnIs(limits: Limits, s: Slice, ops: seq<Op>)
    ensures InOneTurn(limits, s, ops, LastTurn(limits, s, ops))
  {
    if ops != [] && !StartsTurn(limits, s, ops, |ops| - 1) {
      var init, k := ops[..|ops| - 1], LastTurn(limits, s, ops);
      LastTurnIs(limits, s, init);
      forall i | 0 <= i < |init| ensures StartsTurn(limits, s, ops, i) <==> StartsTurn(limits, s, init, i) {
        TurnInPrefix(limits, s, ops, i);
      }
    }
  }

  /** The stored start of the continuous span is when the last turn of the run began. */
  lemma {:induction false} SpanIsLastTurn(limits: Limits, s: Slice, ops: seq<Op>)
    ensures Run(limits, s, ops).continuousStartedAt == TurnTime(s, ops, LastTurn(limits, s, ops))
  {
    if ops != [] {
      SpanIsLastTurn(limits, s, ops[..|ops| - 1]);
      AccountsBalance(limits, s, ops[..|ops| - 1]);
    }
  }

  /** performance.now() never goes back. */
  ghost predicate Monotone(s: Slice, ops: seq<Op>) {
    && (forall i :: 0 <= i < |ops| ==> s.continuousStartedAt <= ops[i].now)
    && (forall i, j :: 0 <= i < j < |ops| ==> ops[i].now <= ops[j].now)
  }

  predicate GrantedNext(limits: Limits, s: Slice, ops: seq<Op>, op: Op) {
    Attempt(limits, Run(limits, s, ops), op).granted
  }

  /**
   Admission, told from the history alone: a charge is granted exactly while what was
   granted before leaves room in both limits and, once a target was granted, the turn
   that the history is in lasts less than maxContinuousMs. A refusal changes nothing.
   */
  lemma GrantedExactly(limits: Limits, s: Slice, ops: seq<Op>, op: Op)
    requires IsCharge(op)
    ensures GrantedNext(limits, s, ops, op) <==>
      && (op.Take? ==> s.targets + GrantedTargets(limits, s, ops) < limits.maxTargets)
      && s.roundTrips + Granted(limits, s, ops) + op.estimate <= limits.maxRoundTrips
      && (s.targets + GrantedTargets(limits, s, ops) > 0 ==>
            op.now - TurnTime(s, ops, LastTurn(limits, s, ops)) < limits.maxContinuousMs)
    ensures !GrantedNext(limits, s, ops, op) ==> Run(limits, s, ops + [op]) == Run(limits, s, ops)
  {
    assert (ops + [op])[..|ops|] == ops;
    AccountsBalance(limits, s, ops);
    SpanIsLastTurn(limits, s, ops);
  }

  /**
   Under a monotone clock a turn is short: from its begin, and from every operation in
   it, to any charge granted in it after the first target, less than maxContinuousMs pass.
   */
  lemma GrantsAreInSpan(limits: Limits, s: Slice, ops: seq<Op>, op: Op)
    requires Monotone(s, ops + [op]) && IsCharge(op) && GrantedNext(limits, s, ops, op)
    requires s.targets + GrantedTargets(limits, s, ops) > 0
    ensures
      var k := LastTurn(limits, s, ops);
      && InOneTurn(limits, s, ops, k)
      && 0.0 <= op.now - TurnTime(s, ops, k) < limits.maxContinuousMs
      && forall i :: k <= i < |ops| ==> 0.0 <= op.now - ops[i].now < limits.maxContinuousMs
  {
    var all, k := ops + [op], LastTurn(limits, s, ops);
    LastTurnIs(limits, s, ops);
    GrantedExactly(limits, s, ops, op);
    assert forall i :: 0 <= i < |ops| ==> all[i] == ops[i];
    assert all[|ops|] == op;
  }

  // ------------------------------------------------------- yielding on schedule

  /** What a caller that calls yieldIfNeeded after every granted take does. */
  datatype Turn =
    | TakeAndYield(estimate: int, now: real, resumed: real)
    | ReserveOnly(estimate: int, now: real)
    | Await(now: real)

  /** A slice with the number of targets taken since its continuous span began. */
  datatype Paced = Paced(slice: Slice, inSpan: nat)

  /** The slice right after the take of a turn, before any yield. */
  function AfterTake(limits: Limits, p: Paced, t: Turn): Paced {
    if t.TakeAndYield? && Taken(limits, p.slice, t.estimate, t.now).granted then
      Paced(Taken(limits, p.slice, t.estimate, t.now).slice, p.inSpan + 1)
    else p
  }

  function TakeTurn(limits: Limits, p: Paced, t: Turn): Paced {
    match t
    case TakeAndYield(estimate, now, resumed) =>
      var r := AfterTake(limits, p, t);
      if Taken(limits, p.slice, estimate, now).granted && YieldDue(limits, r.slice)
      then Paced(Yielded(limits, r.slice, resumed), 0) else r
    case ReserveOnly(estimate, now) => p.(slice := Reserved(limits, p.slice, estimate, now).slice)
    case Await(now) => Paced(p.slice.(continuousStartedAt := now), 0)
  }

  function TakeTurns(limits: Limits, p: Paced, turns: seq<Turn>): Paced {
    if turns == [] then p else TakeTurn(limits, TakeTurns(limits, p, turns[..|turns| - 1]), turns[|turns| - 1])
  }

  /** A continuous span never holds more than yieldEvery targets, at any moment of any such run. */
  lemma {:induction false} SpansAreShort(limits: Limits, now: real, turns: seq<Turn>)
    requires limits.yieldEvery > 0
    ensures
      var p := TakeTurns(limits, Paced(Slice(0, 0, now), 0), turns);
      && p.slice.targets >= 0
      && p.inSpan <= p.slice.targets % limits.yieldEvery
      && forall t: Turn :: AfterTake(limits, p, t).inSpan <= limits.yieldEvery
  {
    if turns != [] {
      var before := TakeTurns(limits, Paced(Slice(0, 0, now), 0), turns[..|turns| - 1]);
      SpansAreShort(limits, now, turns[..|turns| - 1]);
      NextRemainder(before.slice.targets, limits.yieldEvery);
    }
  }

  // --------------------------------------------------------------- exact capacity

  /** How many takes a run attempts. */
  function Attempts(ops: seq<Op>): nat {
    if ops == [] then 0 else Attempts(ops[..|ops| - 1]) + (if ops[|ops| - 1].Take? then 1 else 0)
  }

  /** How many takes of one cost the two limits leave room for. */
  function Capacity(limits: Limits, s: Slice, cost: int): int
    requires cost >= 1
  {
    var byTargets, byTrips := limits.maxTargets - s.targets, (limits.maxRoundTrips - s.roundTrips) / cost;
    Max(0, Min(byTargets, byTrips))
  }

  /** Takes of one cost, yields and awaits; every take after the first target in time for the turn it is in. */
  ghost predicate InTime(limits: Limits, s: Slice, cost: int, ops: seq<Op>) {
    forall i :: 0 <= i < |ops| ==> TakeInTime(limits, s, cost, ops[..i], ops[i])
  }

  predicate TakeInTime(limits: Limits, s: Slice, cost: int, before: seq<Op>, op: Op) {
    && !op.Reserve?
    && (op.Take? ==>
          && op.estimate == cost
          && (s.targets + GrantedTargets(limits, s, before) > 0 ==>
                op.now - TurnTime(s, before, LastTurn(limits, s, before)) < limits.maxContinuousMs))
  }

  lemma InTimePrefix(limits: Limits, s: Slice, cost: int, ops: seq<Op>)
    requires ops != [] && InTime(limits, s, cost, ops)
    ensures InTime(limits, s, cost, ops[..|ops| - 1])
  {
    var init := ops[..|ops| - 1];
    forall i | 0 <= i < |init| ensures TakeInTime(limits, s, cost, init[..i], init[i]) {
      assert init[i] == ops[i] && init[..i] == ops[..i];
    }
  }

  /** Exactly the capacity is granted, however many takes are tried and however the clock runs within the turns. */
  lemma {:induction false} CapacityIsExact(limits: Limits, s: Slice, cost: int, ops: seq<Op>)
    requires cost >= 1 && InTime(limits, s, cost, ops)
    ensures
      var taken := if Attempts(ops) < Capacity(limits, s, cost) then Attempts(ops) else Capacity(limits, s, cost);
      && Run(limits, s, ops).targets == s.targets + taken
      && Run(limits, s, ops).roundTrips == s.roundTrips + taken * cost
  {
    if ops != [] {
      var init, op := ops[..|ops| - 1], ops[|ops| - 1];
      InTimePrefix(limits, s, cost, ops);
      CapacityIsExact(limits, s, cost, init);
      SpanIsLastTurn(limits, s, init);
      AccountsBalance(limits, s, init);
      assert TakeInTime(limits, s, cost, init, op);
      if op.Take? {
        var capacity := Capacity(limits, s, cost);
        var taken := if Attempts(init) < capacity then Attempts(init) else capacity;
        OneMoreTake(limits, s, cost, taken);
      }
    }
  }

  /** After some takes there is room for one more exactly below the capacity. */
  lemma OneMoreTake(limits: Limits, s: Slice, cost: int, taken: nat)
    requires cost >= 1 && taken <= Capacity(limits, s, cost)
    ensures taken < Capacity(limits, s, cost) <==>
      s.targets + taken < limits.maxTargets && s.roundTrips + taken * cost + cost <= limits.maxRoundTrips
    ensures (taken + 1) * cost == taken * cost + cost
  {
    QuotientBound(taken + 1, limits.maxRoundTrips - s.roundTrips, cost);
    assert (taken + 1) * cost == taken * cost + cost;
  }

  /** What the two shipped limits grant at any time: 384 or 192 round trips, 16 or 32 targets, 25 ms, a yield at every 8th target. */
  lemma ShippedLimits(s: Slice, estimate: int, now: real)
    ensures Attempt(RECOVERY_WORK_LIMITS, s, Reserve(estimate, now)).granted <==>
      s.roundTrips + estimate <= 384 && (s.targets > 0 ==> now - s.continuousStartedAt < 25.0)
    ensures Attempt(CONNECTION_WORK_LIMITS, s, Reserve(estimate, now)).granted <==>
      s.roundTrips + estimate <= 192 && (s.targets > 0 ==> now - s.continuousStartedAt < 25.0)
    ensures Attempt(RECOVERY_WORK_LIMITS, s, Take(estimate, now)).granted <==>
      s.targets < 16 && Attempt(RECOVERY_WORK_LIMITS, s, Reserve(estimate, now)).granted
    ensures Attempt(CONNECTION_WORK_LIMITS, s, Take(estimate, now)).granted <==>
      s.targets < 32 && Attempt(CONNECTION_WORK_LIMITS, s, Reserve(estimate, now)).granted
    ensures forall limits :: limits in {RECOVERY_WORK_LIMITS, CONNECTION_WORK_LIMITS} ==>
      Attempt(limits, s, YieldIfNeeded(now)).slice.continuousStartedAt
      == if s.targets % 8 == 0 then now else s.continuousStartedAt
  {
  }

  /** The shipped envelopes: a recovery sweep, one round trip already charged, and a connection sweep. */
  lemma ShippedCapacities(now: real, ops: seq<Op>)
    ensures
      var s := Slice(0, 1, now);
      InTime(RECOVERY_WORK_LIMITS, s, 12, ops) && Attempts(ops) >= 16 ==>
        && Run(RECOVERY_WORK_LIMITS, s, ops).targets == 16 && Run(RECOVERY_WORK_LIMITS, s, ops).roundTrips == 193
    ensures
      var s := Slice(0, 0, now);
      InTime(CONNECTION_WORK_LIMITS, s, 6, ops) && Attempts(ops) >= 32 ==>
        && Run(CONNECTION_WORK_LIMITS, s, ops).targets == 32 && Run(CONNECTION_WORK_LIMITS, s, ops).roundTrips == 192
  {
    if InTime(RECOVERY_WORK_LIMITS, Slice(0, 1, now), 12, ops) {
      CapacityIsExact(RECOVERY_WORK_LIMITS, Slice(0, 1, now), 12, ops);
    }
    if InTime(CONNECTION_WORK_LIMITS, Slice(0, 0, now), 6, ops) {
      CapacityIsExact(CONNECTION_WORK_LIMITS, Slice(0, 0, now), 6, ops);
    }
  }
}
