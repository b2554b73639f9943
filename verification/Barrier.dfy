// The barrier relays under the receiver threads and the pulse thread, one relay
// write at a time.
module Barrier {

  datatype Order = Lower | Raise | Neither

  // Where a receiver thread is in BalusTrade.
  datatype Place =
    | Idle
    | Joining(order: Order)
    | FirstWrite(order: Order)
    | SecondWrite(order: Order)
    | Spawning(order: Order)

  // The pulse thread: none, asleep for its second, between its two writes, or
  // finished and waiting to be joined.
  datatype Pulse = NoThread | Sleeping | UpCleared | Ended

  datatype State = State(up: bool, down: bool, pulse: Pulse, r1: Place, r2: Place)

  const START := State(false, false, NoThread, Idle, Idle)

  predicate PulseStep(s: State, t: State) {
    || (s.pulse.Sleeping? && t == s.(pulse := UpCleared, up := false))
    || (s.pulse.UpCleared? && t == s.(pulse := Ended, down := false))
  }

  // A step of a receiver from place p to place q; the other one stays.
  predicate ReceiverStep(s: State, t: State, p: Place, q: Place) {
    match p
    case Idle =>
      q.Joining? && (t.up, t.down, t.pulse) == (s.up, s.down, s.pulse)
    case Joining(o) =>
      && (s.pulse.NoThread? || s.pulse.Ended?)
      && q == (if o == Neither then Idle else FirstWrite(o))
      && (t.up, t.down, t.pulse) == (s.up, s.down, NoThread)
    case FirstWrite(o) =>
      q == SecondWrite(o) && (t.up, t.down, t.pulse) == (o == Raise, s.down, s.pulse)
    case SecondWrite(o) =>
      q == Spawning(o) && (t.up, t.down, t.pulse) == (s.up, o == Lower, s.pulse)
    case Spawning(o) =>
      q == Idle && s.pulse.NoThread? && (t.up, t.down, t.pulse) == (s.up, s.down, Sleeping)
  }

  predicate Next(s: State, t: State) {
    || PulseStep(s, t)
    || (ReceiverStep(s, t, s.r1, t.r1) && t.r2 == s.r2)
    || (ReceiverStep(s, t, s.r2, t.r2) && t.r1 == s.r1)
  }

  predicate IsRun(run: seq<State>) {
    && run != [] && run[0] == START
    && forall k :: 0 <= k < |run| - 1 ==> Next(run[k], run[k + 1])
  }

  predicate AtRest(p: Place) {
    p.Idle? || p.Joining?
  }

  // At most one receiver is past the join.
  predicate Exclusive(s: State) {
    AtRest(s.r1) || AtRest(s.r2)
  }

  predicate Interlocked(s: State) {
    !(s.up && s.down)
  }

  // A relay that is on while no receiver is past the join has a pulse that will
  // switch it off.
  predicate Supervised(s: State) {
    AtRest(s.r1) && AtRest(s.r2) && (s.up || s.down) ==> s.pulse.Sleeping? || s.pulse.UpCleared?
  }

  predicate PlaceInv(s: State, p: Place) {
    match p
    case Idle => true
    case Joining(o) => true
    case FirstWrite(o) => o != Neither && s.pulse.NoThread? && !s.up && !s.down
    case SecondWrite(o) => o != Neither && s.pulse.NoThread? && s.up == (o == Raise) && !s.down
    case Spawning(o) => o != Neither && s.pulse.NoThread? && s.up == (o == Raise) && s.down == (o == Lower)
  }

  predicate Inv(s: State) {
    && Exclusive(s) && Interlocked(s)
    && PlaceInv(s, s.r1) && PlaceInv(s, s.r2)
    && (AtRest(s.r1) && AtRest(s.r2) ==>
          match s.pulse
          case NoThread => !s.up && !s.down
          case Sleeping => true
          case UpCleared => !s.up
          case Ended => !s.up && !s.down)
  }

  lemma {:induction false} RunKeepsInv(run: seq<State>, n: nat)
    requires IsRun(run) && n < |run|
    requires forall k :: 0 <= k <= n ==> Exclusive(run[k])
    ensures Inv(run[n])
  {
    if n > 0 {
      RunKeepsInv(run, n - 1);
      assert Next(run[n - 1], run[n - 1 + 1]);
    }
  }

  // Over every run with at most one receiver past the join the two relays are
  // never on together, and no relay stays on without a pending pulse.
  lemma {:induction false} InterlockOnExclusiveRuns(run: seq<State>)
    requires IsRun(run) && forall k :: 0 <= k < |run| ==> Exclusive(run[k])
    ensures forall k :: 0 <= k < |run| ==> Interlocked(run[k]) && Supervised(run[k])
  {
    forall k | 0 <= k < |run| ensures Interlocked(run[k]) && Supervised(run[k]) {
      RunKeepsInv(run, k);
    }
  }

  // A pending pulse can always move, and after at most two moves both relays are off.
  function PulseMove(s: State): State {
    match s.pulse
    case Sleeping => s.(pulse := UpCleared, up := false)
    case UpCleared => s.(pulse := Ended, down := false)
    case _ => s
  }

  lemma PulseSwitchesOff(run: seq<State>)
    requires IsRun(run) && forall k :: 0 <= k < |run| ==> Exclusive(run[k])
    requires var s := run[|run| - 1]; AtRest(s.r1) && AtRest(s.r2)
    ensures var s := run[|run| - 1];
            var t := PulseMove(PulseMove(s));
            && !t.up && !t.down
            && (s.up || s.down ==> PulseStep(s, PulseMove(s)))
  {
    RunKeepsInv(run, |run| - 1);
  }

  // ----- the exact condition

  // The order a receiver is carrying out, if any.
  predicate Permitted(p: Place, orders: set<Order>) {
    p.Idle? || p.order in orders
  }

  // A run on which only these orders come in, with or without exclusion.
  predicate RunOf(run: seq<State>, orders: set<Order>, exclusive: bool) {
    && IsRun(run)
    && (forall k :: 0 <= k < |run| ==> Permitted(run[k].r1, orders) && Permitted(run[k].r2, orders))
    && (exclusive ==> forall k :: 0 <= k < |run| ==> Exclusive(run[k]))
  }

  ghost predicate AlwaysInterlocked(orders: set<Order>, exclusive: bool) {
    forall run: seq<State> :: RunOf(run, orders, exclusive) ==> forall k :: 0 <= k < |run| ==> Interlocked(run[k])
  }

  // However the receivers overlap, a relay that no order switches on stays off.
  lemma {:induction false} RelayWithoutOrderStaysOff(run: seq<State>, orders: set<Order>, exclusive: bool, n: nat)
    requires RunOf(run, orders, exclusive) && n < |run|
    ensures Raise !in orders ==> !run[n].up
    ensures Lower !in orders ==> !run[n].down
  {
    if n > 0 {
      RelayWithoutOrderStaysOff(run, orders, exclusive, n - 1);
      assert Next(run[n - 1], run[n - 1 + 1]);
    }
  }

  // When the mode switch turns between two frames both receivers can be past the
  // join, and both relays can come on.
  function Overlap(): (run: seq<State>)
    ensures |run| == 9
  {
    var s0 := START;
    var s1 := s0.(r1 := Joining(Raise));
    var s2 := s1.(r2 := Joining(Lower));
    var s3 := s2.(r1 := FirstWrite(Raise));
    var s4 := s3.(r2 := FirstWrite(Lower));
    var s5 := s4.(r2 := SecondWrite(Lower));
    var s6 := s5.(r1 := SecondWrite(Raise), up := true);
    var s7 := s6.(r1 := Spawning(Raise), down := false);
    var s8 := s7.(r2 := Spawning(Lower), down := true);
    [s0, s1, s2, s3, s4, s5, s6, s7, s8]
  }

  lemma TwoReceiversCanEnergiseBoth(orders: set<Order>)
    requires Raise in orders && Lower in orders
    ensures RunOf(Overlap(), orders, false) && !Interlocked(Overlap()[8])
  {
  }

  // The relays are never on together, on any run, if and only if at most one
  // receiver is past the join at a time or raising and lowering are not both ordered.
  lemma InterlockIffExclusiveOrOneDirection(orders: set<Order>, exclusive: bool)
    ensures AlwaysInterlocked(orders, exclusive) <==> exclusive || !(Raise in orders && Lower in orders)
  {
    if exclusive || !(Raise in orders && Lower in orders) {
      forall run: seq<State> | RunOf(run, orders, exclusive)
        ensures forall k :: 0 <= k < |run| ==> Interlocked(run[k])
      {
        forall k | 0 <= k < |run| ensures Interlocked(run[k]) {
          if exclusive { RunKeepsInv(run, k); } else { RelayWithoutOrderStaysOff(run, orders, exclusive, k); }
        }
      }
    } else {
      TwoReceiversCanEnergiseBoth(orders);
    }
  }
}
