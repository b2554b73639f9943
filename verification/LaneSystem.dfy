// From the bytes on both ports to the lane's actions: the two receive loops and
// the command handler, with reads, frames, mode changes and pulses in any order.
module LaneSystem {
  import opened Framer
  import opened FramerSafety
  import L = Lane

  // A receive loop, the bytes it has read, and how many of its slices the
  // handler has dealt with.
  datatype Port = Port(input: seq<bv8>, rx: State, done: nat)

  // `sources` names, for each action, the slice it was ordered by.
  datatype System = System(p1: Port, p2: Port, h: L.History, sources: seq<nat>)

  datatype Event =
    | Arrive(port: int, chunk: seq<bv8>)
    | Handle(port: int, stale: bv8, voiceOk: bool)
    | Switch(value: int)
    | PulseFires

  function PortOf(s: System, port: int): Port {
    if port == 1 then s.p1 else s.p2
  }

  function WithPort(s: System, port: int, p: Port): System {
    if port == 1 then s.(p1 := p) else s.(p2 := p)
  }

  predicate Enabled(s: System, e: Event) {
    match e
    case Arrive(port, chunk) =>
      (port == 1 || port == 2) && var rx := PortOf(s, port).rx; Inv(rx) && rx.pos + |chunk| <= LIMIT
    case Handle(port, _, _) =>
      && (port == 1 || port == 2)
      && var p := PortOf(s, port); p.done < |p.rx.out| && L.Sized(p.rx.out[p.done].view, p.rx.out[p.done].len)
    case _ => true
  }

  function Do(c: L.Clients, s: System, e: Event): System
    requires Enabled(s, e)
  {
    match e
    case Arrive(port, chunk) =>
      var p := PortOf(s, port);
      WithPort(s, port, p.(input := p.input + chunk, rx := Feed(p.rx, chunk)))
    case Handle(port, stale, voiceOk) =>
      var p := PortOf(s, port);
      var d := p.rx.out[p.done];
      var h := L.Step(c, s.h, L.Frame(port, d.view, d.len, stale, voiceOk));
      WithPort(s, port, p.(done := p.done + 1)).(
        h := h, sources := if |h.actions| > |s.h.actions| then s.sources + [p.done] else s.sources)
    case Switch(value) => s.(h := L.Step(c, s.h, L.Switch(value)))
    case PulseFires => s.(h := L.Step(c, s.h, L.PulseFires))
  }

  predicate Possible(c: L.Clients, s: System, events: seq<Event>)
    decreases |events|
  {
    events == [] || (Enabled(s, events[0]) && Possible(c, Do(c, s, events[0]), events[1..]))
  }

  function RunAll(c: L.Clients, s: System, events: seq<Event>): System
    requires Possible(c, s, events)
    decreases |events|
  {
    if events == [] then s else RunAll(c, Do(c, s, events[0]), events[1..])
  }

  function Begin(switch: int, length1: int, length2: int): System {
    System(Port([], Start(length1), 0), Port([], Start(length2), 0), L.Begin(switch), [])
  }

  // The slices are checked segments of the input, in order, and can be handled.
  predicate PortInv(p: Port) {
    Tracks(p.rx, p.input) && L.AllSized(p.rx.out) && p.done <= |p.rx.out|
  }

  // The action is what slice k of its port orders, and the port was in charge.
  predicate OrderedBy(a: L.Action, p: Port, k: nat) {
    && L.Entitled(a)
    && k < p.done <= |p.rx.out| && L.Sized(p.rx.out[k].view, p.rx.out[k].len)
    && L.Ordered(p.rx.out[k].view, p.rx.out[k].len) == L.Some(a.effect)
  }

  predicate SystemInv(s: System) {
    && PortInv(s.p1) && PortInv(s.p2) && |s.sources| == |s.h.actions|
    && (forall i :: 0 <= i < |s.h.actions| ==> OrderedBy(s.h.actions[i], PortOf(s, s.h.actions[i].port), s.sources[i]))
    && (forall i, j :: 0 <= i < j < |s.h.actions| && s.h.actions[i].port == s.h.actions[j].port ==>
          s.sources[i] < s.sources[j])
    && L.Sound(s.h)
  }

  // A slice waiting for the handler can be handled.
  lemma WaitingSliceIsEnabled(s: System, port: int, stale: bv8, voiceOk: bool)
    requires SystemInv(s) && (port == 1 || port == 2) && PortOf(s, port).done < |PortOf(s, port).rx.out|
    ensures Enabled(s, Handle(port, stale, voiceOk))
  {
  }

  // ----- reads

  lemma ReadKeepsPort(p: Port, chunk: seq<bv8>)
    requires PortInv(p) && p.rx.pos + |chunk| <= LIMIT
    ensures var q := p.(input := p.input + chunk, rx := Feed(p.rx, chunk)); PortInv(q) && p.rx.out <= q.rx.out
  {
    FeedTracks(p.rx, p.input, chunk);
    var r := Received(p.rx, chunk);
    if r.pos >= 4 {
      L.DispatchesAreSized(r);
      ScanAppends(r);
    }
    hide Tracks, L.Sized, Scan;
  }

  lemma OrderedByStays(a: L.Action, p: Port, q: Port, k: nat)
    requires OrderedBy(a, p, k) && p.rx.out <= q.rx.out && p.done <= q.done <= |q.rx.out|
    ensures OrderedBy(a, q, k)
  {
    assert q.rx.out[k] == p.rx.out[k];
    hide L.Ordered, L.Sized;
  }

  lemma ReadKeepsInv(c: L.Clients, s: System, port: int, chunk: seq<bv8>)
    requires SystemInv(s) && Enabled(s, Arrive(port, chunk))
    ensures SystemInv(Do(c, s, Arrive(port, chunk)))
  {
    var t := Do(c, s, Arrive(port, chunk));
    ReadKeepsPort(PortOf(s, port), chunk);
    hide PortInv, L.Sound, Feed, OrderedBy;
    forall i | 0 <= i < |t.h.actions| ensures OrderedBy(t.h.actions[i], PortOf(t, t.h.actions[i].port), t.sources[i]) {
      var a := s.h.actions[i];
      assert OrderedBy(a, PortOf(s, a.port), s.sources[i]);
      OrderedByStays(a, PortOf(s, a.port), PortOf(t, a.port), s.sources[i]);
    }
  }

  // ----- frames

  // What one frame adds to the actions.
  lemma FrameActs(c: L.Clients, h: L.History, port: int, view: seq<bv8>, len: int, stale: bv8, voiceOk: bool)
    requires c.client1 != c.client2 && L.Sized(view, len) && (port == 1 || port == 2)
    ensures var t := L.Step(c, h, L.Frame(port, view, len, stale, voiceOk));
            || t.actions == h.actions
            || exists a ::
                 && t.actions == h.actions + [a] && L.Entitled(a) && a.port == port
                 && L.Ordered(view, len) == L.Some(a.effect)
  {
    L.OrderIsCarriedOutIffInCharge(c, view, len, port, h.switch, stale, voiceOk);
    hide L.Handled, L.Ordered, L.Drive;
    var effect := L.Handled(c, view, len, c.Address(port), h.switch, stale, voiceOk).0;
    var t := L.Step(c, h, L.Frame(port, view, len, stale, voiceOk));
    match effect {
      case None => assert t.actions == h.actions;
      case Some(x) =>
        var a := L.Action(x, port, h.switch);
        assert t.actions == h.actions + [a] && L.Entitled(a);
    }
  }

  lemma HandleKeepsInv(c: L.Clients, s: System, port: int, stale: bv8, voiceOk: bool)
    requires c.client1 != c.client2 && SystemInv(s) && Enabled(s, Handle(port, stale, voiceOk))
    ensures SystemInv(Do(c, s, Handle(port, stale, voiceOk)))
  {
    var p, t := PortOf(s, port), Do(c, s, Handle(port, stale, voiceOk));
    var d := p.rx.out[p.done];
    FrameActs(c, s.h, port, d.view, d.len, stale, voiceOk);
    assert L.Sound(t.h) by { L.SoundStep(c, s.h, L.Frame(port, d.view, d.len, stale, voiceOk)); }
    hide L.Step, L.Sound, L.Ordered, L.Sized, L.Entitled, SystemInv;
    HandledPort(s, t, port);
    if t.h.actions == s.h.actions {
      NoNewAction(s, t);
    } else {
      var a :| t.h.actions == s.h.actions + [a] && L.Entitled(a) && a.port == port
               && L.Ordered(d.view, d.len) == L.Some(a.effect);
      assert OrderedBy(a, PortOf(t, a.port), p.done);
      EarlierSources(s, a.port);
      NewActionLast(s, t, a, p.done);
    }
  }

  // What is left of the invariant when a port has dealt with one more slice.
  predicate OrderedSoFar(s: System, t: System) {
    && PortInv(t.p1) && PortInv(t.p2) && |s.sources| == |s.h.actions|
    && (forall i :: 0 <= i < |s.h.actions| ==> OrderedBy(s.h.actions[i], PortOf(t, s.h.actions[i].port), s.sources[i]))
    && (forall i, j :: 0 <= i < j < |s.h.actions| && s.h.actions[i].port == s.h.actions[j].port ==>
          s.sources[i] < s.sources[j])
  }

  lemma HandledPort(s: System, t: System, port: int)
    requires SystemInv(s) && (port == 1 || port == 2) && PortOf(s, port).done < |PortOf(s, port).rx.out|
    requires var p := PortOf(s, port); (t.p1, t.p2) == (WithPort(s, port, p.(done := p.done + 1)).p1,
                                                        WithPort(s, port, p.(done := p.done + 1)).p2)
    ensures OrderedSoFar(s, t)
  {
    assert PortInv(t.p1) && PortInv(t.p2);
    hide PortInv, L.Sound, OrderedBy;
    forall i | 0 <= i < |s.h.actions|
      ensures OrderedBy(s.h.actions[i], PortOf(t, s.h.actions[i].port), s.sources[i])
    {
      var a := s.h.actions[i];
      assert OrderedBy(a, PortOf(s, a.port), s.sources[i]);
      MoreDone(a, PortOf(s, a.port), PortOf(t, a.port), s.sources[i]);
    }
  }

  lemma MoreDone(a: L.Action, p: Port, q: Port, k: nat)
    requires OrderedBy(a, p, k) && p.rx == q.rx && p.done <= q.done <= |q.rx.out|
    ensures OrderedBy(a, q, k)
  {
    hide L.Ordered, L.Sized, L.Entitled;
  }

  lemma NoNewAction(s: System, t: System)
    requires OrderedSoFar(s, t) && t.h.actions == s.h.actions && t.sources == s.sources && L.Sound(t.h)
    ensures SystemInv(t)
  {
    hide PortInv, L.Sound, OrderedBy;
  }

  // The sources of a port's actions are slices it has dealt with.
  lemma EarlierSources(s: System, port: int)
    requires SystemInv(s)
    ensures |s.sources| == |s.h.actions|
    ensures forall i :: 0 <= i < |s.h.actions| && s.h.actions[i].port == port ==> s.sources[i] < PortOf(s, port).done
  {
    hide PortInv, L.Sound, L.Ordered, L.Sized, L.Entitled;
    forall i | 0 <= i < |s.h.actions| && s.h.actions[i].port == port ensures s.sources[i] < PortOf(s, port).done {
      assert OrderedBy(s.h.actions[i], PortOf(s, port), s.sources[i]);
    }
  }

  lemma NewActionLast(s: System, t: System, a: L.Action, k: nat)
    requires OrderedSoFar(s, t) && t.h.actions == s.h.actions + [a] && t.sources == s.sources + [k] && L.Sound(t.h)
    requires forall i :: 0 <= i < |s.h.actions| && s.h.actions[i].port == a.port ==> s.sources[i] < k
    requires OrderedBy(a, PortOf(t, a.port), k)
    ensures SystemInv(t)
  {
    hide PortInv, L.Sound, OrderedBy;
  }

  // ----- whole runs

  lemma StepKeepsInv(c: L.Clients, s: System, e: Event)
    requires c.client1 != c.client2 && SystemInv(s) && Enabled(s, e)
    ensures SystemInv(Do(c, s, e))
  {
    match e {
      case Arrive(port, chunk) => ReadKeepsInv(c, s, port, chunk);
      case Handle(port, stale, voiceOk) => HandleKeepsInv(c, s, port, stale, voiceOk);
      case Switch(value) =>
        L.SoundStep(c, s.h, L.Switch(value));
        hide PortInv, L.Sound, OrderedBy;
      case PulseFires =>
        L.SoundStep(c, s.h, L.PulseFires);
        hide PortInv, L.Sound, OrderedBy;
    }
  }

  lemma {:induction false} RunKeepsInv(c: L.Clients, s: System, events: seq<Event>)
    requires c.client1 != c.client2 && SystemInv(s) && Possible(c, s, events)
    ensures SystemInv(RunAll(c, s, events))
    decreases |events|
  {
    if events != [] {
      StepKeepsInv(c, s, events[0]);
      hide SystemInv, Do, Enabled;
      RunKeepsInv(c, Do(c, s, events[0]), events[1..]);
    }
  }

  // Whatever bytes arrive on both ports, in whatever reads and order: action i is
  // ordered by slice sources[i] of the port then in charge, a segment of that
  // port's input that passes the checksum; no slice orders more than one action,
  // and the actions of a port follow its slices.
  lemma ActionsComeFromCheckedSlices(
      c: L.Clients, switch: int, length1: int, length2: int, events: seq<Event>, i: nat)
    requires c.client1 != c.client2 && length1 >= 9 && length2 >= 9
    requires Possible(c, Begin(switch, length1, length2), events)
    requires i < |RunAll(c, Begin(switch, length1, length2), events).h.actions|
    ensures var t := RunAll(c, Begin(switch, length1, length2), events);
            var a := t.h.actions[i];
            && |t.sources| == |t.h.actions|
            && var p, k := PortOf(t, a.port), t.sources[i];
            && OrderedBy(a, p, k) && Genuine(p.rx.out[k], p.input, p.rx.dropped)
            && forall j :: i < j < |t.h.actions| && t.h.actions[j].port == a.port ==> k < t.sources[j]
  {
    var s := Begin(switch, length1, length2);
    assert SystemInv(s) by { StartTracks(length1); StartTracks(length2); }
    RunKeepsInv(c, s, events);
    hide Possible, RunAll, OrderedBy, Genuine, L.Sound;
    var t := RunAll(c, s, events);
    var a := t.h.actions[i];
    assert PortInv(PortOf(t, a.port));
    assert OrderedBy(a, PortOf(t, a.port), t.sources[i]);
    SourceExists(a, PortOf(t, a.port), t.sources[i]);
  }

  lemma SourceExists(a: L.Action, p: Port, k: nat)
    requires PortInv(p) && OrderedBy(a, p, k)
    ensures k < |p.rx.out| && Genuine(p.rx.out[k], p.input, p.rx.dropped)
  {
  }

  lemma StartTracks(length: int)
    requires length >= 9
    ensures Tracks(Start(length), []) && Start(length).out == []
  {
  }
}
