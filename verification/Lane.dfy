// The command handler of the lane controller: who may act, what is done, and
// what is answered.
module Lane {
  import opened Checksum
  import Framer
  import FramerSafety

  datatype Option<T> = None | Some(value: T)

  // What a handled frame makes the lane do; the byte is the order it carries.
  datatype Effect = Barrier(order: bv8) | Lamp(order: bv8) | Flash(order: bv8) | Voice | Display(mode: bv8)

  // An effect, the port its frame came in on, and the mode switch at that time.
  datatype Action = Action(effect: Effect, port: int, switch: int)

  // The relays, lamps and the pending pulse.
  datatype Outputs = Outputs(up: bool, down: bool, pulse: bool, trafficLed: bool, flashLight: bool)

  // A frame written to the socket of a port, on behalf of a frame from port
  // `cause`, and the outputs at that time.
  datatype Reply = Reply(via: int, frame: seq<bv8>, cause: int, outs: Outputs)

  // What Analysis did and the two bytes it left for the reply.
  datatype Verdict = Verdict(effect: Option<Effect>, r0: bv8, r1: bv8)

  predicate Tagged(cmd: seq<bv8>)
    requires |cmd| >= 5
  {
    cmd[0] == 0xA0 && cmd[1] == 0xB0 && cmd[2] == 0xC0 && cmd[3] == 0xD0
  }

  // ----- the device handlers

  function BarrierVerdict(device: bv8, order: bv8): Verdict {
    Verdict(Some(Barrier(order)), device, if order == 0 then 0x03 else if order == 1 then 0x02 else 0)
  }

  function LampVerdict(order: bv8): Verdict {
    Verdict(Some(Lamp(order)), 0xDE, if order == 1 then 0x01 else 0)
  }

  function FlashVerdict(order: bv8): Verdict {
    Verdict(Some(Flash(order)), 0xDF, if order == 1 then 0x03 else 0x04)
  }

  function VoiceVerdict(success: bool): Verdict {
    Verdict(Some(Voice), 0xD4, if success then 0x04 else 0x05)
  }

  // The handler sets its success flag to false and never again.
  function DisplayVerdict(mode: bv8): Verdict {
    var success := false;
    Verdict(Some(Display(mode)), 0xD4, if success then 0x02 else 0x03)
  }

  // Device selection and second checksum. cmd may reach beyond the command. The
  // flash handler is given the type byte as its order.
  function Analysis(cmd: seq<bv8>, cmdLen: int, voiceOk: bool): (v: Verdict)
    requires |cmd| >= 5 && (Tagged(cmd) ==> cmdLen <= |cmd|)
  {
    if cmdLen < 1 then Verdict(None, 0, 0)
    else if Tagged(cmd) then
      if cmd[4] != 0x07 && cmd[4] != 0x53 && cmd[4] != 0x44 && cmd[4] != 0x64 then Verdict(None, 0, 0)
      else if !Passes(cmd[..cmdLen]) then Verdict(None, 0, 0)
      else if cmd[4] == 0x07 then FlashVerdict(cmd[4])
      else if cmd[4] == 0x53 then VoiceVerdict(voiceOk)
      else DisplayVerdict(cmd[4])
    else if cmd[0] == 0xA3 then BarrierVerdict(cmd[0], cmd[1])
    else if cmd[0] == 0xAE then LampVerdict(cmd[1])
    else Verdict(None, 0, 0)
  }

  // What an effect leaves the outputs at. A barrier order first waits for the
  // running pulse, which clears both relays.
  function Drive(o: Outputs, effect: Option<Effect>): Outputs {
    match effect
    case Some(Barrier(order)) => o.(up := order == 1, down := order == 0, pulse := order == 0 || order == 1)
    case Some(Lamp(order)) => o.(trafficLed := if order == 1 then false else if order == 0 then true else o.trafficLed)
    case Some(Flash(order)) => o.(flashLight := order == 1)
    case _ => o
  }

  // The frame CommunicationSend writes for a payload.
  function Body(txSeq: bv8, kind: bv8, payload: seq<bv8>): (b: seq<bv8>)
    requires |payload| <= 3
  {
    if kind == 0xB0 then [0xFF, 0xFF, 0x00, 0x09, 0, 0, 0, 0x01, 0xB0]
    else [0xFF, 0xFF, 0x00, txSeq / 10, 0, 0, 0, |payload| as bv8] + payload
  }

  // How many bytes of the payload are copied, whatever its length.
  function Copied(kind: bv8): nat {
    if kind == 0xB0 then 0 else if kind == 0xDC then 3 else 2
  }

  // A heartbeat carries no payload. A length beyond what is copied would send
  // bytes that were never written.
  predicate Sendable(kind: bv8, cmd: seq<bv8>, cmdLen: nat) {
    kind == 0xB0 || (Copied(kind) <= |cmd| && cmdLen <= Copied(kind))
  }

  function Payload(kind: bv8, cmd: seq<bv8>, cmdLen: nat): (p: seq<bv8>)
    requires Sendable(kind, cmd, cmdLen)
    ensures |p| <= 3
  {
    if kind == 0xB0 then [] else cmd[..cmdLen]
  }

  // A frame as it goes over the wire: header, the sequence byte of the request
  // divided by ten, the length of the payload in two bytes, the payload, and the
  // exclusive-or of all but the header. A heartbeat is always the same.
  predicate IsWireFrame(f: seq<bv8>, txSeq: bv8, kind: bv8, payload: seq<bv8>) {
    if kind == 0xB0 then f == [0xFF, 0xFF, 0x00, 0x09, 0x00, 0x00, 0x00, 0x01, 0xB0, 0xB8]
    else
      && |f| == |payload| + 9
      && f[0] == 0xFF && f[1] == 0xFF && f[2] == 0 && f[3] == txSeq / 10 && f[4] == 0 && f[5] == 0
      && f[6] as int * 256 + f[7] as int == |payload|
      && f[8..|f| - 1] == payload && f[|f| - 1] == Xor(f[2..|f| - 1])
  }

  lemma ClosingByte(wide: bv32, b: bv8)
    requires wide == b as bv32
    ensures (wide & 0xFF) as bv8 == b
  {
  }

  function Sealed(body: seq<bv8>): seq<bv8>
    requires |body| >= 2
  {
    body + [Xor(body[2..])]
  }

  lemma SealedIsWireFrame(txSeq: bv8, kind: bv8, payload: seq<bv8>)
    requires |payload| <= 3 && kind != 0xB0
    ensures IsWireFrame(Sealed(Body(txSeq, kind, payload)), txSeq, kind, payload)
  {
    var b := Body(txSeq, kind, payload);
    var f := Sealed(b);
    assert f[2..|f| - 1] == b[2..] && f[8..|f| - 1] == payload;
    hide Xor;
  }

  lemma CoilFrame(f: seq<bv8>, txSeq: bv8, status: bv8)
    requires IsWireFrame(f, txSeq, 0xDC, [0xDC, 0x00, status])
    ensures |f| == 12 && f[..11] == [0xFF, 0xFF, 0, txSeq / 10, 0, 0, 0, 3, 0xDC, 0, status]
    ensures f[11] == Xor(f[2..11])
  {
    assert f[8..11][0] == f[8] && f[8..11][1] == f[9] && f[8..11][2] == f[10];
    hide Xor;
  }

  lemma SealedHeartbeat(txSeq: bv8)
    ensures IsWireFrame(Sealed(Body(txSeq, 0xB0, [])), txSeq, 0xB0, [])
  {
    var b := Body(txSeq, 0xB0, []);
    assert b[2..] == [0x00] + [0x09] + [0x00] + [0x00] + [0x00] + [0x01] + [0xB0];
    XorOfHeartbeat();
    hide Xor;
    assert Sealed(b) == [0xFF, 0xFF, 0x00, 0x09, 0x00, 0x00, 0x00, 0x01, 0xB0, 0xB8];
  }

  lemma XorOfHeartbeat()
    ensures Xor([0x00] + [0x09] + [0x00] + [0x00] + [0x00] + [0x01] + [0xB0]) == 0xB8
  {
    XorAppend([0x00] + [0x09] + [0x00] + [0x00] + [0x00] + [0x01], [0xB0]);
    XorAppend([0x00] + [0x09] + [0x00] + [0x00] + [0x00], [0x01]);
    XorAppend([0x00] + [0x09] + [0x00] + [0x00], [0x00]);
    XorAppend([0x00] + [0x09] + [0x00], [0x00]);
    XorAppend([0x00] + [0x09], [0x00]);
    XorAppend([0x00], [0x09]);
    XorOne(0x00);
    XorOne(0x09);
    XorOne(0x01);
    XorOne(0xB0);
    hide Xor;
  }

  lemma XorOne(b: bv8)
    ensures Xor([b]) == b
  {
    assert [b][..0] == [];
  }

  // Whatever is sent starts with the header and passes the receiver's check.
  lemma SealedFrameIsAccepted(txSeq: bv8, kind: bv8, payload: seq<bv8>)
    requires |payload| <= 3
    ensures var f := Sealed(Body(txSeq, kind, payload));
            && |f| >= 9 && f[0] == 0xFF && f[1] == 0xFF && Passes(f[2..])
  {
    var b := Body(txSeq, kind, payload);
    CompletedRangePasses(b[2..]);
    assert Sealed(b)[2..] == b[2..] + [Xor(b[2..])];
  }

  // The two configured addresses.
  datatype Clients = Clients(client1: string, client2: string) {
    function Address(port: int): string { if port == 1 then client1 else client2 }

    // The mode check of every control frame.
    predicate Authorised(ip: string, switch: int) {
      (ip == client1 && switch == 0) || (ip == client2 && switch == 1)
    }

    // The socket a reply for this address is written to.
    function Socket(ip: string): Option<int> {
      if ip == client1 then Some(1) else if ip == client2 then Some(2) else None
    }
  }

  // The reply type of an A4 frame, as far as its type byte determines one.
  function DisplayKind(t: bv8): Option<bv8> {
    if t == 0x44 || t == 0x64 || t == 0x53 then Some(0xD4) else if t == 0x07 then Some(0xDF) else None
  }

  // What one frame causes: at most one effect and at most one reply, as
  // (type, first byte, second byte). `stale` is the value of the uninitialised
  // reply type of an unauthorised A4 frame.
  function Handled(c: Clients, view: seq<bv8>, len: int, ip: string, switch: int, stale: bv8, voiceOk: bool)
    : (Option<Effect>, Option<(bv8, bv8, bv8)>)
    requires Sized(view, len)
  {
    if view[8] == 0xA4 then
      if !c.Authorised(ip, switch) then (None, Some((stale, 0, 0)))
      else
        match DisplayKind(view[13])
        case None => (None, None)
        case Some(kind) =>
          var v := Analysis(view[9..], len - 10, voiceOk);
          (v.effect, Some((kind, v.r0, v.r1)))
    else if view[8] == 0xA3 || view[8] == 0xAE then
      var kind := if view[8] == 0xA3 then 0xD3 else 0xDE;
      if !c.Authorised(ip, switch) then (None, Some((kind, 0, 0)))
      else
        var v := Analysis(view[8..], len, voiceOk);
        (v.effect, Some((kind, v.r0, v.r1)))
    else (None, None)
  }

  // The receive loop hands over the buffer from the header on.
  predicate Sized(view: seq<bv8>, len: int) {
    |view| >= 14 && 9 <= len <= |view|
  }

  // An unauthorised A4 frame is answered with an uninitialised reply type, which
  // makes the answer a heartbeat or lets it copy a third byte, a zero.
  function Answer(txSeq: bv8, kind: bv8, r0: bv8, r1: bv8): seq<bv8> {
    Sealed(Body(txSeq, kind, Payload(kind, [r0, r1, 0], 2)))
  }

  function ReplyTo(
      c: Clients, ip: string, txSeq: bv8, answer: Option<(bv8, bv8, bv8)>, port: int, outs: Outputs): seq<Reply>
  {
    match (answer, c.Socket(ip))
    case (Some((kind, r0, r1)), Some(via)) => [Reply(via, Answer(txSeq, kind, r0, r1), port, outs)]
    case _ => []
  }

  // The robot port acts in robot mode (0), the manual port in manual mode (1).
  predicate InCharge(port: int, switch: int) {
    (port == 1 && switch == 0) || (port == 2 && switch == 1)
  }

  // The type bytes of the display side: flash, voice, and two display modes.
  predicate IsFeeType(t: bv8) {
    t == 0x07 || t == 0x53 || t == 0x44 || t == 0x64
  }

  predicate IsTagged(view: seq<bv8>)
    requires |view| >= 14
  {
    view[9] == 0xA0 && view[10] == 0xB0 && view[11] == 0xC0 && view[12] == 0xD0
  }

  // The byte before the last is the exclusive-or of those from the tag on.
  predicate InnerCheck(view: seq<bv8>, len: int)
    requires Sized(view, len)
  {
    len > 10 && Xor(view[9..len - 2]) == view[len - 2]
  }

  // The effect a slice orders, whoever sent it, by its bytes. A display frame
  // without the tag is taken for the order at byte 9.
  function Ordered(view: seq<bv8>, len: int): Option<Effect>
    requires Sized(view, len)
  {
    if view[8] == 0xA3 then Some(Barrier(view[9]))
    else if view[8] == 0xAE then Some(Lamp(view[9]))
    else if view[8] != 0xA4 || !IsFeeType(view[13]) || len <= 10 then None
    else if IsTagged(view) then
      if !InnerCheck(view, len) then None
      else if view[13] == 0x07 then Some(Flash(0x07))
      else if view[13] == 0x53 then Some(Voice)
      else Some(Display(view[13]))
    else if view[9] == 0xA3 then Some(Barrier(view[10]))
    else if view[9] == 0xAE then Some(Lamp(view[10]))
    else None
  }

  // What the device handling makes of the slice from byte 9 on.
  lemma AnalysisOfDisplay(view: seq<bv8>, len: int, voiceOk: bool)
    requires Sized(view, len) && view[8] == 0xA4 && IsFeeType(view[13])
    ensures Analysis(view[9..], len - 10, voiceOk).effect == Ordered(view, len)
  {
    var cmd := view[9..];
    assert cmd[0] == view[9] && cmd[1] == view[10] && cmd[2] == view[11] && cmd[3] == view[12] && cmd[4] == view[13];
    if len > 10 { InnerCheckIsSecondCheck(view, len); }
    hide Passes;
  }

  lemma InnerCheckIsSecondCheck(view: seq<bv8>, len: int)
    requires Sized(view, len) && len > 10
    ensures Passes(view[9..][..len - 10]) <==> InnerCheck(view, len)
  {
    var cmd := view[9..][..len - 10];
    assert cmd[..len - 11] == view[9..len - 2];
  }

  lemma AnalysisOfOrder(view: seq<bv8>, len: int, voiceOk: bool)
    requires Sized(view, len) && (view[8] == 0xA3 || view[8] == 0xAE)
    ensures !Tagged(view[8..])
    ensures Analysis(view[8..], len, voiceOk)
            == if view[8] == 0xA3 then BarrierVerdict(0xA3, view[9]) else LampVerdict(view[9])
  {
    assert view[8..][0] == view[8] && view[8..][1] == view[9];
  }

  // With two addresses, what a slice orders is carried out if and only if its port
  // is in charge.
  lemma OrderIsCarriedOutIffInCharge(
      c: Clients, view: seq<bv8>, len: int, port: int, switch: int, stale: bv8, voiceOk: bool)
    requires c.client1 != c.client2 && Sized(view, len) && (port == 1 || port == 2)
    ensures Handled(c, view, len, c.Address(port), switch, stale, voiceOk).0
            == if InCharge(port, switch) then Ordered(view, len) else None
  {
    if view[8] == 0xA4 && IsFeeType(view[13]) { AnalysisOfDisplay(view, len, voiceOk); }
    if view[8] == 0xA3 || view[8] == 0xAE { AnalysisOfOrder(view, len, voiceOk); }
    hide Analysis, InnerCheck;
  }

  // ----- whole runs

  datatype Event =
    | Frame(port: int, view: seq<bv8>, len: int, stale: bv8, voiceOk: bool)
    | Switch(value: int)
    | PulseFires
  {
    predicate Possible() {
      Frame? ==> Sized(view, len) && (port == 1 || port == 2)
    }
  }

  // The mode, the outputs, and everything done and answered so far.
  datatype History = History(switch: int, outs: Outputs, actions: seq<Action>, replies: seq<Reply>)

  const OFF := Outputs(false, false, false, false, false)

  function Begin(switch: int): History {
    History(switch, OFF, [], [])
  }

  // A pulse that fires leaves its thread waiting to be joined.
  function Fired(o: Outputs): Outputs {
    if o.pulse then o.(up := false, down := false) else o
  }

  function Step(c: Clients, h: History, e: Event): History
    requires e.Possible()
  {
    match e
    case Switch(value) => h.(switch := value)
    case PulseFires => h.(outs := Fired(h.outs))
    case Frame(port, view, len, stale, voiceOk) =>
      var ip := c.Address(port);
      var (effect, answer) := Handled(c, view, len, ip, h.switch, stale, voiceOk);
      var outs := Drive(h.outs, effect);
      h.(outs := outs,
         actions := h.actions + Acted(effect, port, h.switch),
         replies := h.replies + ReplyTo(c, ip, view[3], answer, port, outs))
  }

  function Acted(effect: Option<Effect>, port: int, switch: int): seq<Action> {
    match effect
    case Some(e) => [Action(e, port, switch)]
    case None => []
  }

  predicate AllPossible(events: seq<Event>) {
    forall k :: 0 <= k < |events| ==> events[k].Possible()
  }

  function Run(c: Clients, h: History, events: seq<Event>): History
    requires AllPossible(events)
    decreases |events|
  {
    if events == [] then h else Run(c, Step(c, h, events[0]), events[1..])
  }

  predicate Entitled(a: Action) {
    InCharge(a.port, a.switch)
  }

  predicate Proper(h: History) {
    && (forall k :: 0 <= k < |h.actions| ==> Entitled(h.actions[k]))
    && (forall k :: 0 <= k < |h.replies| ==> h.replies[k].via == h.replies[k].cause)
  }

  lemma ProperStep(c: Clients, h: History, e: Event)
    requires c.client1 != c.client2 && Proper(h) && e.Possible()
    ensures Proper(Step(c, h, e))
  {
    if e.Frame? {
      OrderIsCarriedOutIffInCharge(c, e.view, e.len, e.port, h.switch, e.stale, e.voiceOk);
      hide Handled, Ordered, Drive, Answer;
    }
  }

  lemma {:induction false} ProperRun(c: Clients, h: History, events: seq<Event>)
    requires c.client1 != c.client2 && Proper(h) && AllPossible(events)
    ensures Proper(Run(c, h, events))
    decreases |events|
  {
    if events != [] {
      ProperStep(c, h, events[0]);
      ProperRun(c, Step(c, h, events[0]), events[1..]);
    }
  }

  // Over every run from a clean start every action comes from the port in
  // charge and every reply goes back to the port that caused it.
  ghost predicate AlwaysProper(c: Clients) {
    forall events: seq<Event>, switch: int {:trigger Run(c, Begin(switch), events)} ::
      AllPossible(events) ==> Proper(Run(c, Begin(switch), events))
  }

  const RAISE: seq<bv8> := [0xFF, 0xFF, 0, 0, 0, 0, 0, 2, 0xA3, 1, 0xA0, 0, 0, 0]

  // It does exactly when the two configured addresses differ.
  lemma AuthorityIffAddressesDiffer(c: Clients)
    ensures AlwaysProper(c) <==> c.client1 != c.client2
  {
    if c.client1 != c.client2 {
      forall events: seq<Event>, switch | AllPossible(events)
        ensures Proper(Run(c, Begin(switch), events))
      {
        ProperRun(c, Begin(switch), events);
      }
    } else {
      var start, e := Begin(0), Frame(2, RAISE, 11, 0, true);
      var t := Step(c, start, e);
      assert t.actions == [Action(Barrier(1), 2, 0)] by { assert RAISE[8..][0] == 0xA3 && RAISE[8..][1] == 1; }
      assert !Entitled(t.actions[0]);
      assert Run(c, start, [e]) == t by { assert [e][1..] == []; }
      assert AllPossible([e]);
    }
  }

  // ----- outputs and answers over whole runs

  // The last barrier order carried out.
  function LastOrder(actions: seq<Action>): Option<bv8> {
    if actions == [] then None
    else
      var a := actions[|actions| - 1];
      if a.effect.Barrier? then Some(a.effect.order) else LastOrder(actions[..|actions| - 1])
  }

  // The last lamp order carried out that is red or green.
  function LastLamp(actions: seq<Action>): Option<bv8> {
    if actions == [] then None
    else
      var a := actions[|actions| - 1];
      if a.effect.Lamp? && (a.effect.order == 0 || a.effect.order == 1) then Some(a.effect.order)
      else LastLamp(actions[..|actions| - 1])
  }

  // The relays are never on together, an energised relay has a pulse that will
  // switch it off and was asked for by the last barrier order, the lamp is on
  // exactly when the last lamp order says green, and the flash is off.
  predicate Safe(h: History) {
    && !(h.outs.up && h.outs.down) && (h.outs.up || h.outs.down ==> h.outs.pulse)
    && (h.outs.up ==> LastOrder(h.actions) == Some(1)) && (h.outs.down ==> LastOrder(h.actions) == Some(0))
    && (h.outs.trafficLed <==> LastLamp(h.actions) == Some(0))
    && !h.outs.flashLight
  }

  // An answer to a barrier order says 2 exactly when the barrier is being raised
  // and 3 exactly when it is being lowered; one to a lamp order says 1 only with
  // the lamp off; one to a display order never says 2, success.
  predicate Truthful(r: Reply) {
    && |r.frame| >= 9
    && (r.frame[8] == 0xA3 ==>
          |r.frame| >= 10 && (r.frame[9] == 2 <==> r.outs.up) && (r.frame[9] == 3 <==> r.outs.down))
    && (r.frame[8] == 0xDE ==> |r.frame| >= 10 && (r.frame[9] == 1 ==> !r.outs.trafficLed))
    && (r.frame[8] == 0xD4 ==> |r.frame| >= 10 && r.frame[9] != 2)
  }

  predicate Sound(h: History) {
    Safe(h) && forall k :: 0 <= k < |h.replies| ==> Truthful(h.replies[k])
  }

  lemma LastOrderAppend(actions: seq<Action>, a: Action)
    ensures LastOrder(actions + [a]) == if a.effect.Barrier? then Some(a.effect.order) else LastOrder(actions)
    ensures LastLamp(actions + [a])
            == if a.effect.Lamp? && (a.effect.order == 0 || a.effect.order == 1) then Some(a.effect.order)
               else LastLamp(actions)
  {
    assert (actions + [a])[..|actions|] == actions;
  }

  // What a verdict does to the outputs and puts into the answer.
  predicate Honest(v: Verdict) {
    match v.effect
    case None => v.r0 == 0
    case Some(Barrier(order)) => v.r0 == 0xA3 && (v.r1 == 2 <==> order == 1) && (v.r1 == 3 <==> order == 0)
    case Some(Lamp(order)) => v.r0 == 0xDE && (v.r1 == 1 ==> order == 1)
    case Some(Flash(order)) => v.r0 == 0xDF && order != 1
    case Some(Voice) => v.r0 == 0xD4 && v.r1 != 2
    case Some(Display(_)) => v.r0 == 0xD4 && v.r1 == 3
  }

  lemma AnalysisIsHonest(cmd: seq<bv8>, cmdLen: int, voiceOk: bool)
    requires |cmd| >= 5 && (Tagged(cmd) ==> cmdLen <= |cmd|)
    ensures Honest(Analysis(cmd, cmdLen, voiceOk))
  {
  }

  lemma HandledIsHonest(c: Clients, view: seq<bv8>, len: int, ip: string, switch: int, stale: bv8, voiceOk: bool)
    requires Sized(view, len)
    ensures var (effect, answer) := Handled(c, view, len, ip, switch, stale, voiceOk);
            match answer
            case Some((kind, r0, r1)) => Honest(Verdict(effect, r0, r1)) && (effect.Some? ==> kind != 0xB0)
            case None => effect == None
  {
    AnalysisIsHonest(view[9..], len - 10, voiceOk);
    if view[8] == 0xA3 || view[8] == 0xAE {
      assert !Tagged(view[8..]);
      AnalysisIsHonest(view[8..], len, voiceOk);
    }
    hide Analysis, Honest;
    assert Honest(Verdict(None, 0, 0)) by { NothingIsHonest(); }
  }

  lemma NothingIsHonest()
    ensures Honest(Verdict(None, 0, 0))
  {
  }

  lemma DriveIsSafe(h: History, effect: Option<Effect>, port: int, r0: bv8, r1: bv8)
    requires Safe(h) && Honest(Verdict(effect, r0, r1))
    ensures Safe(h.(outs := Drive(h.outs, effect), actions := h.actions + Acted(effect, port, h.switch)))
  {
    match effect {
      case None => assert h.actions + [] == h.actions;
      case Some(e) => LastOrderAppend(h.actions, Action(e, port, h.switch));
    }
  }

  lemma AnswerBytes(txSeq: bv8, kind: bv8, r0: bv8, r1: bv8)
    ensures var f := Answer(txSeq, kind, r0, r1);
            && |f| >= 10 && (kind == 0xB0 ==> f[8] == 0xB0) && (kind != 0xB0 ==> |f| == 11 && f[8] == r0 && f[9] == r1)
  {
    if kind != 0xB0 {
      var p := Payload(kind, [r0, r1, 0], 2);
      assert p == [r0, r1];
      var f := Answer(txSeq, kind, r0, r1);
      assert f[8] == p[0] && f[9] == p[1];
    }
  }

  lemma AnswerIsTruthful(
      txSeq: bv8, kind: bv8, effect: Option<Effect>, r0: bv8, r1: bv8, o: Outputs, via: int, cause: int)
    requires Honest(Verdict(effect, r0, r1)) && (effect.Some? ==> kind != 0xB0)
    ensures Truthful(Reply(via, Answer(txSeq, kind, r0, r1), cause, Drive(o, effect)))
  {
    var f := Answer(txSeq, kind, r0, r1);
    AnswerBytes(txSeq, kind, r0, r1);
    hide Answer;
  }

  lemma SoundStep(c: Clients, h: History, e: Event)
    requires Sound(h) && e.Possible()
    ensures Sound(Step(c, h, e))
  {
    if e.Frame? {
      var (effect, answer) := Handled(c, e.view, e.len, c.Address(e.port), h.switch, e.stale, e.voiceOk);
      HandledIsHonest(c, e.view, e.len, c.Address(e.port), h.switch, e.stale, e.voiceOk);
      hide Handled, Honest, Truthful, Safe, Drive, Acted, ReplyTo;
      var outs, acted := Drive(h.outs, effect), Acted(effect, e.port, h.switch);
      RepliesAreTruthful(c, c.Address(e.port), e.view[3], effect, answer, e.port, h.outs);
      if answer.Some? {
        DriveIsSafe(h, effect, e.port, answer.value.1, answer.value.2);
      } else {
        NothingIsHonest();
        DriveIsSafe(h, None, e.port, 0, 0);
      }
      SafeIgnoresReplies(h.(outs := outs, actions := h.actions + acted), Step(c, h, e).replies);
    }
  }

  lemma RepliesAreTruthful(c: Clients, ip: string, txSeq: bv8, effect: Option<Effect>,
                           answer: Option<(bv8, bv8, bv8)>, port: int, o: Outputs)
    requires match answer
             case Some((kind, r0, r1)) => Honest(Verdict(effect, r0, r1)) && (effect.Some? ==> kind != 0xB0)
             case None => effect == None
    ensures var replies := ReplyTo(c, ip, txSeq, answer, port, Drive(o, effect));
            forall k :: 0 <= k < |replies| ==> Truthful(replies[k])
  {
    hide Honest, Truthful, Drive, Answer;
    match (answer, c.Socket(ip)) {
      case (Some((kind, r0, r1)), Some(via)) => AnswerIsTruthful(txSeq, kind, effect, r0, r1, o, via, port);
      case _ =>
    }
  }

  lemma SafeIgnoresReplies(h: History, replies: seq<Reply>)
    ensures Safe(h.(replies := replies)) == Safe(h)
  {
  }

  // Over every run of frames from both ports, mode changes and pulses: what Sound says.
  lemma {:induction false} SoundRun(c: Clients, h: History, events: seq<Event>)
    requires Sound(h) && AllPossible(events)
    ensures Sound(Run(c, h, events))
    decreases |events|
  {
    if events != [] {
      SoundStep(c, h, events[0]);
      SoundRun(c, Step(c, h, events[0]), events[1..]);
    }
  }

  // From the start on the flash light stays off, answers agree with the outputs
  // at their time, and a relay that is on was switched on by the last barrier order.
  lemma EveryRunIsSound(c: Clients, switch: int, events: seq<Event>)
    requires AllPossible(events)
    ensures Sound(Run(c, Begin(switch), events))
  {
    SoundRun(c, Begin(switch), events);
  }

  // Every slice the receive loop hands over is one the handler can take.
  predicate AllSized(out: seq<Framer.Dispatch>) {
    forall k :: 0 <= k < |out| ==> Sized(out[k].view, out[k].len)
  }

  lemma PassIsSized(s: Framer.State)
    requires Framer.Inv(s) && AllSized(s.out)
    ensures AllSized(Framer.Pass(s).0.out)
  {
    var index1 := Framer.Located(s);
    if 0 <= index1 && s.pos - index1 >= 7 {
      var t := s.(index1 := index1, cmdLen := Framer.Classify(s.buf, Framer.Cursor(s), s.cmdLen));
      if t.cmdLen <= t.pos - index1 { JudgedIsSized(t); }
    }
  }

  lemma JudgedIsSized(t: Framer.State)
    requires Framer.Inv(t) && t.index2 <= t.index1 && t.cmdLen <= t.pos - t.index1 && AllSized(t.out)
    ensures AllSized(Framer.Judged(t).0.out)
  {
    var d := Framer.Dispatch(t.dropped + t.index1, t.buf[t.index1..], t.cmdLen);
    assert |d.view| == |t.buf| - t.index1;
  }

  lemma {:induction false} DispatchesAreSized(s: Framer.State)
    requires Framer.Inv(s) && AllSized(s.out)
    ensures AllSized(Framer.Scan(s).out)
    decreases s.pos, s.pos - s.index2
  {
    PassIsSized(s);
    var (t, outcome) := Framer.Pass(s);
    if outcome.Search? { DispatchesAreSized(t); }
  }

  // Over whole runs of the receive loop, for any bytes.
  lemma {:induction false} RunsAreSized(s: Framer.State, chunks: seq<seq<bv8>>)
    requires FramerSafety.Fits(s, chunks) && AllSized(s.out)
    ensures AllSized(FramerSafety.Run(s, chunks).out)
    decreases |chunks|
  {
    if chunks != [] {
      var r := Framer.Received(s, chunks[0]);
      if r.pos >= 4 { DispatchesAreSized(r); }
      RunsAreSized(Framer.Feed(s, chunks[0]), chunks[1..]);
    }
  }

  // ----- the controller

  class LaneController {
    const clients: Clients
    var manualSwitch: int
    var up: bool
    var down: bool
    var pulse: bool           // the pulse thread is running or waiting to be joined
    var trafficLed: bool
    var flashLight: bool
    ghost var actions: seq<Action>
    ghost var replies: seq<Reply>
    ghost var relays: seq<(bool, bool)>   // every state (up, down) the relays have been in

    ghost function Outs(): Outputs
      reads this
    {
      Outputs(up, down, pulse, trafficLed, flashLight)
    }

    ghost function Value(): History
      reads this
    {
      History(manualSwitch, Outs(), actions, replies)
    }

    // The relays have never been on together, and an energised relay has a
    // pulse that will switch it off.
    ghost predicate Valid()
      reads this
    {
      && (up || down ==> pulse)
      && relays != [] && relays[|relays| - 1] == (up, down)
      && (forall k :: 0 <= k < |relays| ==> !(relays[k].0 && relays[k].1))
    }

    constructor (clients: Clients, switch: int)
      ensures Valid() && Value() == Begin(switch) && this.clients == clients
    {
      this.clients := clients;
      manualSwitch, up, down, pulse := switch, false, false, false;
      trafficLed, flashLight := false, false;
      actions, replies, relays := [], [], [(false, false)];
    }

    method SetRelays(u: bool, d: bool)
      modifies `up, `down, `relays
      ensures up == u && down == d && relays == old(relays) + [(u, d)]
    {
      up, down := u, d;
      relays := relays + [(u, d)];
    }

    // The body of the pulse thread after its second of sleep.
    method PulseEnds()
      requires Valid()
      modifies `up, `down, `relays
      ensures Valid() && old(relays) <= relays
      ensures !up && !down && Value() == Step(clients, old(Value()), PulseFires)
    {
      SetRelays(false, down);
      SetRelays(false, false);
    }

    // Waits for the running pulse.
    method Join()
      requires Valid()
      modifies `up, `down, `pulse, `relays
      ensures Valid() && old(relays) <= relays && !up && !down && !pulse
    {
      if pulse {
        PulseEnds();
        pulse := false;
      }
    }

    method BalusTrade(cmd: seq<bv8>) returns (r0: bv8, r1: bv8)
      requires Valid() && |cmd| >= 2
      modifies `up, `down, `pulse, `relays
      ensures Valid() && old(relays) <= relays
      ensures var v := BarrierVerdict(cmd[0], cmd[1]);
              (r0, r1) == (v.r0, v.r1) && Outs() == Drive(old(Outs()), v.effect)
    {
      Join();
      r0, r1 := cmd[0], 0;
      if cmd[1] == 0 {
        SetRelays(false, down);
        SetRelays(up, true);
        pulse := true;
        r1 := 0x03;
      } else if cmd[1] == 1 {
        SetRelays(true, down);
        SetRelays(up, false);
        pulse := true;
        r1 := 0x02;
      }
    }

    method TrafficControl(cmd: seq<bv8>) returns (r0: bv8, r1: bv8)
      requires |cmd| >= 2
      modifies `trafficLed
      ensures var v := LampVerdict(cmd[1]); (r0, r1) == (v.r0, v.r1) && Outs() == Drive(old(Outs()), v.effect)
    {
      r0, r1 := 0xDE, 0;
      if cmd[1] == 0x01 {
        trafficLed := false;
        r1 := 0x01;
      } else if cmd[1] == 0x00 {
        trafficLed := true;
        r1 := 0x00;
      }
    }

    method FlashLightControl(cmd: seq<bv8>) returns (r0: bv8, r1: bv8)
      requires |cmd| >= 1
      modifies `flashLight
      ensures var v := FlashVerdict(cmd[0]); (r0, r1) == (v.r0, v.r1) && Outs() == Drive(old(Outs()), v.effect)
    {
      r0 := 0xDF;
      if cmd[0] == 0x01 {
        flashLight := true;
        r1 := 0x03;
      } else {
        flashLight := false;
        r1 := 0x04;
      }
    }

    // played: the speech call returned without an exception.
    method DisplayVoice(played: bool) returns (r0: bv8, r1: bv8)
      ensures var v := VoiceVerdict(played); (r0, r1) == (v.r0, v.r1)
    {
      r0 := 0xD4;
      var success := false;
      if played {
        success := true;
      }
      r1 := if success then 0x04 else 0x05;
    }

    method DisplayControl(cmd: seq<bv8>) returns (r0: bv8, r1: bv8)
      requires |cmd| >= 1 && (cmd[0] == 0x44 || cmd[0] == 0x64)
      ensures var v := DisplayVerdict(cmd[0]); (r0, r1) == (v.r0, v.r1)
    {
      r0 := 0xD4;
      var success := false;
      // the lines are shown here, and success is not set
      r1 := if success then 0x02 else 0x03;
    }

    method SecondCheck(cmd: seq<bv8>, cmdLen: nat) returns (ok: bool)
      requires 1 <= cmdLen <= |cmd|
      ensures ok <==> Passes(cmd[..cmdLen])
    {
      var data := new bv8[|cmd|](i requires 0 <= i < |cmd| => cmd[i]);
      assert data[0..0 + cmdLen] == cmd[..cmdLen];
      var bcc := BCCDataCheck(data, 0, cmdLen, 0);
      ok := bcc == 1;
    }

    // The handlers behind the second checksum.
    method Fee(cmd: seq<bv8>, voiceOk: bool) returns (r0: bv8, r1: bv8)
      requires |cmd| >= 5 && (cmd[4] == 0x07 || cmd[4] == 0x53 || cmd[4] == 0x44 || cmd[4] == 0x64)
      modifies `flashLight
      ensures var v := if cmd[4] == 0x07 then FlashVerdict(cmd[4])
                       else if cmd[4] == 0x53 then VoiceVerdict(voiceOk) else DisplayVerdict(cmd[4]);
              (r0, r1) == (v.r0, v.r1) && Outs() == Drive(old(Outs()), v.effect)
    {
      if cmd[4] == 0x07 {
        r0, r1 := FlashLightControl(cmd[4..]);
      } else if cmd[4] == 0x53 {
        r0, r1 := DisplayVoice(voiceOk);
      } else {
        r0, r1 := DisplayControl(cmd[4..]);
      }
    }

    // The display side: second checksum, then the handlers.
    method Checked(cmd: seq<bv8>, cmdLen: int, voiceOk: bool) returns (r0: bv8, r1: bv8)
      requires |cmd| >= 5 && Tagged(cmd) && 1 <= cmdLen <= |cmd|
      modifies `flashLight
      ensures var v := Analysis(cmd, cmdLen, voiceOk);
              (r0, r1) == (v.r0, v.r1) && Outs() == Drive(old(Outs()), v.effect)
    {
      assert Drive(Outs(), None) == Outs();
      hide FlashVerdict, VoiceVerdict, DisplayVerdict, Drive;
      r0, r1 := 0, 0;
      if cmd[4] == 0x07 || cmd[4] == 0x53 || cmd[4] == 0x44 || cmd[4] == 0x64 {
        var ok := SecondCheck(cmd, cmdLen);
        if ok {
          r0, r1 := Fee(cmd, voiceOk);
        }
      }
    }

    method Analyse(cmd: seq<bv8>, cmdLen: int, voiceOk: bool, ghost port: int) returns (r0: bv8, r1: bv8)
      requires Valid() && |cmd| >= 5 && (Tagged(cmd) ==> cmdLen <= |cmd|)
      modifies `up, `down, `pulse, `relays, `trafficLed, `flashLight, `actions
      ensures Valid() && old(relays) <= relays
      ensures var v := Analysis(cmd, cmdLen, voiceOk);
              && r0 == v.r0 && r1 == v.r1 && actions == old(actions) + Acted(v.effect, port, manualSwitch)
              && Outs() == Drive(old(Outs()), v.effect)
    {
      r0, r1 := Device(cmd, cmdLen, voiceOk);
      hide Analysis, Drive, Acted;
      actions := actions + Acted(Analysis(cmd, cmdLen, voiceOk).effect, port, manualSwitch);
    }

    method Device(cmd: seq<bv8>, cmdLen: int, voiceOk: bool) returns (r0: bv8, r1: bv8)
      requires Valid() && |cmd| >= 5 && (Tagged(cmd) ==> cmdLen <= |cmd|)
      modifies `up, `down, `pulse, `relays, `trafficLed, `flashLight
      ensures Valid() && old(relays) <= relays
      ensures var v := Analysis(cmd, cmdLen, voiceOk);
              (r0, r1) == (v.r0, v.r1) && Outs() == Drive(old(Outs()), v.effect)
    {
      assert Drive(Outs(), None) == Outs();
      hide BarrierVerdict, LampVerdict, FlashVerdict, VoiceVerdict, DisplayVerdict, Drive;
      r0, r1 := 0, 0;
      if cmdLen >= 1 {
        if cmd[0] == 0xA0 && cmd[1] == 0xB0 && cmd[2] == 0xC0 && cmd[3] == 0xD0 {
          r0, r1 := Checked(cmd, cmdLen, voiceOk);
        } else if cmd[0] == 0xA3 {
          r0, r1 := BalusTrade(cmd);
        } else if cmd[0] == 0xAE {
          r0, r1 := TrafficControl(cmd);
        }
      }
    }

    // Two bytes are copied for an ordinary reply and three for a coil report,
    // and the length then says how many of them are sent.
    method FillBody(sendData: array<bv8>, txSeq: bv8, kind: bv8, cmd: seq<bv8>, cmdLen: nat) returns (dataLen: nat)
      requires Sendable(kind, cmd, cmdLen) && sendData.Length == 1024
      modifies sendData
      ensures dataLen == |Body(txSeq, kind, Payload(kind, cmd, cmdLen))|
      ensures sendData[..dataLen] == Body(txSeq, kind, Payload(kind, cmd, cmdLen))
    {
      sendData[0], sendData[1], sendData[2] := 0xFF, 0xFF, 0x00;
      dataLen := 3;
      if kind == 0xB0 {
        sendData[3], sendData[4], sendData[5] := 0x09, 0x00, 0x00;
        sendData[6], sendData[7], sendData[8] := 0x00, 0x01, 0xB0;
        dataLen := dataLen + 6;
      } else {
        sendData[3], sendData[4], sendData[5] := txSeq / 10, 0x00, 0x00;
        sendData[6], sendData[7] := (cmdLen / 256) as bv8, (cmdLen % 256) as bv8;
        dataLen := dataLen + 5;
        ghost var head := sendData[..8];
        assert head == [0xFF, 0xFF, 0x00, txSeq / 10, 0, 0, 0, cmdLen as bv8];
        hide Sealed;
        CopyBytes(sendData, dataLen, cmd, if kind == 0xDC then 3 else 2);
        dataLen := dataLen + cmdLen;
        CutBoth(head, cmd, cmdLen, if kind == 0xDC then 3 else 2, sendData[..]);
      }
    }

    method CopyBytes(sendData: array<bv8>, at: nat, cmd: seq<bv8>, n: nat)
      requires n <= |cmd| && at + n <= sendData.Length
      modifies sendData
      ensures sendData[..at + n] == old(sendData[..at]) + cmd[..n]
    {
      forall k | 0 <= k < n { sendData[at + k] := cmd[k]; }
    }

    static lemma CutBoth(head: seq<bv8>, cmd: seq<bv8>, len: nat, n: nat, data: seq<bv8>)
      requires len <= n <= |cmd| && |head| + n <= |data| && data[..|head| + n] == head + cmd[..n]
      ensures data[..|head| + len] == head + cmd[..len]
    {
      assert data[..|head| + len] == data[..|head| + n][..|head| + len];
    }

    // Builds the frame, seals it and writes it to the socket of the address.
    method CommunicationSend(txSeq: bv8, kind: bv8, cmd: seq<bv8>, cmdLen: nat, ip: string, ghost port: int)
      requires Sendable(kind, cmd, cmdLen)
      modifies `replies
      ensures replies == old(replies) +
              match clients.Socket(ip)
              case Some(via) => [Reply(via, Sealed(Body(txSeq, kind, Payload(kind, cmd, cmdLen))), port, Outs())]
              case None => []
      ensures clients.Socket(ip).Some? ==>
                |replies| == |old(replies)| + 1
                && IsWireFrame(replies[|replies| - 1].frame, txSeq, kind, if kind == 0xB0 then [] else cmd[..cmdLen])
    {
      var sendData := new bv8[1024];
      ghost var body := Body(txSeq, kind, Payload(kind, cmd, cmdLen));
      var dataLen := FillBody(sendData, txSeq, kind, cmd, cmdLen);
      dataLen := Close(sendData, dataLen, body);
      assert IsWireFrame(sendData[..dataLen], txSeq, kind, if kind == 0xB0 then [] else cmd[..cmdLen]) by {
        if kind == 0xB0 { SealedHeartbeat(txSeq); } else { SealedIsWireFrame(txSeq, kind, cmd[..cmdLen]); }
      }
      hide IsWireFrame, Sealed, Body, Payload;
      if ip == clients.client1 {
        replies := replies + [Reply(1, sendData[..dataLen], port, Outs())];
      } else if ip == clients.client2 {
        replies := replies + [Reply(2, sendData[..dataLen], port, Outs())];
      }
    }

    // The coil thread's report: three bytes, to the client in charge.
    method ReportCoils(txSeq: bv8, status: bv8)
      modifies `replies
      ensures manualSwitch != 0 && manualSwitch != 1 ==> replies == old(replies)
      ensures manualSwitch == 0 || (manualSwitch == 1 && clients.client1 != clients.client2) ==>
                && |replies| == |old(replies)| + 1 && replies[..|old(replies)|] == old(replies)
                && var r := replies[|old(replies)|];
                && r.via == manualSwitch + 1 && |r.frame| == 12
                && r.frame[..11] == [0xFF, 0xFF, 0, txSeq / 10, 0, 0, 0, 3, 0xDC, 0, status]
                && r.frame[11] == Xor(r.frame[2..11])
    {
      var output := [0xDC, 0x00, status];
      ghost var before := replies;
      if manualSwitch == 0 {
        CommunicationSend(txSeq, 0xDC, output, 3, clients.client1, 1);
      } else if manualSwitch == 1 {
        CommunicationSend(txSeq, 0xDC, output, 3, clients.client2, 2);
      }
      if replies != before {
        CoilFrame(replies[|replies| - 1].frame, txSeq, status);
      }
    }

    // The heartbeat thread writes to both clients.
    method Heartbeat()
      requires clients.client1 != clients.client2
      modifies `replies
      ensures |replies| == |old(replies)| + 2 && replies[..|old(replies)|] == old(replies)
      ensures var r, q := replies[|old(replies)|], replies[|old(replies)| + 1];
              && r.via == 1 && r.frame == [0xFF, 0xFF, 0x00, 0x09, 0x00, 0x00, 0x00, 0x01, 0xB0, 0xB8]
              && q.via == 2 && q.frame == r.frame
    {
      CommunicationSend(0x90, 0xB0, [], 0, clients.client1, 1);
      CommunicationSend(0x90, 0xB0, [], 0, clients.client2, 2);
    }

    // Appends the check byte.
    method Close(sendData: array<bv8>, len: nat, ghost body: seq<bv8>) returns (dataLen: nat)
      requires 2 <= len < sendData.Length && sendData[..len] == body
      modifies sendData
      ensures dataLen == len + 1 && sendData[..dataLen] == Sealed(body)
    {
      assert sendData[2..2 + (len - 2)] == body[2..];
      var bcc := BCCDataCheck(sendData, 2, len - 2, 2);
      ClosingByte(bcc, Xor(body[2..]));
      sendData[len] := (bcc & 0xFF) as bv8;
      dataLen := len + 1;
    }

    // The part of CommunicationAnalysis before the reply.
    method Act(view: seq<bv8>, len: int, ip: string, stale: bv8, voiceOk: bool, ghost port: int)
      returns (answer: Option<(bv8, bv8, bv8)>)
      requires Valid() && Sized(view, len)
      modifies `up, `down, `pulse, `relays, `trafficLed, `flashLight, `actions
      ensures Valid() && old(relays) <= relays
      ensures var h := Handled(clients, view, len, ip, manualSwitch, stale, voiceOk);
              && answer == h.1 && actions == old(actions) + Acted(h.0, port, manualSwitch)
              && Outs() == Drive(old(Outs()), h.0)
    {
      assert actions + Acted(None, port, manualSwitch) == actions && Drive(Outs(), None) == Outs();
      var allowed := (ip == clients.client1 && manualSwitch == 0) || (ip == clients.client2 && manualSwitch == 1);
      assert allowed == clients.Authorised(ip, manualSwitch);
      hide Analysis, Drive, Acted, Clients.Authorised;
      var r0, r1 := 0 as bv8, 0 as bv8;
      answer := None;
      if view[8] == 0xA4 {
        if !allowed {
          answer := Some((stale, 0, 0));
        } else if view[13] == 0x44 || view[13] == 0x64 || view[13] == 0x53 {
          r0, r1 := Analyse(view[9..], len - 10, voiceOk, port);
          answer := Some((0xD4, r0, r1));
        } else if view[13] == 0x07 {
          r0, r1 := Analyse(view[9..], len - 10, voiceOk, port);
          answer := Some((0xDF, r0, r1));
        }
      } else if view[8] == 0xA3 || view[8] == 0xAE {
        if allowed {
          r0, r1 := Analyse(view[8..], len, voiceOk, port);
        }
        answer := Some((if view[8] == 0xA3 then 0xD3 else 0xDE, r0, r1));
      }
    }

    method CommunicationAnalysis(view: seq<bv8>, len: int, port: int, stale: bv8, voiceOk: bool)
      requires Valid() && Sized(view, len) && (port == 1 || port == 2)
      modifies this
      ensures Valid() && old(relays) <= relays
      ensures Value() == Step(clients, old(Value()), Frame(port, view, len, stale, voiceOk))
    {
      hide Handled, Drive, Acted, Sealed, Body, Payload, Clients.Authorised;
      var ip := clients.Address(port);
      var answer := Act(view, len, ip, stale, voiceOk, port);
      ghost var before := replies;
      if answer.Some? {
        CommunicationSend(view[3], answer.value.0, [answer.value.1, answer.value.2, 0], 2, ip, port);
      }
      assert replies == before + ReplyTo(clients, ip, view[3], answer, port, Outs());
    }

    method SwitchTo(value: int)
      requires Valid()
      modifies `manualSwitch
      ensures Valid() && Value() == Step(clients, old(Value()), Switch(value))
    {
      manualSwitch := value;
    }
  }
}
