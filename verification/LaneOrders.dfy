// What one frame does to the lane, by its bytes, its port and the mode switch.
module LaneOrders {
  import opened Checksum
  import opened Lane

  // The frame adds exactly this action, and leaves the outputs like this.
  predicate Acts(h: History, t: History, effect: Effect, port: int, outs: Outputs) {
    t.switch == h.switch && t.actions == h.actions + [Action(effect, port, h.switch)] && t.outs == outs
  }

  predicate Idles(h: History, t: History) {
    t.switch == h.switch && t.actions == h.actions && t.outs == h.outs
  }

  // Two payload bytes, announced as such, and the request's sequence byte divided by ten.
  predicate IsAnswer(f: seq<bv8>, txSeq: bv8, r0: bv8, r1: bv8) {
    && |f| == 11 && f[0] == 0xFF && f[1] == 0xFF && f[2] == 0 && f[3] == txSeq / 10 && f[4] == 0 && f[5] == 0
    && f[6] as int * 256 + f[7] as int == |f| - 9
    && f[8] == r0 && f[9] == r1 && f[10] == Xor(f[2..10])
  }

  // The frame adds exactly one answer, to its own port.
  predicate Answers(h: History, t: History, port: int, txSeq: bv8, r0: bv8, r1: bv8) {
    && |t.replies| == |h.replies| + 1 && t.replies[..|h.replies|] == h.replies
    && var r := t.replies[|h.replies|];
    r.via == port && r.cause == port && r.outs == t.outs && IsAnswer(r.frame, txSeq, r0, r1)
  }

  // It adds exactly one heartbeat instead.
  predicate Beats(h: History, t: History, port: int) {
    && |t.replies| == |h.replies| + 1 && t.replies[..|h.replies|] == h.replies
    && var r := t.replies[|h.replies|];
    && r.via == port && r.cause == port && r.outs == t.outs
    && r.frame == [0xFF, 0xFF, 0x00, 0x09, 0x00, 0x00, 0x00, 0x01, 0xB0, 0xB8]
  }

  lemma OneReply(c: Clients, txSeq: bv8, kind: bv8, r0: bv8, r1: bv8, port: int, h: History, t: History)
    requires c.client1 != c.client2 && (port == 1 || port == 2)
    requires t.replies == h.replies + ReplyTo(c, c.Address(port), txSeq, Some((kind, r0, r1)), port, t.outs)
    ensures if kind == 0xB0 then Beats(h, t, port) else Answers(h, t, port, txSeq, r0, r1)
  {
    var f := Answer(txSeq, kind, r0, r1);
    AnswerOnWire(txSeq, kind, r0, r1);
    hide Answer, Xor;
    assert t.replies == h.replies + [Reply(port, f, port, t.outs)];
  }

  lemma AnswerOnWire(txSeq: bv8, kind: bv8, r0: bv8, r1: bv8)
    ensures var f := Answer(txSeq, kind, r0, r1);
            if kind == 0xB0 then f == [0xFF, 0xFF, 0x00, 0x09, 0x00, 0x00, 0x00, 0x01, 0xB0, 0xB8]
            else IsAnswer(f, txSeq, r0, r1)
  {
    if kind == 0xB0 {
      SealedHeartbeat(txSeq);
    } else {
      var p := Payload(kind, [r0, r1, 0], 2);
      assert p == [r0, r1];
      SealedIsWireFrame(txSeq, kind, p);
      hide Xor, Sealed, Body, Payload;
      var f := Answer(txSeq, kind, r0, r1);
      assert f[8..10][0] == f[8] && f[8..10][1] == f[9];
    }
  }

  // A frame whose handling ends with this effect and answer.
  lemma StepOf(c: Clients, h: History, port: int, view: seq<bv8>, len: int, stale: bv8, voiceOk: bool,
               effect: Option<Effect>, kind: bv8, r0: bv8, r1: bv8)
    requires c.client1 != c.client2 && Sized(view, len) && (port == 1 || port == 2) && kind != 0xB0
    requires Handled(c, view, len, c.Address(port), h.switch, stale, voiceOk) == (effect, Some((kind, r0, r1)))
    ensures var t := Step(c, h, Frame(port, view, len, stale, voiceOk));
            && Answers(h, t, port, view[3], r0, r1)
            && match effect
               case Some(e) => Acts(h, t, e, port, Drive(h.outs, effect))
               case None => Idles(h, t)
  {
    var t := Step(c, h, Frame(port, view, len, stale, voiceOk));
    hide Handled, Answers, Beats, ReplyTo;
    assert h.actions + [] == h.actions;
    OneReply(c, view[3], kind, r0, r1, port, h, t);
  }

  // ----- orders

  // A barrier frame is carried out exactly for the port in charge, and always answered:
  // 2 for raising, 3 for lowering, 0 for any other order, or zeros when refused.
  lemma BarrierFrame(c: Clients, h: History, port: int, view: seq<bv8>, len: int, stale: bv8, voiceOk: bool)
    requires c.client1 != c.client2 && Sized(view, len) && (port == 1 || port == 2) && view[8] == 0xA3
    ensures var t, order := Step(c, h, Frame(port, view, len, stale, voiceOk)), view[9];
            if (port == 1 && h.switch == 0) || (port == 2 && h.switch == 1) then
              && Acts(h, t, Barrier(order), port, h.outs.(up := order == 1, down := order == 0, pulse := order <= 1))
              && Answers(h, t, port, view[3], 0xA3, if order == 0 then 3 else if order == 1 then 2 else 0)
            else Idles(h, t) && Answers(h, t, port, view[3], 0, 0)
  {
    AnalysisOfOrder(view, len, voiceOk);
    var v := if InCharge(port, h.switch) then BarrierVerdict(0xA3, view[9]) else Verdict(None, 0, 0);
    assert Handled(c, view, len, c.Address(port), h.switch, stale, voiceOk) == (v.effect, Some((0xD3, v.r0, v.r1)));
    hide Analysis, Answers, Handled, Step;
    StepOf(c, h, port, view, len, stale, voiceOk, v.effect, 0xD3, v.r0, v.r1);
  }

  // A lamp frame likewise: green for 0, red for 1; the answer is 1 for red.
  lemma LampFrame(c: Clients, h: History, port: int, view: seq<bv8>, len: int, stale: bv8, voiceOk: bool)
    requires c.client1 != c.client2 && Sized(view, len) && (port == 1 || port == 2) && view[8] == 0xAE
    ensures var t, order := Step(c, h, Frame(port, view, len, stale, voiceOk)), view[9];
            if (port == 1 && h.switch == 0) || (port == 2 && h.switch == 1) then
              && Acts(h, t, Lamp(order), port,
                      h.outs.(trafficLed := order == 0 || (order != 1 && h.outs.trafficLed)))
              && Answers(h, t, port, view[3], 0xDE, if order == 1 then 1 else 0)
            else Idles(h, t) && Answers(h, t, port, view[3], 0, 0)
  {
    AnalysisOfOrder(view, len, voiceOk);
    var v := if InCharge(port, h.switch) then LampVerdict(view[9]) else Verdict(None, 0, 0);
    assert Handled(c, view, len, c.Address(port), h.switch, stale, voiceOk) == (v.effect, Some((0xDE, v.r0, v.r1)));
    hide Analysis, Answers, Handled, Step;
    StepOf(c, h, port, view, len, stale, voiceOk, v.effect, 0xDE, v.r0, v.r1);
  }

  // ----- display frames

  lemma TaggedVerdict(view: seq<bv8>, len: int, voiceOk: bool) returns (v: Verdict)
    requires Sized(view, len) && IsTagged(view)
    requires view[13] == 0x07 || view[13] == 0x53 || view[13] == 0x44 || view[13] == 0x64
    ensures v == Analysis(view[9..], len - 10, voiceOk)
    ensures v == if !InnerCheck(view, len) then Verdict(None, 0, 0)
                 else if view[13] == 0x07 then FlashVerdict(0x07)
                 else if view[13] == 0x53 then VoiceVerdict(voiceOk) else DisplayVerdict(view[13])
  {
    var cmd := view[9..];
    assert Tagged(cmd) && cmd[4] == view[13];
    if len > 10 { InnerCheckIsSecondCheck(view, len); }
    hide Passes, Tagged, FlashVerdict, VoiceVerdict, DisplayVerdict;
    v := Analysis(cmd, len - 10, voiceOk);
  }

  lemma UntaggedVerdict(view: seq<bv8>, len: int, voiceOk: bool) returns (v: Verdict)
    requires Sized(view, len) && !IsTagged(view)
    ensures v == Analysis(view[9..], len - 10, voiceOk)
    ensures v == if len <= 10 then Verdict(None, 0, 0)
                 else if view[9] == 0xA3 then BarrierVerdict(0xA3, view[10])
                 else if view[9] == 0xAE then LampVerdict(view[10]) else Verdict(None, 0, 0)
  {
    var cmd := view[9..];
    assert cmd[2] == view[11] && cmd[3] == view[12];
    assert !Tagged(cmd) && cmd[0] == view[9] && cmd[1] == view[10];
    hide Passes, Tagged, BarrierVerdict, LampVerdict;
    v := Analysis(cmd, len - 10, voiceOk);
  }

  lemma TaggedHandled(c: Clients, port: int, switch: int, view: seq<bv8>, len: int, stale: bv8, voiceOk: bool)
    returns (v: Verdict, kind: bv8)
    requires c.client1 != c.client2 && Sized(view, len) && view[8] == 0xA4 && IsTagged(view)
    requires (port == 1 && switch == 0) || (port == 2 && switch == 1)
    requires view[13] == 0x07 || view[13] == 0x53 || view[13] == 0x44 || view[13] == 0x64
    ensures kind == if view[13] == 0x07 then 0xDF else 0xD4
    ensures v == if !InnerCheck(view, len) then Verdict(None, 0, 0)
                 else if view[13] == 0x07 then FlashVerdict(0x07)
                 else if view[13] == 0x53 then VoiceVerdict(voiceOk) else DisplayVerdict(view[13])
    ensures Handled(c, view, len, c.Address(port), switch, stale, voiceOk) == (v.effect, Some((kind, v.r0, v.r1)))
  {
    hide InnerCheck, FlashVerdict, VoiceVerdict, DisplayVerdict, Analysis;
    v := TaggedVerdict(view, len, voiceOk);
    kind := if view[13] == 0x07 then 0xDF else 0xD4;
  }

  // From the port in charge a tagged display frame of a known type is carried out
  // exactly when its inner check byte is right, and answered either way.
  lemma TaggedFrame(c: Clients, h: History, port: int, view: seq<bv8>, len: int, stale: bv8, voiceOk: bool)
    requires c.client1 != c.client2 && Sized(view, len) && view[8] == 0xA4 && IsTagged(view)
    requires (port == 1 && h.switch == 0) || (port == 2 && h.switch == 1)
    requires view[13] == 0x07 || view[13] == 0x53 || view[13] == 0x44 || view[13] == 0x64
    ensures var t := Step(c, h, Frame(port, view, len, stale, voiceOk));
            if !InnerCheck(view, len) then Idles(h, t) && Answers(h, t, port, view[3], 0, 0)
            else if view[13] == 0x07 then
              Acts(h, t, Flash(0x07), port, h.outs.(flashLight := false)) && Answers(h, t, port, view[3], 0xDF, 4)
            else if view[13] == 0x53 then
              Acts(h, t, Voice, port, h.outs) && Answers(h, t, port, view[3], 0xD4, if voiceOk then 4 else 5)
            else Acts(h, t, Display(view[13]), port, h.outs) && Answers(h, t, port, view[3], 0xD4, 3)
  {
    hide Analysis, Answers, Handled, Step, InnerCheck;
    var v, kind := TaggedHandled(c, port, h.switch, view, len, stale, voiceOk);
    StepOf(c, h, port, view, len, stale, voiceOk, v.effect, kind, v.r0, v.r1);
  }

  lemma UntaggedHandled(c: Clients, port: int, switch: int, view: seq<bv8>, len: int, stale: bv8, voiceOk: bool)
    returns (v: Verdict, kind: bv8)
    requires c.client1 != c.client2 && Sized(view, len) && view[8] == 0xA4 && !IsTagged(view)
    requires (port == 1 && switch == 0) || (port == 2 && switch == 1)
    requires view[13] == 0x07 || view[13] == 0x53 || view[13] == 0x44 || view[13] == 0x64
    ensures kind != 0xB0
    ensures v == if len <= 10 then Verdict(None, 0, 0)
                 else if view[9] == 0xA3 then BarrierVerdict(0xA3, view[10])
                 else if view[9] == 0xAE then LampVerdict(view[10]) else Verdict(None, 0, 0)
    ensures Handled(c, view, len, c.Address(port), switch, stale, voiceOk) == (v.effect, Some((kind, v.r0, v.r1)))
  {
    hide BarrierVerdict, LampVerdict, Analysis;
    v := UntaggedVerdict(view, len, voiceOk);
    kind := if view[13] == 0x07 then 0xDF else 0xD4;
  }

  // Without the tag it is taken for a barrier or lamp order at byte 9, or for nothing,
  // as when it is too short.
  lemma UntaggedFrame(c: Clients, h: History, port: int, view: seq<bv8>, len: int, stale: bv8, voiceOk: bool)
    requires c.client1 != c.client2 && Sized(view, len) && view[8] == 0xA4 && !IsTagged(view)
    requires (port == 1 && h.switch == 0) || (port == 2 && h.switch == 1)
    requires view[13] == 0x07 || view[13] == 0x53 || view[13] == 0x44 || view[13] == 0x64
    ensures var t, order := Step(c, h, Frame(port, view, len, stale, voiceOk)), view[10];
            if len <= 10 then Idles(h, t) && Answers(h, t, port, view[3], 0, 0)
            else if view[9] == 0xA3 then
              && Acts(h, t, Barrier(order), port, h.outs.(up := order == 1, down := order == 0, pulse := order <= 1))
              && Answers(h, t, port, view[3], 0xA3, if order == 0 then 3 else if order == 1 then 2 else 0)
            else if view[9] == 0xAE then
              && Acts(h, t, Lamp(order), port,
                      h.outs.(trafficLed := order == 0 || (order != 1 && h.outs.trafficLed)))
              && Answers(h, t, port, view[3], 0xDE, if order == 1 then 1 else 0)
            else Idles(h, t) && Answers(h, t, port, view[3], 0, 0)
  {
    hide Analysis, Answers, Handled, Step;
    var v, kind := UntaggedHandled(c, port, h.switch, view, len, stale, voiceOk);
    StepOf(c, h, port, view, len, stale, voiceOk, v.effect, kind, v.r0, v.r1);
  }

  // From the other port a display frame does nothing; its answer is zeros, or a
  // heartbeat when the uninitialised reply type says so.
  lemma RefusedDisplay(c: Clients, h: History, port: int, view: seq<bv8>, len: int, stale: bv8, voiceOk: bool)
    requires c.client1 != c.client2 && Sized(view, len) && (port == 1 || port == 2) && view[8] == 0xA4
    requires !((port == 1 && h.switch == 0) || (port == 2 && h.switch == 1))
    ensures var t := Step(c, h, Frame(port, view, len, stale, voiceOk));
            Idles(h, t) && if stale == 0xB0 then Beats(h, t, port) else Answers(h, t, port, view[3], 0, 0)
  {
    var t := Step(c, h, Frame(port, view, len, stale, voiceOk));
    hide Answers, Beats, ReplyTo;
    OneReply(c, view[3], stale, 0, 0, port, h, t);
  }

  // ----- everything else

  // Other frames, and display frames of an unknown type from the port in charge,
  // do nothing and get no answer.
  lemma UnknownFrame(c: Clients, h: History, port: int, view: seq<bv8>, len: int, stale: bv8, voiceOk: bool)
    requires c.client1 != c.client2 && Sized(view, len) && (port == 1 || port == 2)
    requires if view[8] == 0xA4 then
               && ((port == 1 && h.switch == 0) || (port == 2 && h.switch == 1))
               && view[13] != 0x07 && view[13] != 0x53 && view[13] != 0x44 && view[13] != 0x64
             else view[8] != 0xA3 && view[8] != 0xAE
    ensures Step(c, h, Frame(port, view, len, stale, voiceOk)) == h
  {
    assert h.actions + [] == h.actions && h.replies + [] == h.replies;
  }

  // A mode change and a pulse leave the lamps and the answers alone.
  lemma NoFrame(c: Clients, h: History, value: int)
    ensures Step(c, h, Switch(value)) == History(value, h.outs, h.actions, h.replies)
    ensures var t := Step(c, h, PulseFires);
            && (t.switch, t.actions, t.replies) == (h.switch, h.actions, h.replies)
            && t.outs.trafficLed == h.outs.trafficLed && t.outs.flashLight == h.outs.flashLight
            && (h.outs.pulse ==> !t.outs.up && !t.outs.down)
  {
  }
}
