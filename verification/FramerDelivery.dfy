// Consequences of the exact condition: what a sender can rely on, how sharp that
// is, and resynchronisation.
module FramerDelivery {
  import opened Sequences
  import opened Checksum
  import opened Framer
  import opened FramerSafety
  import opened FramerChunking

  // ----- frames that are held back

  // The length the wait after a compaction compares with the bytes present.
  function Needed(f: seq<bv8>): int
    requires |f| >= 9
  {
    if LongShape(f) then f[7] as int + 9
    else if f[3] == 0x90 then f[5] as int + 7
    else f[7] as int
  }

  // Behind a frame just handed over, f is held back exactly when it needs more
  // bytes than f and what follows it.
  lemma HeldBackIffNeeded(f: seq<bv8>, rest: seq<bv8>, live: seq<bv8>)
    requires Framed(f) && live == f + rest && (|rest| > 0 ==> rest[0] == 0xFF)
    ensures Stops(live) <==> Needed(f) > |live|
  {
    var b := Padded(live);
    assert forall k :: 0 <= k < |f| ==> b[k] == f[k];
    if f == HEARTBEAT {
      assert b[9] == if |rest| > 0 then rest[0] else 0;
    } else if ShortShape(f) {
      assert b[11] == if |rest| > 0 then rest[0] else 0;
    }
  }

  lemma FramesStopIffNeeded(fs: seq<seq<bv8>>)
    requires fs != [] && AllFramed(fs)
    ensures |fs[0]| >= 9
    ensures Stops(Concat(fs)) <==> Needed(fs[0]) > |Concat(fs)|
  {
    HeartbeatIsFramed();
    assert Framed(fs[0]);
    FollowedByZeros(fs[0], fs[1..], [], HEARTBEAT);
    assert Concat(fs[1..]) + [] == Concat(fs[1..]);
    HeldBackIffNeeded(fs[0], Concat(fs[1..]), Concat(fs));
  }

  // Every frame but the first needs no more bytes than there are from its start
  // to the end of the stream.
  predicate NeedsAreMet(fs: seq<seq<bv8>>)
    requires AllFramed(fs)
  {
    forall j :: 0 < j < |fs| ==> Framed(fs[j]) && Needed(fs[j]) <= |Concat(fs[j..])|
  }

  lemma NeedsOfRest(fs: seq<seq<bv8>>, h: nat)
    requires AllFramed(fs) && NeedsAreMet(fs) && h <= |fs|
    ensures AllFramed(fs[h..]) && NeedsAreMet(fs[h..])
  {
    forall j | 0 < j < |fs[h..]| ensures Needed(fs[h..][j]) <= |Concat(fs[h..][j..])| {
      assert fs[h..][j..] == fs[h + j..] && fs[h..][j] == fs[h + j];
    }
  }

  // A search over complete frames hands all of them over if and only if that holds.
  lemma {:induction false} AllHandedIffNeedsMet(fs: seq<seq<bv8>>)
    requires AllFramed(fs)
    ensures Handed(fs, []) == |fs| <==> NeedsAreMet(fs)
  {
    if |fs| > 1 {
      var more := fs[1..];
      assert Concat(more) + [] == Concat(more);
      FramesStopIffNeeded(more);
      AllHandedIffNeedsMet(more);
      NeedsStep(fs);
    } else if |fs| == 1 {
      assert Concat(fs[1..]) + [] == [];
    }
  }

  lemma NeedsStep(fs: seq<seq<bv8>>)
    requires AllFramed(fs) && |fs| > 1
    ensures Framed(fs[1]) && AllFramed(fs[1..])
    ensures NeedsAreMet(fs) <==> Needed(fs[1]) <= |Concat(fs[1..])| && NeedsAreMet(fs[1..])
  {
    assert forall j :: 0 < j < |fs| - 1 ==> fs[1..][j..] == fs[j + 1..] && fs[1..][j] == fs[j + 1];
    if Needed(fs[1]) <= |Concat(fs[1..])| && NeedsAreMet(fs[1..]) {
      forall j | 0 < j < |fs| ensures Framed(fs[j]) && Needed(fs[j]) <= |Concat(fs[j..])| {
        if j > 1 { assert fs[1..][j - 1..] == fs[j..] && fs[1..][j - 1] == fs[j]; }
      }
    }
    if NeedsAreMet(fs) { NeedsOfRest(fs, 1); }
  }

  // What is held back is short.
  lemma StopsAreShort(rest: seq<bv8>)
    requires Stops(rest)
    ensures |rest| < LONGEST
  {
  }

  // ----- reads that cut frames gently

  // No frame is longer than this.
  const LONGEST := 274

  // A sender's rule: a frame of at least 14 bytes is not cut after its 9th,
  // 10th, ..., 13th byte.
  predicate Gentle(f: seq<bv8>, n: nat) {
    |f| <= 11 || n <= 8 || n >= 14
  }

  predicate GentlePosition(fs: seq<seq<bv8>>, n: nat) {
    fs == [] ||
    if n < |fs[0]| then Gentle(fs[0], n) else GentlePosition(fs[1..], n - |fs[0]|)
  }

  predicate GentleCuts(offset: nat, fs: seq<seq<bv8>>, chunks: seq<seq<bv8>>) {
    forall j :: 0 <= j <= |chunks| ==> GentlePosition(fs, offset + |Concat(chunks[..j])|)
  }

  lemma GentleTailIsSafe(cmdLen: int, tail: seq<bv8>, g: seq<bv8>, afterFrame: bool)
    requires Framed(g) && PartOf(tail, g) && Gentle(g, |tail|) && cmdLen >= 9
    ensures SafeTail(cmdLen, tail, afterFrame)
  {
  }

  lemma {:induction false} GentleAfterFrames(fs: seq<seq<bv8>>, k: nat, n: nat)
    requires k <= |fs| && |Concat(fs[..k])| <= n
    ensures GentlePosition(fs, n) == GentlePosition(fs[k..], n - |Concat(fs[..k])|)
  {
    if k == 0 {
      assert fs[0..] == fs && Concat(fs[..0]) == [];
    } else {
      ConcatTake(fs, k);
      GentleAfterFrames(fs[1..], k - 1, n - |fs[0]|);
    }
  }

  // A stream of frames with `live` in the buffer and gentle reads to come.
  predicate GentleStream(live: seq<bv8>, fs: seq<seq<bv8>>, chunks: seq<seq<bv8>>) {
    && AllFramed(fs) && live + Concat(chunks) == Concat(fs) && |live| < LONGEST
    && (forall j :: 0 <= j < |chunks| ==> |chunks[j]| <= LIMIT - LONGEST)
    && GentleCuts(|live|, fs, chunks)
  }

  lemma GentleCutsTail(offset: nat, fs: seq<seq<bv8>>, chunks: seq<seq<bv8>>, h: nat, kept: nat)
    requires chunks != [] && GentleCuts(offset, fs, chunks) && h <= |fs|
    requires offset + |chunks[0]| == |Concat(fs[..h])| + kept
    ensures GentleCuts(kept, fs[h..], chunks[1..])
  {
    forall j | 0 <= j <= |chunks| - 1
      ensures GentlePosition(fs[h..], kept + |Concat(chunks[1..][..j])|)
    {
      assert chunks[..j + 1][1..] == chunks[1..][..j];
      GentleAfterFrames(fs, h, offset + |Concat(chunks[..j + 1])|);
    }
  }

  lemma GentleTail(live: seq<bv8>, fs: seq<seq<bv8>>, chunks: seq<seq<bv8>>, k: nat, tail: seq<bv8>)
    requires chunks != [] && GentleCuts(|live|, fs, chunks) && k < |fs|
    requires live + chunks[0] == Concat(fs[..k]) + tail && PartOf(tail, fs[k])
    ensures Gentle(fs[k], |tail|)
  {
    assert chunks[..1] == [chunks[0]] && Concat([chunks[0]]) == chunks[0] + Concat<bv8>([]) == chunks[0];
    GentleAfterFrames(fs, k, |live| + |chunks[0]|);
    assert fs[k..][0] == fs[k];
  }

  lemma InForceLong(cmdLen: int, fs: seq<seq<bv8>>)
    requires AllFramed(fs) && cmdLen >= 9
    ensures LengthInForce(cmdLen, fs) >= 9
  {
    if fs != [] { assert Framed(fs[|fs| - 1]); }
  }

  // A gentle read is safe and leaves little in the buffer.
  lemma GentleRead(cmdLen: int, live: seq<bv8>, fs: seq<seq<bv8>>, chunks: seq<seq<bv8>>)
    requires GentleStream(live, fs, chunks) && chunks != [] && cmdLen >= 9
    ensures var data := live + chunks[0];
            SafeRead(cmdLen, fs, data) && |KeptOf(fs, data)| < LONGEST
  {
    var data := live + chunks[0];
    var k, tail := Complete(fs, |data|), TailOf(fs, data);
    assert data <= Concat(fs) by { ConcatStep(live, chunks); }
    SplitData(fs, data);
    InForceLong(cmdLen, fs[..k]);
    if k < |fs| {
      GentleTail(live, fs, chunks, k, tail);
      GentleTailIsSafe(LengthInForce(cmdLen, fs[..k]), tail, fs[k], k > 0);
      assert |tail| < LONGEST by { assert Framed(fs[k]); }
    }
    hide SafeTail, GentleCuts, Framed;
    KeptIsShort(fs, k, tail);
  }

  lemma KeptIsShort(fs: seq<seq<bv8>>, k: nat, tail: seq<bv8>)
    requires k <= |fs| && |tail| < LONGEST
    ensures |Concat(fs[..k][Handed(fs[..k], tail)..]) + tail| < LONGEST
  {
    var h := Handed(fs[..k], tail);
    if h < k {
      StoppedBehind(fs[..k], tail);
      StopsAreShort(Concat(fs[..k][h..]) + tail);
    } else {
      assert fs[..k][h..] == [] && Concat(fs[..k][h..]) + tail == tail;
    }
  }

  lemma {:induction false} StoppedBehind(fs: seq<seq<bv8>>, tail: seq<bv8>)
    requires Handed(fs, tail) < |fs|
    ensures Stops(Concat(fs[Handed(fs, tail)..]) + tail)
  {
    hide Stops;
    if !Stops(Concat(fs[1..]) + tail) {
      StoppedBehind(fs[1..], tail);
      assert fs[1..][Handed(fs, tail) - 1..] == fs[Handed(fs, tail)..];
    }
  }

  lemma DataSplit(fs: seq<seq<bv8>>, data: seq<bv8>)
    requires data <= Concat(fs)
    ensures data == Concat(fs[..HandedOf(fs, data)]) + KeptOf(fs, data)
  {
    var k, h := Complete(fs, |data|), HandedOf(fs, data);
    SplitData(fs, data);
    ConcatSplit(fs[..k], h);
    assert fs[..k][..h] == fs[..h] && fs[..k][h..] == fs[h..k];
    Assoc(Concat(fs[..h]), Concat(fs[h..k]), TailOf(fs, data));
  }

  lemma GentleStep(cmdLen: int, live: seq<bv8>, fs: seq<seq<bv8>>, chunks: seq<seq<bv8>>)
    requires GentleStream(live, fs, chunks) && chunks != [] && cmdLen >= 9
    ensures var data := live + chunks[0];
            && data <= Concat(fs) && |data| <= LIMIT && SafeRead(cmdLen, fs, data)
            && GentleStream(KeptOf(fs, data), fs[HandedOf(fs, data)..], chunks[1..])
  {
    var data, more := live + chunks[0], Concat(chunks[1..]);
    var h, kept := HandedOf(fs, data), KeptOf(fs, data);
    assert data + more == Concat(fs) by { ConcatStep(live, chunks); }
    assert SafeRead(cmdLen, fs, data) && |kept| < LONGEST by { GentleRead(cmdLen, live, fs, chunks); }
    assert data == Concat(fs[..h]) + kept by { DataSplit(fs, data); }
    assert kept + more == Concat(fs[h..]) by { KeptWithMore(fs, data, more); }
    hide SafeRead, HandedOf, KeptOf, Concat, Framed, GentleCuts;
    GentleCutsTail(|live|, fs, chunks, h, |kept|);
    assert AllFramed(fs[h..]);
  }

  // Gentle reads of bounded size keep the run inside the buffer and every cut safe.
  lemma {:induction false} GentleCutsAreSafe(s: State, live: seq<bv8>, fs: seq<seq<bv8>>, chunks: seq<seq<bv8>>)
    requires Holds(s, live) && Aligned(s) && GentleStream(live, fs, chunks)
    ensures Fits(s, chunks) && SafeCuts(s.cmdLen, live, fs, chunks)
    decreases |chunks|
  {
    if chunks != [] {
      var data := live + chunks[0];
      GentleStep(s.cmdLen, live, fs, chunks);
      assert fs[..Complete(fs, |data|)][HandedOf(fs, data)..] == fs[HandedOf(fs, data)..Complete(fs, |data|)];
      FeedFrames(s, live, chunks[0], fs);
      hide GentleStream, Feed, SafeSearch, Concat, Frames, Wrecked, Complete, TailOf, Handed, LengthLeft;
      GentleCutsAreSafe(Feed(s, chunks[0]), KeptOf(fs, data), fs[HandedOf(fs, data)..], chunks[1..]);
    }
  }

  // ----- chunking independence

  lemma {:induction false} CompleteAll(fs: seq<seq<bv8>>)
    ensures Complete(fs, |Concat(fs)|) == |fs| && TailOf(fs, Concat(fs)) == []
  {
    if fs != [] {
      CompleteAll(fs[1..]);
      assert Concat(fs)[|fs[0]|..] == Concat(fs[1..]);
    }
  }

  lemma {:induction false} AllHandedWhenNeedsMet(live: seq<bv8>, fs: seq<seq<bv8>>, chunks: seq<seq<bv8>>)
    requires AllFramed(fs) && NeedsAreMet(fs) && live + Concat(chunks) == Concat(fs)
    requires chunks == [] ==> fs == []
    ensures HandedBy(live, fs, chunks) == |fs|
    decreases |chunks|
  {
    if chunks != [] {
      var data, more := live + chunks[0], Concat(chunks[1..]);
      var h := HandedOf(fs, data);
      assert data + more == Concat(fs) by { ConcatStep(live, chunks); }
      if chunks[1..] == [] {
        assert data == Concat(fs);
        CompleteAll(fs);
        AllHandedIffNeedsMet(fs);
        assert fs[..|fs|] == fs;
      } else {
        KeptWithMore(fs, data, more);
        NeedsOfRest(fs, h);
        AllHandedWhenNeedsMet(KeptOf(fs, data), fs[h..], chunks[1..]);
      }
    }
  }

  // Any frames and any gentle cutting of their concatenation: the handler gets
  // the first frames, in order and once each, and all of them when no frame needs
  // more bytes than the stream has from its start on.
  lemma GentleStreamIsDelivered(initialLength: int, fs: seq<seq<bv8>>, chunks: seq<seq<bv8>>)
    requires initialLength >= 9 && GentleStream([], fs, chunks)
    ensures Fits(Start(initialLength), chunks)
    ensures Frames(Run(Start(initialLength), chunks).out) == fs[..HandedBy([], fs, chunks)]
    ensures NeedsAreMet(fs) ==> Frames(Run(Start(initialLength), chunks).out) == fs
  {
    var s := Start(initialLength);
    StartHolds(initialLength);
    GentleCutsAreSafe(s, [], fs, chunks);
    SafeCutsHandFramesOver(s, [], fs, chunks);
    hide Run, Start, Fits, GentleCuts, SafeCuts, HandedBy, Framed;
    assert [] + fs[..HandedBy([], fs, chunks)] == fs[..HandedBy([], fs, chunks)];
    if NeedsAreMet(fs) {
      NothingSent(fs, chunks);
      AllHandedWhenNeedsMet([], fs, chunks);
      assert fs[..|fs|] == fs;
    }
  }

  lemma NothingSent(fs: seq<seq<bv8>>, chunks: seq<seq<bv8>>)
    requires AllFramed(fs) && [] + Concat(chunks) == Concat(fs)
    ensures chunks == [] ==> fs == []
  {
    if fs != [] { assert Framed(fs[0]); }
  }

  lemma StartHolds(initialLength: int)
    requires initialLength >= 9
    ensures Holds(Start(initialLength), []) && Aligned(Start(initialLength))
    ensures Frames(Start(initialLength).out) == []
  {
    assert Padded([]) == Zeros(BUFFER_SIZE);
  }

  // Every gentle cutting delivers every frame.
  ghost predicate DeliveredHoweverCut(initialLength: int, fs: seq<seq<bv8>>)
    requires initialLength >= 9
  {
    forall chunks :: GentleStream([], fs, chunks) ==>
      Fits(Start(initialLength), chunks) && Frames(Run(Start(initialLength), chunks).out) == fs
  }

  // Each frame in a read of its own, but everything from frame i on in one.
  function OneByOne(fs: seq<seq<bv8>>, i: nat): seq<seq<bv8>>
    requires i <= |fs|
  {
    fs[..i] + [Concat(fs[i..])]
  }

  lemma BoundaryIsGentle(fs: seq<seq<bv8>>, m: nat)
    requires AllFramed(fs) && m <= |fs|
    ensures GentlePosition(fs, |Concat(fs[..m])|)
  {
    GentleAfterFrames(fs, m, |Concat(fs[..m])|);
    if m < |fs| { assert Framed(fs[m]) && fs[m..][0] == fs[m]; }
  }

  lemma OneByOneIsGentle(fs: seq<seq<bv8>>, i: nat)
    requires AllFramed(fs) && i < |fs| && Stops(Concat(fs[i + 1..]))
    ensures GentleStream([], fs, OneByOne(fs, i))
  {
    var chunks := OneByOne(fs, i);
    assert Concat(chunks) == Concat(fs) by { ConcatAppend(fs[..i], Concat(fs[i..])); ConcatSplit(fs, i); }
    assert [] + Concat(chunks) == Concat(chunks);
    forall j | 0 <= j <= |chunks| ensures GentlePosition(fs, 0 + |Concat(chunks[..j])|) {
      if j <= i {
        assert chunks[..j] == fs[..j];
        BoundaryIsGentle(fs, j);
      } else {
        assert chunks[..j] == chunks && fs[..|fs|] == fs;
        BoundaryIsGentle(fs, |fs|);
      }
    }
    forall j | 0 <= j < |chunks| ensures |chunks[j]| <= LIMIT - LONGEST {
      if j < i { assert Framed(fs[j]); } else { LastReadIsShort(fs, i); }
    }
  }

  lemma LastReadIsShort(fs: seq<seq<bv8>>, i: nat)
    requires AllFramed(fs) && i < |fs| && Stops(Concat(fs[i + 1..]))
    ensures |Concat(fs[i..])| <= LIMIT - LONGEST
  {
    assert Framed(fs[i]) && fs[i..][0] == fs[i] && fs[i..][1..] == fs[i + 1..];
    StopsAreShort(Concat(fs[i + 1..]));
  }

  lemma {:induction false} OneByOneLosesTheLast(fs: seq<seq<bv8>>, i: nat)
    requires AllFramed(fs) && i + 1 < |fs| && Stops(Concat(fs[i + 1..]))
    ensures HandedBy([], fs, OneByOne(fs, i)) == i + 1
    decreases i
  {
    hide Stops, Concat, Framed, HandedBy;
    if i == 0 {
      assert fs[0..] == fs && OneByOne(fs, 0) == [Concat(fs)];
      LastReadHandsOneOver(fs);
    } else {
      assert fs[1..][i - 1..] == fs[i..] && fs[1..][i..] == fs[i + 1..];
      assert OneByOne(fs, i) == [fs[0]] + OneByOne(fs[1..], i - 1);
      FirstReadHandsOneOver(fs, OneByOne(fs[1..], i - 1));
      OneByOneLosesTheLast(fs[1..], i - 1);
    }
  }

  lemma HandedStep(fs: seq<seq<bv8>>)
    requires fs != []
    ensures Handed(fs, []) == if Stops(Concat(fs[1..])) then 1 else 1 + Handed(fs[1..], [])
  {
    assert Concat(fs[1..]) + [] == Concat(fs[1..]);
    hide Stops, Concat;
  }

  lemma LastReadHandsOneOver(fs: seq<seq<bv8>>)
    requires AllFramed(fs) && |fs| > 1 && Stops(Concat(fs[1..]))
    ensures HandedBy([], fs, [Concat(fs)]) == 1
  {
    var chunks := [Concat(fs)];
    assert HandedOf(fs, Concat(fs)) == 1 by {
      CompleteAll(fs);
      assert fs[..|fs|] == fs;
      HandedStep(fs);
    }
    hide Stops, Concat, Framed, HandedOf, KeptOf;
    assert [] + chunks[0] == Concat(fs) && chunks[1..] == [];
  }

  lemma FirstReadHandsOneOver(fs: seq<seq<bv8>>, more: seq<seq<bv8>>)
    requires AllFramed(fs) && |fs| > 1
    ensures HandedBy([], fs, [fs[0]] + more) == 1 + HandedBy([], fs[1..], more)
  {
    var chunks := [fs[0]] + more;
    assert [] + chunks[0] == fs[0] && chunks[1..] == more;
    OneFrameRead(fs);
    hide HandedOf, KeptOf, Framed;
  }

  lemma OneFrameRead(fs: seq<seq<bv8>>)
    requires AllFramed(fs) && |fs| > 1
    ensures HandedOf(fs, fs[0]) == 1 && KeptOf(fs, fs[0]) == []
  {
    assert Framed(fs[0]) && Framed(fs[1]);
    assert fs[0][|fs[0]|..] == [] && TailOf(fs[1..], []) == [];
    assert Complete(fs, |fs[0]|) == 1 && fs[..1] == [fs[0]];
    assert fs[1..1] == [] && Concat<bv8>([]) + [] == [];
  }

  // Chunking independence, exactly: a stream of frames is delivered however it
  // is gently cut if and only if no frame but the first needs more bytes than
  // there are from its start to the end of the stream.
  lemma DeliveredHoweverCutIffNeedsMet(initialLength: int, fs: seq<seq<bv8>>)
    requires initialLength >= 9 && AllFramed(fs)
    ensures DeliveredHoweverCut(initialLength, fs) <==> NeedsAreMet(fs)
  {
    if NeedsAreMet(fs) {
      forall chunks | GentleStream([], fs, chunks)
        ensures Fits(Start(initialLength), chunks) && Frames(Run(Start(initialLength), chunks).out) == fs
      {
        GentleStreamIsDelivered(initialLength, fs, chunks);
      }
    } else {
      var j :| 0 < j < |fs| && Needed(fs[j]) > |Concat(fs[j..])|;
      NotDeliveredOneByOne(initialLength, fs, j);
    }
  }

  lemma NotDeliveredOneByOne(initialLength: int, fs: seq<seq<bv8>>, j: nat)
    requires initialLength >= 9 && AllFramed(fs)
    requires 0 < j < |fs| && Framed(fs[j]) && Needed(fs[j]) > |Concat(fs[j..])|
    ensures !DeliveredHoweverCut(initialLength, fs)
  {
    var chunks := OneByOne(fs, j - 1);
    assert Stops(Concat(fs[j..])) by { FramesStopIffNeeded(fs[j..]); }
    OneByOneIsGentle(fs, j - 1);
    OneByOneLosesTheLast(fs, j - 1);
    GentleStreamIsDelivered(initialLength, fs, chunks);
    assert |fs[..j]| == j;
    hide Run, Start, Fits, GentleStream, HandedBy, OneByOne;
  }

  // The sender's guarantee: frames that announce no more than their own length,
  // gently cut, are delivered exactly.
  lemma ModestFramesAreDelivered(initialLength: int, fs: seq<seq<bv8>>, chunks: seq<seq<bv8>>)
    requires initialLength >= 9 && GentleStream([], fs, chunks)
    requires forall j :: 0 <= j < |fs| ==> Framed(fs[j]) && Needed(fs[j]) <= |fs[j]|
    ensures Fits(Start(initialLength), chunks)
    ensures Frames(Run(Start(initialLength), chunks).out) == fs
  {
    forall j | 0 < j < |fs| ensures Needed(fs[j]) <= |Concat(fs[j..])| {
      assert fs[j..][0] == fs[j];
    }
    assert NeedsAreMet(fs);
    hide Run, Start, Fits, GentleStream, Needed, HandedBy;
    GentleStreamIsDelivered(initialLength, fs, chunks);
  }

  // ----- a display frame cut early

  // One frame in a read of its own.
  lemma OneFrameFed(s: State, g: seq<bv8>)
    requires Holds(s, []) && Aligned(s) && Framed(g)
    ensures |g| <= LIMIT
    ensures var t := Feed(s, g);
            Holds(t, []) && Aligned(t) && Frames(t.out) == Frames(s.out) + [g] && t.cmdLen == |g|
  {
    assert [g][1..] == [] && Concat([g]) == g by { assert g + [] == g; }
    assert [] + g == g;
    WholeFrame(s.cmdLen, g);
    hide Feed, SafeSearch, LengthLeft, Complete, TailOf, Framed, Concat;
    FeedFrames(s, [], g, [g]);
    assert [g][..1] == [g] && [g][1..] == [] && Concat<bv8>([]) + [] == [];
  }

  lemma WholeFrame(cmdLen: int, g: seq<bv8>)
    requires Framed(g)
    ensures Complete([g], |g|) == 1 && TailOf([g], g) == [] && [g][..1] == [g] && Handed([g], []) == 1
    ensures SafeSearch(cmdLen, [g], [], false) && LengthLeft(cmdLen, [g], [], false) == |g|
  {
    assert [g][1..] == [] && g[|g|..] == [] && TailOf([g], g) == TailOf([], []) == [];
    assert Concat([g][1..]) + [] == [];
    assert LengthInForce(cmdLen, [g]) == |g|;
  }

  lemma ConcatOfTwo(a: seq<bv8>, b: seq<bv8>)
    ensures [] + Concat([a, b]) == a + b == Concat([a + b])
  {
    assert [a, b][1..] == [b] && [b][1..] == [] && [a + b][1..] == [];
    assert Concat([b]) == b;
  }

  lemma TwoReads(s: State, a: seq<bv8>, b: seq<bv8>)
    requires Inv(s) && s.pos + |a| + |b| <= LIMIT
    ensures Fits(s, [a, b]) && Run(s, [a, b]) == Feed(Feed(s, a), b)
  {
    assert [a, b][1..] == [b] && [b][1..] == [];
    var t := Feed(s, a);
    assert t.pos <= s.pos + |a|;
    assert Inv(t) && t.pos + |b| <= LIMIT;
    assert Fits(Feed(t, b), []) && Run(t, [b]) == Run(Feed(t, b), []);
  }

  // A display frame of which the first n of 13 bytes come in a read of their own is
  // delivered exactly while n is less than 9, or than the length in force when the
  // sequence byte is not 0x90.
  lemma CutInTwo(s: State, f: seq<bv8>, n: nat)
    requires Holds(s, []) && Aligned(s) && Framed(f) && LongShape(f) && n <= 13
    ensures Fits(s, [f[..n], f[n..]])
    ensures Frames(Run(s, [f[..n], f[n..]]).out) == Frames(s.out) + [f]
            <==> n <= 8 || (f[3] != 0x90 && n < s.cmdLen)
  {
    var a, b := f[..n], f[n..];
    assert a + b == f;
    TwoReads(s, a, b);
    assert Streaming(s, [], [f], [a, b]) by {
      assert [] + Concat([a, b]) == Concat([f]) by { ConcatOfTwo(a, b); }
      hide Fits, Holds, Aligned, Framed, Concat;
    }
    TwoCuts(s.cmdLen, f, n);
    hide *;
    FramesDeliveredIffCutsSafe(s, [], [f], [a, b]);
    assert |[f]| == 1;
  }

  lemma TwoCuts(cmdLen: int, f: seq<bv8>, n: nat)
    requires Framed(f) && LongShape(f) && n <= 13 && cmdLen >= 9
    ensures SafeCuts(cmdLen, [], [f], [f[..n], f[n..]]) <==> n <= 8 || (f[3] != 0x90 && n < cmdLen)
    ensures HandedBy([], [f], [f[..n], f[n..]]) == 1
  {
    var a, b := f[..n], f[n..];
    assert [] + a == a && a + b == f;
    assert [a, b][1..] == [b] && [b][1..] == [];
    FirstPartSafe(cmdLen, f, n);
    FirstPartKept(f, n);
    WholeFrameSafe(LengthOf(cmdLen, [f], a), f);
    hide SafeRead, HandedOf, KeptOf, LengthOf;
    assert SafeCuts(LengthOf(cmdLen, [f], a), a, [f], [b]);
    assert HandedBy(a, [f], [b]) == 1;
  }

  lemma FirstPartKept(f: seq<bv8>, n: nat)
    requires n < |f|
    ensures HandedOf([f], f[..n]) == 0 && KeptOf([f], f[..n]) == f[..n] && [f][0..] == [f]
  {
    assert Complete([f], n) == 0 && TailOf([f], f[..n]) == f[..n];
    assert [f][..0] == [] && [f][0..0] == [] && Concat<bv8>([]) + f[..n] == f[..n];
  }

  lemma FirstPartSafe(cmdLen: int, f: seq<bv8>, n: nat)
    requires Framed(f) && LongShape(f) && n <= 13
    ensures SafeRead(cmdLen, [f], f[..n]) <==> n <= 8 || (f[3] != 0x90 && n < cmdLen)
  {
    assert Complete([f], n) == 0 && TailOf([f], f[..n]) == f[..n] && [f][..0] == [];
    hide Framed;
  }

  lemma WholeFrameSafe(cmdLen: int, f: seq<bv8>)
    requires Framed(f)
    ensures SafeRead(cmdLen, [f], f) && HandedOf([f], f) == 1
  {
    WholeFrame(cmdLen, f);
    hide Complete, TailOf, Handed, Framed, SafeSearch;
  }

  // From the start the length in force is the one the loop starts with.
  lemma DisplayFrameCutShortIsLost(initialLength: int, f: seq<bv8>, n: nat)
    requires initialLength >= 9 && Framed(f) && LongShape(f) && f[3] != 0x90 && n <= 13
    ensures Fits(Start(initialLength), [f[..n], f[n..]])
    ensures Frames(Run(Start(initialLength), [f[..n], f[n..]]).out) == [f] <==> n < initialLength
  {
    StartHolds(initialLength);
    CutInTwo(Start(initialLength), f, n);
    assert Start(initialLength).cmdLen == initialLength;
    hide Run, Fits, Start, Framed, LongShape, Holds;
    assert [] + [f] == [f];
  }

  // Behind a frame g in a read of its own it is the length of g.
  lemma DisplayFrameCutBehindFrame(initialLength: int, g: seq<bv8>, f: seq<bv8>, n: nat)
    requires initialLength >= 9 && Framed(g) && Framed(f) && LongShape(f) && f[3] != 0x90 && n <= 13
    ensures Fits(Start(initialLength), [g, f[..n], f[n..]])
    ensures Frames(Run(Start(initialLength), [g, f[..n], f[n..]]).out) == [g, f] <==> n <= 8 || n < |g|
  {
    var s, chunks := Start(initialLength), [g, f[..n], f[n..]];
    StartHolds(initialLength);
    OneFrameFed(s, g);
    CutInTwo(Feed(s, g), f, n);
    assert chunks[1..] == [f[..n], f[n..]];
    assert s.pos + |g| <= LIMIT && Fits(s, chunks) && Run(s, chunks) == Run(Feed(s, g), chunks[1..]);
    hide Run, Fits, Start, Feed, Framed, LongShape, Holds;
    assert ([] + [g]) + [f] == [g, f];
  }

  // A short command behind a heartbeat is handed over by the same read exactly
  // when what it announces is there: its eleven bytes, or what follows as well.
  lemma ShortFrameBehindHeartbeat(f: seq<bv8>)
    requires Framed(f) && ShortShape(f)
    ensures AllFramed([HEARTBEAT, f]) && (NeedsAreMet([HEARTBEAT, f]) <==> Needed(f) <= 11)
    ensures AllFramed([HEARTBEAT, f, HEARTBEAT])
    ensures NeedsAreMet([HEARTBEAT, f, HEARTBEAT]) <==> Needed(f) <= 20
  {
    HeartbeatIsFramed();
    hide Framed;
    var two, three := [HEARTBEAT, f], [HEARTBEAT, f, HEARTBEAT];
    assert two[1..] == [f] && [f][1..] == [] && Concat([f]) == f;
    assert three[1..] == [f, HEARTBEAT] && [f, HEARTBEAT][1..] == [HEARTBEAT] && [HEARTBEAT][1..] == [];
    assert three[2..] == [HEARTBEAT] && Concat([HEARTBEAT]) == HEARTBEAT;
    assert Concat(three[1..]) == f + HEARTBEAT;
    assert three[1] == f && three[2] == HEARTBEAT && two[1] == f && Needed(HEARTBEAT) == 7;
  }

  // A barrier order that announces twenty bytes.
  const LATE: seq<bv8> := [0xFF, 0xFF, 0, 0, 0, 0, 0, 0x14, 0xA3, 1, 0xB6]

  lemma LateIsFramed()
    ensures Framed(LATE) && ShortShape(LATE) && Needed(LATE) == 20
  {
    assert LATE[2..][..8] == Zeros(5) + [0x14] + [0xA3] + [1];
    ZerosCancel(5);
    XorAppend(Zeros(5), [0x14]);
    XorAppend(Zeros(5) + [0x14], [0xA3]);
    XorAppend(Zeros(5) + [0x14] + [0xA3], [1]);
    hide ShortShape;
    assert Xor([0x14]) == 0x14 && Xor([0xA3]) == 0xA3 && Xor([1]) == 1;
  }

  // Not every stream of frames is delivered: behind a heartbeat this order is
  // lost under some gentle cutting, and under none with another heartbeat after it.
  lemma LateOrderNeedsCompany(initialLength: int)
    requires initialLength >= 9
    ensures AllFramed([HEARTBEAT, LATE]) && !DeliveredHoweverCut(initialLength, [HEARTBEAT, LATE])
    ensures DeliveredHoweverCut(initialLength, [HEARTBEAT, LATE, HEARTBEAT])
  {
    LateIsFramed();
    ShortFrameBehindHeartbeat(LATE);
    hide Framed, DeliveredHoweverCut, NeedsAreMet, Needed;
    DeliveredHoweverCutIffNeedsMet(initialLength, [HEARTBEAT, LATE]);
    DeliveredHoweverCutIffNeedsMet(initialLength, [HEARTBEAT, LATE, HEARTBEAT]);
  }
}
