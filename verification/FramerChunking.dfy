// What the loop makes of a stream of frames, whatever reads it is cut into: the
// exact condition under which every frame is handed over.
module FramerChunking {
  import opened Sequences
  import opened Checksum
  import opened Framer
  import opened FramerSafety

  const HEARTBEAT: seq<bv8> := [0xFF, 0xFF, 0, 0x90, 0, 0, 0, 0, 0x90]

  // A barrier (A3) or lamp (AE) command, whatever length it announces.
  predicate ShortShape(f: seq<bv8>) {
    |f| == 11 && (f[8] == 0xA3 || f[8] == 0xAE)
  }

  // A fee display (A4) command, whose length depends on its type byte.
  predicate LongShape(f: seq<bv8>) {
    && |f| >= 14 && f[8] == 0xA4
    && f[9] == 0xA0 && f[10] == 0xB0 && f[11] == 0xC0 && f[12] == 0xD0
    && (f[13] == 0x44 ==> |f| == 58) && (f[13] == 0x64 ==> |f| == 87) && (f[13] == 0x07 ==> |f| == 23)
    && (f[13] == 0x53 ==> |f| == f[6] as int + 19)
    && (f[13] == 0x44 || f[13] == 0x64 || f[13] == 0x07 || f[13] == 0x53)
  }

  predicate Framed(f: seq<bv8>) {
    && |f| >= 9 && HeaderAt(f, 0) && f[2] == 0 && f[4] == 0 && Passes(f[2..])
    && (f == HEARTBEAT || ShortShape(f) || LongShape(f))
  }

  predicate AllFramed(fs: seq<seq<bv8>>) {
    forall k :: 0 <= k < |fs| ==> Framed(fs[k])
  }

  // The frames handed to the command handler.
  function Frames(out: seq<Dispatch>): (fs: seq<seq<bv8>>)
    ensures |fs| == |out|
  {
    seq(|out|, k requires 0 <= k < |out| => out[k].Bytes())
  }

  function Padded(live: seq<bv8>): (b: seq<bv8>)
    ensures |b| >= BUFFER_SIZE
  {
    live + Zeros(if |live| <= BUFFER_SIZE then BUFFER_SIZE - |live| else 0)
  }

  // Nothing but `live` is in the buffer, and no search is under way.
  predicate Holds(s: State, live: seq<bv8>) {
    && Inv(s)
    && s.buf == Padded(live) && s.pos == |live| && s.index2 == 0
    && (s.index1 == -1 || (s.index1 == 0 && |live| >= 2 && HeaderAt(live, 0)))
  }

  predicate PartOf(tail: seq<bv8>, g: seq<bv8>) {
    tail <= g && |tail| < |g|
  }

  // ----- one frame at the front

  // The byte x behind a short frame f makes the classifier announce more than f.
  predicate Misleads(x: bv8, f: seq<bv8>) {
    9 <= |f| < 14 && (x == 0x44 || x == 0x64 || x == 0x07 || (x == 0x53 && f[8] != 0xAE))
  }

  // A frame is classified right unless the byte 13 places on, which is not its
  // own, misleads the classifier.
  lemma ClassifyFrame(b: seq<bv8>, p: nat, f: seq<bv8>, cmdLen: int)
    requires Framed(f) && p + |f| <= |b| && p + LOOK_AHEAD < |b| && b[p..p + |f|] == f
    ensures if Misleads(b[p + 13], f) then Classify(b, p, cmdLen) > |f| else Classify(b, p, cmdLen) == |f|
  {
    assert forall k {:trigger b[p + k]} :: 0 <= k < |f| ==> b[p + k] == f[k];
    if |f| >= 14 { assert b[p + 13] == f[13] && b[p + 6] == f[6]; }
    assert b[p + 8] == f[8] && b[p + 3] == f[3];
  }

  // A pass that finds a well-formed frame at p hands it over.
  lemma PassFrame(s: State, p: nat, f: seq<bv8>)
    requires Inv(s) && Framed(f) && s.index2 <= p && p + |f| <= s.pos && s.buf[p..p + |f|] == f
    requires !Misleads(s.buf[p + 13], f)
    requires forall k :: s.index2 <= k < p ==> !HeaderAt(s.buf, k)
    ensures var t := s.(index1 := p, cmdLen := |f|);
            Pass(s) == (Taken(t), if StopsAfter(Taken(t)) then Read else Search)
  {
    assert HeaderAt(s.buf, p) by { assert s.buf[p] == f[0] && s.buf[p + 1] == f[1]; }
    FoundAt(s, p);
    assert Passes(s.buf[p + 2..p + |f|]) by { assert s.buf[p..p + |f|][2..] == s.buf[p + 2..p + |f|]; }
    assert 9 <= |f| by { assert Framed(f); }
    hide Pass, Passes, Taken, StopsAfter, Framed, Located, Cursor, HeaderAt, Classify;
    assert Classify(s.buf, p, s.cmdLen) == |f| by { ClassifyFrame(s.buf, p, f, s.cmdLen); }
    PassJudges(s, p, |f|);
  }

  lemma TakenHolds(s: State, p: nat, live: seq<bv8>, rest: seq<bv8>)
    requires Inv(s) && s.pos == |live| && s.buf[..s.pos] == live
    requires s.index1 == p && 9 <= s.cmdLen <= |live| - p && live[p + s.cmdLen..] == rest
    ensures Holds(Taken(s), rest)
    ensures Frames(Taken(s).out) == Frames(s.out) + [live[p..p + s.cmdLen]]
    ensures Taken(s).dropped == s.dropped + p + s.cmdLen && Taken(s).cmdLen == s.cmdLen
  {
    var t, n := Taken(s), p + s.cmdLen;
    LiveSlices(s.buf, live, p, n);
    assert t.out[|s.out|].Bytes() == s.buf[p..][..s.cmdLen];
  }

  lemma LiveSlices(b: seq<bv8>, live: seq<bv8>, p: nat, n: nat)
    requires p <= n <= |live| <= |b| && b[..|live|] == live
    ensures b[n..|live|] == live[n..] && b[p..][..n - p] == live[p..n]
  {
    assert b[n..|live|] == b[..|live|][n..];
    assert b[p..][..n - p] == b[..|live|][p..n];
  }

  // What follows a frame shows zeros where the classifier of a short frame looks.
  lemma FollowedByZeros(f: seq<bv8>, fs: seq<seq<bv8>>, tail: seq<bv8>, g: seq<bv8>)
    requires Framed(f) && AllFramed(fs) && Framed(g) && PartOf(tail, g)
    ensures |f| < 14 ==> Padded(f + (Concat(fs) + tail))[13] == 0
    ensures var rest := Concat(fs) + tail; |rest| > 0 ==> rest[0] == 0xFF
  {
    var rest := Concat(fs) + tail;
    var h := if fs == [] then g else fs[0];
    assert Framed(h);
    assert forall k :: 0 <= k < 5 && k < |rest| ==> rest[k] == h[k];
    assert |f| < 14 ==> |f| == 9 || |f| == 11;
  }

  // ----- the bytes of a frame that has not fully arrived

  // The loop leaves a partial frame alone but for one case: a display frame of
  // which 9 to 13 bytes are there and whose type has therefore not arrived. It is
  // left alone behind another frame that makes it wait, or while it is shorter
  // than the length in force, which a sequence byte 0x90 sets to 9.
  predicate SafeTail(cmdLen: int, tail: seq<bv8>, afterFrame: bool) {
    || |tail| <= 8 || |tail| >= 14 || tail[8] != 0xA4
    || (afterFrame && HeldBack(Padded(tail), |tail|))
    || (tail[3] != 0x90 && |tail| < cmdLen)
  }

  // The length in force after the loop has looked at a partial frame it leaves alone:
  // that of the frame once its type is there, else what it was, or 9 for a sequence
  // byte 0x90 before the device byte has arrived.
  function LengthAfter(cmdLen: int, tail: seq<bv8>, afterFrame: bool): (len: int)
    ensures cmdLen >= 9 ==> len >= 9
  {
    if |tail| < 7 || (afterFrame && HeldBack(Padded(tail), |tail|)) then cmdLen
    else if |tail| <= 8 then (if tail[3] == 0x90 then 9 else cmdLen)
    else if tail[8] != 0xA4 then 11
    else if |tail| <= 13 then cmdLen
    else LongLength(tail)
  }

  // The length of a display frame, by its type byte.
  function LongLength(f: seq<bv8>): int
    requires |f| >= 14
  {
    if f[13] == 0x44 then 58 else if f[13] == 0x64 then 87 else if f[13] == 0x07 then 23 else f[6] as int + 19
  }

  // What the classifier makes of a partial frame.
  lemma ClassifyPart(cmdLen: int, tail: seq<bv8>, g: seq<bv8>)
    requires Framed(g) && PartOf(tail, g) && cmdLen >= 9 && |tail| >= 7
    ensures var len := Classify(Padded(tail), 0, cmdLen);
            && (SafeTail(cmdLen, tail, false) <==> len > |tail|)
            && (SafeTail(cmdLen, tail, false) ==> len == LengthAfter(cmdLen, tail, false))
  {
    var b := Padded(tail);
    assert forall k :: 0 <= k < |tail| ==> b[k] == g[k] == tail[k];
    assert forall k :: |tail| <= k < 14 ==> b[k] == 0;
    assert b[13] == if |tail| > 13 then g[13] else 0;
    assert b[8] == if |tail| > 8 then g[8] else 0;
    assert b[3] == g[3] && b[6] == g[6];
  }

  lemma PassSafeTail(s: State, tail: seq<bv8>, g: seq<bv8>)
    requires Holds(s, tail) && Framed(g) && PartOf(tail, g) && |tail| >= 4
    requires SafeTail(s.cmdLen, tail, false)
    ensures Pass(s) == (s.(index1 := 0, cmdLen := LengthAfter(s.cmdLen, tail, false)), Read)
  {
    assert HeaderAt(s.buf, 0) by { assert s.buf[0] == tail[0] == g[0] && s.buf[1] == tail[1] == g[1]; }
    FoundAt(s, 0);
    if |tail| >= 7 {
      ClassifyPart(s.cmdLen, tail, g);
      PassJudges(s, 0, Classify(s.buf, 0, s.cmdLen));
      hide Pass, Located, Cursor, Classify, SafeTail, LengthAfter, Framed, HeaderAt;
    } else {
      hide Classify, FindHeader, Framed, HeaderAt;
    }
  }

  // ----- states that can no longer deliver every frame

  // A wrong slice has been handed over, or bytes have been passed over.
  predicate Wrecked(s: State, all: seq<seq<bv8>>) {
    !(Frames(s.out) <= all) || |Concat(Frames(s.out))| < s.dropped + s.index2
  }

  lemma PassUnsafeTail(s: State, tail: seq<bv8>, g: seq<bv8>, all: seq<seq<bv8>>)
    requires Holds(s, tail) && Framed(g) && PartOf(tail, g)
    requires !SafeTail(s.cmdLen, tail, false)
    requires |Frames(s.out)| < |all| && all[|Frames(s.out)|] == g
    requires |Concat(Frames(s.out))| == s.dropped
    ensures Wrecked(Pass(s).0, all)
  {
    assert HeaderAt(s.buf, 0) by { assert s.buf[0] == tail[0] == g[0] && s.buf[1] == tail[1] == g[1]; }
    FoundAt(s, 0);
    ClassifyPart(s.cmdLen, tail, g);
    hide Pass, Located, Cursor, Classify, SafeTail, Framed, HeaderAt, Wrecked;
    PassJudges(s, 0, Classify(s.buf, 0, s.cmdLen));
    JudgedTooEarly(s.(index1 := 0, cmdLen := Classify(s.buf, 0, s.cmdLen)), g, all);
  }

  // A part of the expected frame g is judged as if it were complete.
  lemma JudgedTooEarly(t: State, g: seq<bv8>, all: seq<seq<bv8>>)
    requires Inv(t) && t.index1 == t.index2 == 0 && t.cmdLen <= t.pos < |g|
    requires |t.out| < |all| && all[|t.out|] == g
    requires |Concat(Frames(t.out))| == t.dropped
    ensures Wrecked(Judged(t).0, all)
  {
    hide Passes, FindHeader, HeaderAt, StopsAfter, Concat;
    if Passes(t.buf[t.index1 + 2..t.index1 + t.cmdLen]) {
      ShortSlice(t, g, all);
    } else {
      assert Judged(t).0.out == t.out;
    }
  }

  lemma ShortSlice(t: State, g: seq<bv8>, all: seq<seq<bv8>>)
    requires Inv(t) && t.index1 == 0 && t.cmdLen <= t.pos < |g| && |t.out| < |all| && all[|t.out|] == g
    ensures Wrecked(Taken(t), all)
  {
    var fs := Frames(Taken(t).out);
    assert |fs[|t.out|]| == t.cmdLen < |g|;
    hide Concat, Frames;
  }

  lemma WreckedTaken(s: State, all: seq<seq<bv8>>)
    requires Inv(s) && s.index2 <= s.index1 && s.cmdLen <= s.pos - s.index1
    requires Wrecked(s, all)
    ensures Wrecked(Taken(s), all)
  {
    var t := Taken(s);
    var f := t.out[|s.out|].Bytes();
    assert Frames(t.out) == Frames(s.out) + [f];
    ConcatAppend(Frames(s.out), f);
    if Frames(t.out) <= all { assert Frames(s.out) <= all; }
  }

  lemma WreckedJudged(t: State, all: seq<seq<bv8>>)
    requires Inv(t) && t.index2 <= t.index1 && t.cmdLen <= t.pos - t.index1
    requires Wrecked(t, all)
    ensures Wrecked(Judged(t).0, all)
  {
    if Passes(t.buf[t.index1 + 2..t.index1 + t.cmdLen]) { WreckedTaken(t, all); }
  }

  lemma WreckedPass(s: State, all: seq<seq<bv8>>)
    requires Inv(s) && Wrecked(s, all)
    ensures Wrecked(Pass(s).0, all)
  {
    var index1 := Located(s);
    if 0 <= index1 && s.pos - index1 >= 7 {
      var t := s.(index1 := index1, cmdLen := Classify(s.buf, Cursor(s), s.cmdLen));
      if t.cmdLen <= t.pos - index1 { WreckedJudged(t, all); }
    }
  }

  lemma {:induction false} WreckedScan(s: State, all: seq<seq<bv8>>)
    requires Inv(s) && Wrecked(s, all)
    ensures Wrecked(Scan(s), all)
    decreases s.pos, s.pos - s.index2
  {
    WreckedPass(s, all);
    if Pass(s).1.Search? { WreckedScan(Pass(s).0, all); }
  }

  lemma {:induction false} WreckedRun(s: State, chunks: seq<seq<bv8>>, all: seq<seq<bv8>>)
    requires Fits(s, chunks) && Wrecked(s, all)
    ensures Wrecked(Run(s, chunks), all)
    decreases |chunks|
  {
    if chunks != [] {
      var r := Received(s, chunks[0]);
      assert Wrecked(r, all);
      if r.pos >= 4 { WreckedScan(r, all); }
      WreckedRun(Feed(s, chunks[0]), chunks[1..], all);
    }
  }

  // ----- one search over complete frames and a partial one

  // After a frame was handed over the loop waits for the next read when these
  // bytes are left.
  predicate Stops(rest: seq<bv8>) {
    |rest| < 4 || HeldBack(Padded(rest), |rest|)
  }

  // How many of the complete frames fs one search hands over when `tail` follows
  // them: the first one always, and on until it stops.
  function Handed(fs: seq<seq<bv8>>, tail: seq<bv8>): (h: nat)
    ensures h <= |fs| && (fs != [] ==> h > 0)
  {
    if fs == [] then 0
    else if Stops(Concat(fs[1..]) + tail) then 1
    else 1 + Handed(fs[1..], tail)
  }

  lemma SplitFront(fs: seq<seq<bv8>>, tail: seq<bv8>, live: seq<bv8>)
    requires fs != [] && live == Concat(fs) + tail
    ensures live == fs[0] + (Concat(fs[1..]) + tail)
    ensures |fs[0]| <= |live| && live[..|fs[0]|] == fs[0] && live[|fs[0]|..] == Concat(fs[1..]) + tail
  {
  }

  // The pass at a complete frame f with `rest` behind it.
  lemma FrontFrameTaken(s: State, f: seq<bv8>, live: seq<bv8>, rest: seq<bv8>)
    requires Framed(f) && Holds(s, live) && |f| <= |live| && live[..|f|] == f && live[|f|..] == rest
    requires |f| < 14 ==> Padded(live)[13] == 0
    ensures var (t, outcome) := Pass(s);
            && outcome == (if StopsAfter(t) then Read else Search)
            && Holds(t, rest)
            && Frames(t.out) == Frames(s.out) + [f]
            && t.dropped == s.dropped + |f| && t.cmdLen == |f|
  {
    hide Pass, Taken;
    assert s.buf[0..0 + |f|] == live[0..|f|] == f;
    PassFrame(s, 0, f);
    TakenHolds(s.(index1 := 0, cmdLen := |f|), 0, live, rest);
  }

  lemma FirstFrameTaken(s: State, fs: seq<seq<bv8>>, tail: seq<bv8>, g: seq<bv8>, live: seq<bv8>)
    requires fs != [] && AllFramed(fs) && Framed(g) && PartOf(tail, g)
    requires live == Concat(fs) + tail && Holds(s, live)
    ensures var (t, outcome) := Pass(s); var rest := Concat(fs[1..]) + tail;
            && outcome == (if Stops(rest) then Read else Search)
            && Holds(t, rest)
            && Frames(t.out) == Frames(s.out) + [fs[0]]
            && t.dropped == s.dropped + |fs[0]| && t.cmdLen == |fs[0]|
  {
    var f, rest := fs[0], Concat(fs[1..]) + tail;
    SplitFront(fs, tail, live);
    FollowedByZeros(f, fs[1..], tail, g);
    FrontFrameTaken(s, f, live, rest);
    hide Pass, Framed, HeldBack;
  }

  // The length in force when the loop comes to the partial frame.
  function LengthInForce(cmdLen: int, fs: seq<seq<bv8>>): int {
    if fs == [] then cmdLen else |fs[|fs| - 1]|
  }

  predicate Aligned(s: State) {
    |Concat(Frames(s.out))| == s.dropped
  }

  // A search that comes to the partial frame leaves it alone.
  predicate SafeSearch(cmdLen: int, fs: seq<seq<bv8>>, tail: seq<bv8>, late: bool) {
    Handed(fs, tail) == |fs| ==> SafeTail(LengthInForce(cmdLen, fs), tail, late || fs != [])
  }

  // The length in force after such a search.
  function LengthLeft(cmdLen: int, fs: seq<seq<bv8>>, tail: seq<bv8>, late: bool): int {
    var h := Handed(fs, tail);
    if h < |fs| then LengthInForce(cmdLen, fs[..h])
    else LengthAfter(LengthInForce(cmdLen, fs), tail, late || fs != [])
  }

  // The outcome of a safe search: h frames are handed over, the others and the
  // partial one stay whole in the buffer.
  predicate Searched(s: State, t: State, fs: seq<seq<bv8>>, tail: seq<bv8>, late: bool) {
    var h := Handed(fs, tail);
    && Holds(t, Concat(fs[h..]) + tail) && Aligned(t)
    && Frames(t.out) == Frames(s.out) + fs[..h]
    && t.cmdLen == LengthLeft(s.cmdLen, fs, tail, late)
  }

  lemma ScanTail(s: State, tail: seq<bv8>, g: seq<bv8>, all: seq<seq<bv8>>, after: bool)
    requires Framed(g) && PartOf(tail, g)
    requires Holds(s, tail) && Aligned(s) && s.pos >= 4
    requires Frames(s.out) <= all
    requires |s.out| < |all| && all[|s.out|] == g
    requires after ==> !Stops(tail)
    ensures if SafeTail(s.cmdLen, tail, after)
            then
              var t := Scan(s);
              Holds(t, tail) && Aligned(t) && t.out == s.out && t.cmdLen == LengthAfter(s.cmdLen, tail, after)
            else Wrecked(Scan(s), all)
  {
    if SafeTail(s.cmdLen, tail, after) {
      PassSafeTail(s, tail, g);
    } else {
      PassUnsafeTail(s, tail, g, all);
      var (t, outcome) := Pass(s);
      if outcome.Search? { WreckedScan(t, all); }
    }
  }

  // The buffer holds the frames fs and a part of g; `all` are the frames to be
  // delivered over the whole run.
  predicate Ready(s: State, fs: seq<seq<bv8>>, tail: seq<bv8>, g: seq<bv8>, all: seq<seq<bv8>>) {
    && AllFramed(fs) && Framed(g) && PartOf(tail, g)
    && Holds(s, Concat(fs) + tail) && Aligned(s)
    && Frames(s.out) + fs <= all
    && (tail != [] ==> |s.out| + |fs| < |all| && all[|s.out| + |fs|] == g)
  }

  lemma {:induction false} ScanFrames(s: State, fs: seq<seq<bv8>>, tail: seq<bv8>, g: seq<bv8>,
                                      all: seq<seq<bv8>>, late: bool)
    requires Ready(s, fs, tail, g, all) && s.pos >= 4
    requires late ==> !Stops(Concat(fs) + tail)
    ensures if SafeSearch(s.cmdLen, fs, tail, late) then Searched(s, Scan(s), fs, tail, late)
            else Wrecked(Scan(s), all)
    decreases |fs|
  {
    if fs == [] {
      ScanNoFrames(s, tail, g, all, late);
    } else {
      FrameStepReady(s, fs, tail, g, all);
      var (t, outcome) := Pass(s);
      if outcome.Search? {
        assert t.pos >= 4;
        ScanFrames(t, fs[1..], tail, g, all, true);
        StepLength(s.cmdLen, fs, tail, late);
        hide Pass, Ready, SafeSearch, Searched, Wrecked;
        if SafeSearch(s.cmdLen, fs, tail, late) { SearchedStep(s, t, Scan(t), fs, tail, late); }
      } else {
        SearchedOne(s, t, fs, tail, late);
        hide Pass, Ready, SafeSearch, Searched, Wrecked;
      }
    }
  }

  lemma ScanNoFrames(s: State, tail: seq<bv8>, g: seq<bv8>, all: seq<seq<bv8>>, late: bool)
    requires Ready(s, [], tail, g, all) && s.pos >= 4
    requires late ==> !Stops(Concat<bv8>([]) + tail)
    ensures if SafeSearch(s.cmdLen, [], tail, late) then Searched(s, Scan(s), [], tail, late)
            else Wrecked(Scan(s), all)
  {
    assert Concat([]) + tail == tail;
    assert Frames(s.out) + [] == Frames(s.out);
    ScanTail(s, tail, g, all, late);
    hide Scan, SafeTail, Wrecked, LengthAfter;
  }

  lemma FrameStepReady(s: State, fs: seq<seq<bv8>>, tail: seq<bv8>, g: seq<bv8>, all: seq<seq<bv8>>)
    requires Ready(s, fs, tail, g, all) && fs != []
    ensures var (t, outcome) := Pass(s); var rest := Concat(fs[1..]) + tail;
            && Ready(t, fs[1..], tail, g, all)
            && Frames(t.out) == Frames(s.out) + [fs[0]] && t.cmdLen == |fs[0]|
            && t.pos == |rest| && outcome == if Stops(rest) then Read else Search
  {
    FirstFrameTaken(s, fs, tail, g, Concat(fs) + tail);
    hide Pass, Stops, Ready, Concat, Frames;
    ReadyNext(s, Pass(s).0, fs, tail, g, all);
  }

  lemma ReadyNext(s: State, t: State, fs: seq<seq<bv8>>, tail: seq<bv8>, g: seq<bv8>, all: seq<seq<bv8>>)
    requires Ready(s, fs, tail, g, all) && fs != []
    requires Holds(t, Concat(fs[1..]) + tail)
    requires Frames(t.out) == Frames(s.out) + [fs[0]] && t.dropped == s.dropped + |fs[0]|
    ensures Ready(t, fs[1..], tail, g, all)
  {
    hide Holds, Framed, Frames, Concat;
    assert AllFramed(fs[1..]);
    assert Aligned(t) && Frames(t.out) + fs[1..] <= all && |t.out| == |s.out| + 1 by { StepAligned(s, t, fs, all); }
  }

  lemma StepAligned(s: State, t: State, fs: seq<seq<bv8>>, all: seq<seq<bv8>>)
    requires fs != [] && Aligned(s) && Frames(s.out) + fs <= all
    requires Frames(t.out) == Frames(s.out) + [fs[0]] && t.dropped == s.dropped + |fs[0]|
    ensures Aligned(t) && Frames(t.out) + fs[1..] <= all && |t.out| == |s.out| + 1
  {
    ConcatAppend(Frames(s.out), fs[0]);
    assert Frames(t.out) + fs[1..] == Frames(s.out) + fs;
    assert |Frames(t.out)| == |t.out|;
  }

  // The search goes on behind the first frame.
  lemma StepLength(cmdLen: int, fs: seq<seq<bv8>>, tail: seq<bv8>, late: bool)
    requires fs != [] && !Stops(Concat(fs[1..]) + tail)
    ensures var len := |fs[0]|;
            && SafeSearch(cmdLen, fs, tail, late) == SafeSearch(len, fs[1..], tail, true)
            && LengthLeft(cmdLen, fs, tail, late) == LengthLeft(len, fs[1..], tail, true)
  {
    hide Stops, SafeTail, LengthAfter;
    var h := Handed(fs, tail);
    assert h == 1 + Handed(fs[1..], tail);
    assert fs[..h][1..] == fs[1..][..h - 1];
    assert LengthInForce(cmdLen, fs) == LengthInForce(|fs[0]|, fs[1..]);
    assert LengthInForce(cmdLen, fs[..h]) == LengthInForce(|fs[0]|, fs[1..][..h - 1]);
  }

  lemma TakeNext(a: seq<seq<bv8>>, fs: seq<seq<bv8>>, h: nat)
    requires h < |fs|
    ensures (a + [fs[0]]) + fs[1..][..h] == a + fs[..1 + h] && fs[1..][h..] == fs[1 + h..]
  {
  }

  lemma SearchedStep(s: State, t: State, u: State, fs: seq<seq<bv8>>, tail: seq<bv8>, late: bool)
    requires fs != [] && !Stops(Concat(fs[1..]) + tail)
    requires Frames(t.out) == Frames(s.out) + [fs[0]] && t.cmdLen == |fs[0]|
    requires Searched(t, u, fs[1..], tail, true)
    ensures Searched(s, u, fs, tail, late)
  {
    StepLength(s.cmdLen, fs, tail, late);
    var h := Handed(fs[1..], tail);
    assert Handed(fs, tail) == 1 + h;
    hide Stops, Holds, Aligned, LengthLeft, Frames, Handed, Concat;
    TakeNext(Frames(s.out), fs, h);
  }

  // The search ends behind the first frame.
  lemma SearchedOne(s: State, t: State, fs: seq<seq<bv8>>, tail: seq<bv8>, late: bool)
    requires fs != [] && Stops(Concat(fs[1..]) + tail)
    requires Holds(t, Concat(fs[1..]) + tail) && Aligned(t)
    requires Frames(t.out) == Frames(s.out) + [fs[0]] && t.cmdLen == |fs[0]|
    ensures SafeSearch(s.cmdLen, fs, tail, late) && Searched(s, t, fs, tail, late)
  {
    assert fs[..1] == [fs[0]];
    if |fs| == 1 {
      assert fs[1..] == [] && Concat(fs[1..]) + tail == tail;
      assert Stops(tail);
    }
  }

  // ----- cutting a stream of frames into reads

  // How many of the frames are complete within the first n bytes.
  function Complete(fs: seq<seq<bv8>>, n: nat): (k: nat)
    ensures k <= |fs|
  {
    if fs == [] || n < |fs[0]| then 0 else 1 + Complete(fs[1..], n - |fs[0]|)
  }

  // What is left of the first n bytes after the complete frames.
  function TailOf(fs: seq<seq<bv8>>, data: seq<bv8>): seq<bv8> {
    if fs == [] || |data| < |fs[0]| then data else TailOf(fs[1..], data[|fs[0]|..])
  }

  lemma {:induction false} SplitData(fs: seq<seq<bv8>>, data: seq<bv8>)
    requires data <= Concat(fs)
    ensures var k := Complete(fs, |data|);
            && data == Concat(fs[..k]) + TailOf(fs, data)
            && (k < |fs| ==> PartOf(TailOf(fs, data), fs[k]))
            && (k == |fs| ==> TailOf(fs, data) == [])
    decreases |fs|
  {
    var k := Complete(fs, |data|);
    if fs == [] || |data| < |fs[0]| {
      assert Concat(fs[..k]) == [];
      if fs != [] { assert data <= fs[0]; }
    } else {
      SplitDataStep(fs[0], Concat(fs[1..]), data);
      SplitData(fs[1..], data[|fs[0]|..]);
      ConcatTake(fs, k);
      Assoc(fs[0], Concat(fs[1..][..k - 1]), TailOf(fs, data));
    }
  }

  lemma SplitDataStep(f: seq<bv8>, more: seq<bv8>, data: seq<bv8>)
    requires |f| <= |data| && data <= f + more
    ensures data == f + data[|f|..] && data[|f|..] <= more
  {
    assert (f + more)[..|f|] == f && (f + more)[|f|..] == more;
  }

  // What a read leaves behind when `data` are the bytes then in the buffer: how
  // many of the frames it hands over, what stays, and the length in force.
  function HandedOf(fs: seq<seq<bv8>>, data: seq<bv8>): (h: nat)
    ensures h <= Complete(fs, |data|)
  {
    Handed(fs[..Complete(fs, |data|)], TailOf(fs, data))
  }

  function KeptOf(fs: seq<seq<bv8>>, data: seq<bv8>): seq<bv8> {
    Concat(fs[HandedOf(fs, data)..Complete(fs, |data|)]) + TailOf(fs, data)
  }

  function LengthOf(cmdLen: int, fs: seq<seq<bv8>>, data: seq<bv8>): int {
    LengthLeft(cmdLen, fs[..Complete(fs, |data|)], TailOf(fs, data), false)
  }

  predicate SafeRead(cmdLen: int, fs: seq<seq<bv8>>, data: seq<bv8>) {
    SafeSearch(cmdLen, fs[..Complete(fs, |data|)], TailOf(fs, data), false)
  }

  // Every cut at which a search comes to the partial frame leaves one the loop
  // waits for. Complete frames that are held back carry over whole.
  predicate SafeCuts(cmdLen: int, live: seq<bv8>, fs: seq<seq<bv8>>, chunks: seq<seq<bv8>>)
    decreases |chunks|
  {
    chunks == [] ||
    var data := live + chunks[0];
    && SafeRead(cmdLen, fs, data)
    && SafeCuts(LengthOf(cmdLen, fs, data), KeptOf(fs, data), fs[HandedOf(fs, data)..], chunks[1..])
  }

  // How many of the frames the reads hand over.
  function HandedBy(live: seq<bv8>, fs: seq<seq<bv8>>, chunks: seq<seq<bv8>>): (n: nat)
    ensures n <= |fs|
    decreases |chunks|
  {
    if chunks == [] then 0
    else
      var data := live + chunks[0];
      var h := HandedOf(fs, data);
      h + HandedBy(KeptOf(fs, data), fs[h..], chunks[1..])
  }

  // One read in the middle of a stream of frames.
  lemma FeedFrames(s: State, live: seq<bv8>, chunk: seq<bv8>, fs: seq<seq<bv8>>)
    requires Holds(s, live) && Aligned(s) && s.pos + |chunk| <= LIMIT
    requires AllFramed(fs) && live + chunk <= Concat(fs)
    ensures var data := live + chunk;
            var fs', tail := fs[..Complete(fs, |data|)], TailOf(fs, data);
            if SafeSearch(s.cmdLen, fs', tail, false) then Searched(s, Feed(s, chunk), fs', tail, false)
            else Wrecked(Feed(s, chunk), Frames(s.out) + fs)
  {
    var data := live + chunk;
    var k, tail := Complete(fs, |data|), TailOf(fs, data);
    SplitData(fs, data);
    ReceivedHolds(s, live, chunk);
    if |data| < 4 {
      assert k == 0 by { if k > 0 { assert Framed(fs[0]); } }
      FewBytes(s, Received(s, chunk), data);
      assert fs[..0] == [] && tail == data;
    } else {
      ScanReceived(Received(s, chunk), fs, k, tail, data, Frames(s.out) + fs);
      hide Scan, SafeSearch, Wrecked;
    }
  }

  lemma FewBytes(s: State, r: State, data: seq<bv8>)
    requires Holds(r, data) && Aligned(r) && r.out == s.out && r.cmdLen == s.cmdLen && |data| < 4
    ensures SafeSearch(s.cmdLen, [], data, false) && Searched(s, r, [], data, false)
  {
    assert Concat([]) + data == data;
    assert Frames(s.out) + [] == Frames(s.out);
  }

  lemma ReceivedHolds(s: State, live: seq<bv8>, chunk: seq<bv8>)
    requires Holds(s, live) && Aligned(s) && s.pos + |chunk| <= LIMIT
    ensures Holds(Received(s, chunk), live + chunk) && Aligned(Received(s, chunk))
  {
    assert Padded(live + chunk) == Received(s, chunk).buf;
  }

  lemma ScanReceived(r: State, fs: seq<seq<bv8>>, k: nat, tail: seq<bv8>, data: seq<bv8>, all: seq<seq<bv8>>)
    requires AllFramed(fs) && k <= |fs| && data == Concat(fs[..k]) + tail
    requires Holds(r, data) && Aligned(r) && r.pos >= 4 && Frames(r.out) + fs == all
    requires if k == |fs| then tail == [] else PartOf(tail, fs[k])
    ensures if SafeSearch(r.cmdLen, fs[..k], tail, false) then Searched(r, Scan(r), fs[..k], tail, false)
            else Wrecked(Scan(r), all)
  {
    HeartbeatIsFramed();
    var g := if k < |fs| then fs[k] else HEARTBEAT;
    assert Ready(r, fs[..k], tail, g, all);
    hide Ready, Scan, SafeSearch, Searched, Wrecked, Concat, Framed;
    ScanFrames(r, fs[..k], tail, g, all, false);
  }

  lemma HeartbeatIsFramed()
    ensures Framed(HEARTBEAT)
  {
    assert HEARTBEAT[2..][..6] == [0] + [0x90] + Zeros(4);
    XorAppend([0] + [0x90], Zeros(4));
    XorAppend([0], [0x90]);
    ZerosCancel(4);
  }

  // A run in the middle of a stream: `live` is in the buffer, the reads `chunks`
  // are to come, and together they are the frames fs.
  predicate Streaming(s: State, live: seq<bv8>, fs: seq<seq<bv8>>, chunks: seq<seq<bv8>>) {
    && Holds(s, live) && Aligned(s) && Fits(s, chunks)
    && AllFramed(fs) && live + Concat(chunks) == Concat(fs)
  }

  lemma SafeCutStep(s: State, live: seq<bv8>, fs: seq<seq<bv8>>, chunks: seq<seq<bv8>>)
    requires Streaming(s, live, fs, chunks) && chunks != []
    ensures var data := live + chunks[0];
            var h := HandedOf(fs, data);
            var t := Feed(s, chunks[0]);
            if SafeRead(s.cmdLen, fs, data) then
              && Streaming(t, KeptOf(fs, data), fs[h..], chunks[1..])
              && Frames(t.out) == Frames(s.out) + fs[..h]
              && t.cmdLen == LengthOf(s.cmdLen, fs, data)
            else Wrecked(t, Frames(s.out) + fs)
  {
    hide Feed, Complete, TailOf, SafeSearch, Wrecked, LengthLeft;
    hide Concat, Frames, Holds, Aligned, Inv, Framed;
    var data, more := live + chunks[0], Concat(chunks[1..]);
    assert data + more == Concat(fs) by { ConcatStep(live, chunks); }
    assert data <= Concat(fs) by { assert data + more == Concat(fs); }
    FeedFrames(s, live, chunks[0], fs);
    KeptWithMore(fs, data, more);
    assert Fits(Feed(s, chunks[0]), chunks[1..]);
    var k, h := Complete(fs, |data|), HandedOf(fs, data);
    assert fs[..k][..h] == fs[..h] && fs[..k][h..] == fs[h..k];
    assert AllFramed(fs[h..]);
  }

  // What stays and what is to come are the frames not yet handed over.
  lemma KeptWithMore(fs: seq<seq<bv8>>, data: seq<bv8>, more: seq<bv8>)
    requires data + more == Concat(fs)
    ensures KeptOf(fs, data) + more == Concat(fs[HandedOf(fs, data)..])
  {
    var k, h := Complete(fs, |data|), HandedOf(fs, data);
    assert TailOf(fs, data) + more == Concat(fs[k..]) by { RemainderOf(fs, data, more); }
    assert fs[h..][..k - h] == fs[h..k] && fs[h..][k - h..] == fs[k..];
    ConcatSplit(fs[h..], k - h);
    Assoc(Concat(fs[h..k]), TailOf(fs, data), more);
    hide Complete, TailOf, HandedOf, Concat;
  }

  // Safe cuts: the frames handed over are the first ones, in order and once each.
  lemma {:induction false} SafeCutsHandFramesOver(
      s: State, live: seq<bv8>, fs: seq<seq<bv8>>, chunks: seq<seq<bv8>>)
    requires Streaming(s, live, fs, chunks) && SafeCuts(s.cmdLen, live, fs, chunks)
    ensures Frames(Run(s, chunks).out) == Frames(s.out) + fs[..HandedBy(live, fs, chunks)]
    decreases |chunks|
  {
    if chunks == [] {
      assert fs[..0] == [] && Frames(s.out) + [] == Frames(s.out);
    } else {
      var data := live + chunks[0];
      var h := HandedOf(fs, data);
      SafeCutStep(s, live, fs, chunks);
      hide Streaming, HandedOf, KeptOf, LengthOf, SafeRead, Feed, Frames;
      SafeCutsHandFramesOver(Feed(s, chunks[0]), KeptOf(fs, data), fs[h..], chunks[1..]);
      TakeTwice(Frames(s.out), fs, h, HandedBy(KeptOf(fs, data), fs[h..], chunks[1..]));
    }
  }

  lemma TakeTwice(a: seq<seq<bv8>>, fs: seq<seq<bv8>>, h: nat, n: nat)
    requires h + n <= |fs|
    ensures (a + fs[..h]) + fs[h..][..n] == a + fs[..h + n]
  {
  }

  // An unsafe cut: some frame never comes, or something else does.
  lemma {:induction false} UnsafeCutsLose(s: State, live: seq<bv8>, fs: seq<seq<bv8>>, chunks: seq<seq<bv8>>)
    requires Streaming(s, live, fs, chunks) && !SafeCuts(s.cmdLen, live, fs, chunks)
    ensures Frames(Run(s, chunks).out) != Frames(s.out) + fs
    decreases |chunks|
  {
    var data := live + chunks[0];
    var h := HandedOf(fs, data);
    SafeCutStep(s, live, fs, chunks);
    if SafeRead(s.cmdLen, fs, data) {
      hide Streaming, HandedOf, KeptOf, LengthOf, SafeRead, Feed, Frames;
      UnsafeCutsLose(Feed(s, chunks[0]), KeptOf(fs, data), fs[h..], chunks[1..]);
      Regroup(Frames(s.out), fs, h);
    } else {
      LostForGood(s, live, fs, chunks, Frames(s.out) + fs);
    }
  }

  // The exact condition. Whatever the frames and wherever the stream is cut, the
  // handler gets exactly the frames, in order and once each, if and only if
  // every cut is safe and nothing is held back after the last read.
  lemma FramesDeliveredIffCutsSafe(s: State, live: seq<bv8>, fs: seq<seq<bv8>>, chunks: seq<seq<bv8>>)
    requires Streaming(s, live, fs, chunks)
    ensures Frames(Run(s, chunks).out) == Frames(s.out) + fs
            <==> SafeCuts(s.cmdLen, live, fs, chunks) && HandedBy(live, fs, chunks) == |fs|
  {
    if SafeCuts(s.cmdLen, live, fs, chunks) {
      SafeCutsHandFramesOver(s, live, fs, chunks);
      var n := HandedBy(live, fs, chunks);
      assert |Frames(s.out) + fs[..n]| == |Frames(s.out)| + n;
      if n == |fs| { assert fs[..n] == fs; }
    } else {
      UnsafeCutsLose(s, live, fs, chunks);
    }
  }

  lemma LostForGood(s: State, live: seq<bv8>, fs: seq<seq<bv8>>, chunks: seq<seq<bv8>>, all: seq<seq<bv8>>)
    requires Holds(s, live) && Aligned(s) && Fits(s, chunks) && chunks != []
    requires live + Concat(chunks) == Concat(fs) && all == Frames(s.out) + fs
    requires Wrecked(Feed(s, chunks[0]), all)
    ensures Frames(Run(s, chunks).out) != all
  {
    WreckedRun(Feed(s, chunks[0]), chunks[1..], all);
    ConcatSplit(all, |s.out|);
    assert all[..|s.out|] == Frames(s.out) && all[|s.out|..] == fs;
    EverythingReceived(s, chunks, live, all);
  }

  lemma RemainderOf(fs: seq<seq<bv8>>, data: seq<bv8>, more: seq<bv8>)
    requires data + more == Concat(fs)
    ensures var k := Complete(fs, |data|); TailOf(fs, data) + more == Concat(fs[k..])
    ensures var k := Complete(fs, |data|); k < |fs| ==> |TailOf(fs, data)| < |fs[k]|
  {
    var k := Complete(fs, |data|);
    assert data <= Concat(fs);
    SplitData(fs, data);
    ConcatSplit(fs, k);
    SamePrefix(Concat(fs[..k]), TailOf(fs, data) + more, Concat(fs[k..]));
  }

  // A wrecked run that has received the whole stream has not delivered it.
  lemma EverythingReceived(s: State, chunks: seq<seq<bv8>>, live: seq<bv8>, all: seq<seq<bv8>>)
    requires Holds(s, live) && Aligned(s) && Fits(s, chunks)
    requires |Concat(all)| == |Concat(Frames(s.out))| + |live| + |Concat(chunks)|
    requires Wrecked(Run(s, chunks), all)
    ensures Frames(Run(s, chunks).out) != all
  {
    RunReceivesAll(s, chunks);
  }

  lemma {:induction false} RunReceivesAll(s: State, chunks: seq<seq<bv8>>)
    requires Fits(s, chunks)
    ensures var t := Run(s, chunks); t.dropped + t.pos == s.dropped + s.pos + |Concat(chunks)|
    decreases |chunks|
  {
    if chunks != [] {
      var r := Received(s, chunks[0]);
      if r.pos >= 4 { ScanReceivesNothing(r); }
      RunReceivesAll(Feed(s, chunks[0]), chunks[1..]);
    }
  }

  lemma {:induction false} ScanReceivesNothing(s: State)
    requires Inv(s)
    ensures Scan(s).dropped + Scan(s).pos == s.dropped + s.pos
    decreases s.pos, s.pos - s.index2
  {
    if Pass(s).1.Search? { ScanReceivesNothing(Pass(s).0); }
  }
}
