// How the loop finds its way back behind junk or a damaged frame, in any state,
// with whatever bytes earlier discards have left in the buffer.
module FramerResync {
  import opened Sequences
  import opened Checksum
  import opened Framer
  import opened FramerSafety
  import opened FramerChunking
  import opened FramerDelivery

  // ----- complete frames that end the live part of the buffer

  // The next header the search finds is at the start of the frames fs. What lies
  // behind the live part is arbitrary.
  predicate FramesFrom(s: State, p: nat, fs: seq<seq<bv8>>) {
    && Inv(s) && AllFramed(fs) && fs != []
    && s.index2 <= p <= s.pos && s.buf[p..s.pos] == Concat(fs)
    && forall k :: s.index2 <= k < p ==> !HeaderAt(s.buf, k)
  }

  // Only a short frame with none behind it is classified by a byte that is not
  // part of the stream.
  predicate Misread(x: bv8, fs: seq<seq<bv8>>) {
    |fs| == 1 && Misleads(x, fs[0])
  }

  // The first frames are handed over, the others are whole in a zeroed buffer.
  predicate HandsOver(s: State, t: State, fs: seq<seq<bv8>>) {
    var h := Handed(fs, []);
    Frames(t.out) == Frames(s.out) + fs[..h] && Holds(t, Concat(fs[h..]))
  }

  lemma SliceAt(b: seq<bv8>, p: nat, pos: nat, f: seq<bv8>, rest: seq<bv8>)
    requires p <= pos <= |b| && b[p..pos] == f + rest
    ensures p + |f| <= pos && b[p..p + |f|] == f
    ensures b[..pos][p..p + |f|] == f && b[..pos][p + |f|..] == rest
  {
    assert b[p..p + |f|] == b[p..pos][..|f|];
    assert b[..pos][p + |f|..] == b[p..pos][|f|..];
  }

  // The outcome of a pass that hands the first of the frames over.
  predicate TookFirst(s: State, r: (State, Outcome), fs: seq<seq<bv8>>)
    requires fs != []
  {
    && Holds(r.0, Concat(fs[1..])) && Frames(r.0.out) == Frames(s.out) + [fs[0]]
    && r.1 == if Stops(Concat(fs[1..])) then Read else Search
  }

  lemma FrameTakenAt(s: State, p: nat, f: seq<bv8>, live: seq<bv8>, rest: seq<bv8>)
    requires Inv(s) && Framed(f) && s.index2 <= p && p + |f| <= s.pos && s.buf[p..p + |f|] == f
    requires !Misleads(s.buf[p + 13], f)
    requires forall k :: s.index2 <= k < p ==> !HeaderAt(s.buf, k)
    requires s.buf[..s.pos] == live && s.pos == |live|
    requires live[p..p + |f|] == f && live[p + |f|..] == rest
    ensures var (t, outcome) := Pass(s);
            && Holds(t, rest) && Frames(t.out) == Frames(s.out) + [f]
            && outcome == if Stops(rest) then Read else Search
  {
    var u := s.(index1 := p, cmdLen := |f|);
    hide Pass, Taken, Frames, HeaderAt, Passes, HeldBack, Padded, StopsAfter, Stops;
    assert Inv(u) && Pass(s) == (Taken(u), if StopsAfter(Taken(u)) then Read else Search) by { PassFrame(s, p, f); }
    assert Holds(Taken(u), rest) && Frames(Taken(u).out) == Frames(s.out) + [f] by { TakenHolds(u, p, live, rest); }
    StopsAsHeld(Taken(u), rest);
  }

  lemma StopsAsHeld(t: State, rest: seq<bv8>)
    requires Holds(t, rest)
    ensures StopsAfter(t) == Stops(rest)
  {
  }

  // With another frame behind it, a short frame is classified by a zero of that one.
  lemma ZeroOfNextFrame(b: seq<bv8>, p: nat, pos: nat, fs: seq<seq<bv8>>)
    requires AllFramed(fs) && |fs| > 1 && p <= pos <= |b| && b[p..pos] == Concat(fs)
    requires |fs[0]| < 14
    ensures p + 13 < pos && b[p + 13] == 0
  {
    var f, g := fs[0], fs[1];
    assert Framed(f) && Framed(g) && fs[1..][0] == g;
    assert |f| == 9 || |f| == 11;
    assert Concat(fs) == f + (g + Concat(fs[1..][1..]));
    assert b[p + 13] == b[p..pos][13] == g[13 - |f|];
  }

  lemma FrameAtTaken(s: State, p: nat, fs: seq<seq<bv8>>)
    requires FramesFrom(s, p, fs) && !Misread(s.buf[p + 13], fs)
    ensures TookFirst(s, Pass(s), fs)
  {
    assert !Misleads(s.buf[p + 13], fs[0]) by {
      if |fs| > 1 && |fs[0]| < 14 { ZeroOfNextFrame(s.buf, p, s.pos, fs); }
    }
    hide Pass, StopsAfter, Frames, Misleads;
    SliceAt(s.buf, p, s.pos, fs[0], Concat(fs[1..]));
    FrameTakenAt(s, p, fs[0], s.buf[..s.pos], Concat(fs[1..]));
  }

  // Once the first frame is taken the others follow until one is held back.
  lemma AfterFirstFrame(s: State, fs: seq<seq<bv8>>)
    requires Inv(s) && fs != [] && AllFramed(fs)
    requires TookFirst(s, Pass(s), fs)
    ensures HandsOver(s, Scan(s), fs)
    decreases |fs|, 0
  {
    var t, more := Pass(s).0, fs[1..];
    hide Pass, Stops, Frames, Concat, Framed;
    if Stops(Concat(more)) {
      StopsAtOnce(s, t, fs);
    } else {
      assert more != [] by { NothingStops(more); }
      RemainingFrames(t, more);
      hide Holds, HandsOver;
      GoesOn(s, t, Scan(t), fs);
    }
  }

  lemma StopsAtOnce(s: State, t: State, fs: seq<seq<bv8>>)
    requires fs != [] && Stops(Concat(fs[1..]))
    requires Holds(t, Concat(fs[1..])) && Frames(t.out) == Frames(s.out) + [fs[0]]
    ensures HandsOver(s, t, fs)
  {
    HandedStep(fs);
    hide Stops, Holds, Frames, Handed, Concat;
    assert fs[..1] == [fs[0]];
  }

  lemma GoesOn(s: State, t: State, u: State, fs: seq<seq<bv8>>)
    requires fs != [] && !Stops(Concat(fs[1..]))
    requires Frames(t.out) == Frames(s.out) + [fs[0]] && HandsOver(t, u, fs[1..])
    ensures HandsOver(s, u, fs)
  {
    HandedStep(fs);
    hide Stops, Holds, Frames, Handed, Concat;
    TakeNext(Frames(s.out), fs, Handed(fs[1..], []));
  }

  lemma NothingStops(fs: seq<seq<bv8>>)
    requires !Stops(Concat(fs))
    ensures fs != []
  {
  }

  lemma {:induction false} RemainingFrames(s: State, fs: seq<seq<bv8>>)
    requires fs != [] && AllFramed(fs) && Holds(s, Concat(fs))
    ensures HandsOver(s, Scan(s), fs)
    decreases |fs|, 1
  {
    HeartbeatIsFramed();
    assert Concat(fs) + [] == Concat(fs) && Concat(fs[1..]) + [] == Concat(fs[1..]);
    FirstFrameTaken(s, fs, [], HEARTBEAT, Concat(fs));
    hide Holds, Framed, Pass, Stops, Scan, HandsOver;
    AfterFirstFrame(s, fs);
  }

  lemma LoneFrame(fs: seq<seq<bv8>>)
    requires |fs| == 1
    ensures Concat(fs) == fs[0]
  {
    assert fs[1..] == [] && fs[0] + [] == fs[0];
  }

  // A misread frame waits in the buffer.
  lemma MisreadFrameWaits(s: State, p: nat, fs: seq<seq<bv8>>)
    requires FramesFrom(s, p, fs) && Misread(s.buf[p + 13], fs)
    ensures Scan(s).out == s.out && Scan(s).pos == s.pos && Scan(s).buf == s.buf
  {
    var f := fs[0];
    LoneFrame(fs);
    assert Framed(f) && s.pos == p + |f| && s.buf[p..p + |f|] == f;
    assert HeaderAt(s.buf, p) by { assert s.buf[p] == f[0] && s.buf[p + 1] == f[1]; }
    FoundAt(s, p);
    assert |f| >= 9 by { assert Framed(f); }
    ClassifyFrame(s.buf, p, f, s.cmdLen);
    hide Pass, Located, Cursor, Judged, Classify, Framed, HeaderAt;
    PassJudges(s, p, Classify(s.buf, p, s.cmdLen));
  }

  lemma WaitingIsNotHandingOver(s: State, t: State, fs: seq<seq<bv8>>)
    requires fs != [] && t.out == s.out
    ensures !HandsOver(s, t, fs) && Frames(t.out) != Frames(s.out) + fs
  {
    var h := Handed(fs, []);
    assert |Frames(s.out) + fs[..h]| == |Frames(s.out)| + h;
    assert |Frames(s.out) + fs| == |Frames(s.out)| + |fs|;
  }

  // What is handed over are the first frames, and all of them if and only if no
  // frame behind the first is held back.
  lemma AllOrFirst(s: State, t: State, fs: seq<seq<bv8>>)
    requires HandsOver(s, t, fs) && AllFramed(fs)
    ensures Frames(t.out) <= Frames(s.out) + fs
    ensures Frames(t.out) == Frames(s.out) + fs <==> NeedsAreMet(fs)
  {
    hide NeedsAreMet, Frames, Holds, Framed, Handed;
    AllHandedIffNeedsMet(fs);
    var h := Handed(fs, []);
    Regroup(Frames(s.out), fs, h);
    assert |Frames(s.out) + fs[..h]| == |Frames(s.out)| + h;
    if h == |fs| { assert fs[..h] == fs; }
  }

  // The outcome: the frames are handed over, up to the first that is held back,
  // if and only if the byte x 13 places behind their start does not misread a
  // lone short frame, and all are if and only if none is held back either.
  predicate Resynchronised(s: State, t: State, fs: seq<seq<bv8>>, x: bv8)
    requires AllFramed(fs)
  {
    && (HandsOver(s, t, fs) <==> !Misread(x, fs))
    && (Misread(x, fs) ==> t.out == s.out)
    && (Frames(t.out) == Frames(s.out) + fs <==> !Misread(x, fs) && NeedsAreMet(fs))
  }

  lemma FramesFromResynchronise(s: State, p: nat, fs: seq<seq<bv8>>)
    requires FramesFrom(s, p, fs)
    ensures Resynchronised(s, Scan(s), fs, s.buf[p + 13])
  {
    if Misread(s.buf[p + 13], fs) {
      MisreadFrameWaits(s, p, fs);
      WaitingIsNotHandingOver(s, Scan(s), fs);
    } else {
      FrameAtTaken(s, p, fs);
      AfterFirstFrame(s, fs);
      AllOrFirst(s, Scan(s), fs);
    }
    hide Misread, HandsOver, Scan, NeedsAreMet, Frames;
  }

  // ----- junk

  predicate NoHeaderIn(junk: seq<bv8>, from: nat) {
    && (forall k :: from <= k < |junk| - 1 ==> !HeaderAt(junk, k))
    && (junk != [] ==> junk[|junk| - 1] != 0xFF)
  }

  lemma NoHeaderBefore(junk: seq<bv8>, more: seq<bv8>, b: seq<bv8>, from: nat)
    requires NoHeaderIn(junk, from) && |more| >= 2 && HeaderAt(more, 0)
    requires |junk| + |more| <= |b| && b[..|junk| + |more|] == junk + more
    ensures forall k :: from <= k < |junk| ==> !HeaderAt(b, k)
    ensures HeaderAt(b, |junk|)
  {
    assert forall k :: 0 <= k < |junk| + |more| ==> b[k] == (junk + more)[k];
    forall k | from <= k < |junk| ensures !HeaderAt(b, k) {
      if k < |junk| - 1 { assert !HeaderAt(junk, k); }
    }
  }

  lemma TailSlice(a: seq<bv8>, more: seq<bv8>, b: seq<bv8>)
    requires |a| + |more| <= |b| && b[..|a| + |more|] == a + more
    ensures b[|a|..|a| + |more|] == more
  {
    assert b[|a|..|a| + |more|] == b[..|a| + |more|][|a|..];
  }

  lemma LiveAfterRead(s: State, chunk: seq<bv8>, live: seq<bv8>)
    requires Inv(s) && s.pos + |chunk| <= LIMIT && s.buf[..s.pos] + chunk == live
    ensures var r := Received(s, chunk); r.pos == |live| && r.buf[..r.pos] == live
  {
  }

  lemma FramesBehind(r: State, before: seq<bv8>, fs: seq<seq<bv8>>)
    requires fs != [] && AllFramed(fs)
    requires Inv(r) && r.pos == |before| + |Concat(fs)| && r.buf[..r.pos] == before + Concat(fs)
    ensures r.buf[|before|..r.pos] == Concat(fs) && |Concat(fs)| >= 9 && HeaderAt(Concat(fs), 0)
  {
    assert Framed(fs[0]);
    assert Concat(fs)[0] == fs[0][0] && Concat(fs)[1] == fs[0][1] && |Concat(fs)| >= |fs[0]|;
    TailSlice(before, Concat(fs), r.buf);
  }

  // In any state: when a read completes junk without a header and complete frames
  // behind it, exactly the frames are handed over, but for a misread one.
  lemma JunkIsSkipped(s: State, junk: seq<bv8>, chunk: seq<bv8>, fs: seq<seq<bv8>>)
    requires Inv(s) && s.pos + |chunk| <= LIMIT && s.buf[..s.pos] + chunk == junk + Concat(fs)
    requires s.index2 <= |junk| && NoHeaderIn(junk, s.index2) && fs != [] && AllFramed(fs)
    ensures |junk| + 9 <= s.pos + |chunk|
    ensures Resynchronised(s, Feed(s, chunk), fs, Received(s, chunk).buf[|junk| + 13])
  {
    var r := Received(s, chunk);
    LiveAfterRead(s, chunk, junk + Concat(fs));
    FramesBehind(r, junk, fs);
    NoHeaderBefore(junk, Concat(fs), r.buf, s.index2);
    assert FramesFrom(r, |junk|, fs);
    hide Scan, FramesFrom, Concat, NoHeaderIn, Framed, HandsOver, Misread, NeedsAreMet, HeaderAt, Frames;
    FramesFromResynchronise(r, |junk|, fs);
    assert Feed(s, chunk) == Scan(r);
    SameStart(s, r, Scan(r), fs, r.buf[|junk| + 13]);
  }

  lemma SameStart(s: State, r: State, t: State, fs: seq<seq<bv8>>, x: bv8)
    requires r.out == s.out && AllFramed(fs) && Resynchronised(r, t, fs, x)
    ensures Resynchronised(s, t, fs, x)
  {
  }

  // ----- a bad frame

  // In any state: the same behind junk and a frame that is all there but fails
  // its checksum.
  lemma BadFrameIsSkipped(s: State, junk: seq<bv8>, bad: seq<bv8>, chunk: seq<bv8>, fs: seq<seq<bv8>>)
    requires Inv(s) && s.pos + |chunk| <= LIMIT && s.buf[..s.pos] + chunk == (junk + bad) + Concat(fs)
    requires s.index2 <= |junk| && NoHeaderIn(junk, s.index2) && fs != [] && AllFramed(fs)
    requires |bad| >= 2 && HeaderAt(bad, 0) && NoHeaderIn(bad, 1)
    requires var r := Received(s, chunk); var len := Classify(r.buf, |junk|, s.cmdLen);
             |junk| + len <= r.pos && !Passes(r.buf[|junk| + 2..|junk| + len])
    ensures |junk + bad| + 9 <= s.pos + |chunk|
    ensures Resynchronised(s, Feed(s, chunk), fs, Received(s, chunk).buf[|junk + bad| + 13])
  {
    var r, n := Received(s, chunk), |junk + bad|;
    LiveAfterRead(s, chunk, (junk + bad) + Concat(fs));
    FramesBehind(r, junk + bad, fs);
    HeadersOf(r.buf, junk, bad, Concat(fs), s.index2);
    hide NoHeaderIn, Concat, HandsOver, Misread, NeedsAreMet, Framed, Frames;
    BadFramePassedOver(r, |junk|, n);
    var t := Pass(r).0;
    assert FramesFrom(t, n, fs);
    hide Pass, FramesFrom, HeaderAt, Classify, Passes;
    FramesFromResynchronise(t, n, fs);
    assert Feed(s, chunk) == Scan(r) == Scan(t);
    SameStart(s, t, Scan(t), fs, r.buf[n + 13]);
  }

  // The headers in junk, a bad frame, and more that starts with one.
  lemma HeadersOf(b: seq<bv8>, junk: seq<bv8>, bad: seq<bv8>, more: seq<bv8>, from: nat)
    requires from <= |junk| && NoHeaderIn(junk, from) && |more| >= 2 && HeaderAt(more, 0)
    requires |bad| >= 2 && HeaderAt(bad, 0) && NoHeaderIn(bad, 1)
    requires |junk + bad| + |more| <= |b| && b[..|junk + bad| + |more|] == (junk + bad) + more
    ensures forall k :: from <= k < |junk| ==> !HeaderAt(b, k)
    ensures HeaderAt(b, |junk|) && HeaderAt(b, |junk + bad|)
    ensures forall k :: |junk| < k < |junk + bad| ==> !HeaderAt(b, k)
  {
    Assoc(junk, bad, more);
    assert HeaderAt(bad + more, 0);
    NoHeaderBefore(junk, bad + more, b, from);
    var c := b[|junk|..];
    assert c[..|bad| + |more|] == bad + more by {
      TailSlice(junk, bad + more, b);
      assert c[..|bad| + |more|] == b[|junk|..|junk| + |bad + more|];
    }
    NoHeaderBefore(bad, more, c, 1);
    assert forall k :: 0 <= k < |c| ==> c[k] == b[|junk| + k];
    forall k | |junk| < k < |junk + bad| ensures !HeaderAt(b, k) {
      assert !HeaderAt(c, k - |junk|);
    }
    assert HeaderAt(c, |bad|);
  }

  lemma BadFramePassedOver(r: State, p: nat, n: nat)
    requires Inv(r) && r.index2 <= p && p + 2 <= n && n + 7 <= r.pos
    requires HeaderAt(r.buf, p) && HeaderAt(r.buf, n)
    requires forall k :: r.index2 <= k < p ==> !HeaderAt(r.buf, k)
    requires forall k :: p < k < n ==> !HeaderAt(r.buf, k)
    requires var len := Classify(r.buf, p, r.cmdLen); p + len <= r.pos && !Passes(r.buf[p + 2..p + len])
    ensures var len := Classify(r.buf, p, r.cmdLen);
            Pass(r) == (r.(index1 := -1, index2 := n, cmdLen := len), Search)
  {
    FoundAt(r, p);
    FindHeaderIs(r.buf, p + 1, r.pos, n);
    hide Pass, Located, Cursor, FindHeader, Classify, Passes, HeaderAt;
    PassJudges(r, p, Classify(r.buf, p, r.cmdLen));
  }

  // ----- junk or a bad frame in a read of its own

  // Complete frames in one read, behind whatever live bytes without a header the
  // reads before have left.
  lemma FramesInNextRead(t: State, fs: seq<seq<bv8>>)
    requires Inv(t) && t.index2 <= t.pos && NoHeaderIn(t.buf[..t.pos], t.index2)
    requires fs != [] && AllFramed(fs) && t.pos + |Concat(fs)| <= LIMIT
    ensures Resynchronised(t, Feed(t, Concat(fs)), fs, t.buf[t.pos + 13])
  {
    hide Feed, Resynchronised, NoHeaderIn, Concat;
    JunkIsSkipped(t, t.buf[..t.pos], Concat(fs), fs);
    var x := Received(t, Concat(fs)).buf[t.pos + 13];
    if |fs| == 1 && |fs[0]| < 14 { ByteBehind(t, fs); }
    SameMisreading(t, Feed(t, Concat(fs)), fs, x, t.buf[t.pos + 13]);
  }

  lemma ByteBehind(t: State, fs: seq<seq<bv8>>)
    requires Inv(t) && AllFramed(fs) && |fs| == 1 && |fs[0]| < 14 && t.pos + |Concat(fs)| <= LIMIT
    ensures Received(t, Concat(fs)).buf[t.pos + 13] == t.buf[t.pos + 13]
  {
    LoneFrame(fs);
    assert Framed(fs[0]);
    hide Framed, Concat;
  }

  lemma SameMisreading(s: State, t: State, fs: seq<seq<bv8>>, x: bv8, y: bv8)
    requires AllFramed(fs) && Resynchronised(s, t, fs, x)
    requires |fs| == 1 && |fs[0]| < 14 ==> x == y
    ensures Resynchronised(s, t, fs, y)
  {
    assert Misread(x, fs) == Misread(y, fs);
  }

  // What a read without live bytes before it has left: everything given up, or
  // all of it still live. Either way its bytes are in the buffer.
  predicate Leaves(s: State, x: seq<bv8>, t: State) {
    && Inv(t) && t.index2 == 0 && t.out == s.out && |x| <= |s.buf| && t.buf == x + s.buf[|x|..]
    && (t.pos == 0 || t.pos == |x|)
  }

  lemma ReceivedFirst(s: State, x: seq<bv8>)
    requires Inv(s) && s.pos == 0 && |x| <= LIMIT
    ensures var r := Received(s, x);
            && r.buf == x + s.buf[|x|..] && r.pos == |x| && r.index2 == 0 && r.buf[..r.pos] == x && r.out == s.out
            && (forall k :: 0 <= k < |x| - 1 ==> (HeaderAt(r.buf, k) <==> HeaderAt(x, k)))
  {
    assert Received(s, x).buf == x + s.buf[|x|..];
  }

  // A pass over junk that hands no slice over.
  lemma JunkPass(r: State)
    requires Inv(r) && r.index2 == 0 && (forall k :: 0 <= k < r.pos - 1 ==> !HeaderAt(r.buf, k))
    ensures var (t, outcome) := Pass(r);
            t.out == r.out ==> outcome.Read? && t.buf == r.buf && t.index2 == 0 && (t.pos == 0 || t.pos == r.pos)
    ensures r.index1 < 0 ==> Pass(r) == (Emptied(r), Read)
  {
    FindHeaderNone(r.buf, 0, r.pos);
    assert Located(r) == r.index1;
    if r.index1 >= 0 { FindHeaderNone(r.buf, r.index1 + 1, r.pos); }
    hide FindHeader, HeaderAt, Classify, Passes, StopsAfter;
  }

  lemma JunkReadLeaves(s: State, junk: seq<bv8>)
    requires Inv(s) && s.pos == 0 && |junk| <= LIMIT && NoHeaderIn(junk, 0)
    ensures Feed(s, junk).out == s.out ==> Leaves(s, junk, Feed(s, junk))
    ensures s.index1 < 0 ==> Leaves(s, junk, Feed(s, junk)) && (|junk| >= 4 ==> Feed(s, junk).pos == 0)
  {
    var r := Received(s, junk);
    ReceivedFirst(s, junk);
    hide HeaderAt;
    if |junk| >= 4 {
      JunkPass(r);
      SlicesStay(r);
    }
    hide Pass, Received, NoHeaderIn;
  }

  // A scan that leaves no slice has none in its first pass.
  lemma SlicesStay(r: State)
    requires Inv(r)
    ensures Scan(r).out == r.out ==> Pass(r).0.out == r.out
  {
    SliceHeadedIffFound(r);
    var (t, outcome) := Pass(r);
    if outcome.Search? { ScanAppends(t); }
    hide Pass, Headed;
  }

  lemma FramesAfter(s: State, x: seq<bv8>, t: State, fs: seq<seq<bv8>>)
    requires Leaves(s, x, t) && (t.pos == 0 || NoHeaderIn(x, 0))
    requires fs != [] && AllFramed(fs) && t.pos + |Concat(fs)| <= LIMIT
    ensures Resynchronised(s, Feed(t, Concat(fs)), fs, t.buf[t.pos + 13])
  {
    assert t.buf[..t.pos] == if t.pos == 0 then [] else x;
    FramesInNextRead(t, fs);
    hide Feed, NoHeaderIn, Resynchronised;
    SameStart(s, t, Feed(t, Concat(fs)), fs, t.buf[t.pos + 13]);
  }

  lemma FitsTwoReads(s: State, x: seq<bv8>, y: seq<bv8>)
    requires Fits(s, [x, y])
    ensures s.pos + |x| <= LIMIT && Feed(s, x).pos + |y| <= LIMIT && Run(s, [x, y]) == Feed(Feed(s, x), y)
  {
    assert [x, y][1..] == [y] && [y][1..] == [];
    var t := Feed(s, x);
    assert Fits(t, [y]) && Run(t, [y]) == Run(Feed(t, y), []);
  }

  // Junk in one read, the frames in the next. A lone short frame is lost exactly
  // when the byte 13 places on, of the junk or older, misleads the classifier.
  // With a stale remembered position the junk may itself be handed over instead.
  lemma JunkInItsOwnRead(s: State, junk: seq<bv8>, fs: seq<seq<bv8>>)
    requires Inv(s) && s.pos == 0 && NoHeaderIn(junk, 0)
    requires fs != [] && AllFramed(fs) && Fits(s, [junk, Concat(fs)])
    ensures |junk| <= LIMIT
    ensures s.index1 < 0 ==> Feed(s, junk).out == s.out
    ensures var t := Feed(s, junk);
            t.out == s.out ==>
              t.pos + 13 < BUFFER_SIZE && Resynchronised(s, Run(s, [junk, Concat(fs)]), fs, t.buf[t.pos + 13])
  {
    FitsTwoReads(s, junk, Concat(fs));
    JunkReadLeaves(s, junk);
    hide Feed, Run, Fits, NoHeaderIn, Resynchronised;
    var t := Feed(s, junk);
    if t.out == s.out { FramesAfter(s, junk, t, fs); }
  }

  // From a state with no remembered position that byte is known beforehand.
  function LeftBehind(s: State, junk: seq<bv8>): bv8
    requires |s.buf| == BUFFER_SIZE && |junk| <= LIMIT
  {
    if |junk| < 4 then s.buf[|junk| + 13] else if |junk| > 13 then junk[13] else s.buf[13]
  }

  lemma ByteLeftByJunk(s: State, junk: seq<bv8>)
    requires Inv(s) && s.pos == 0 && s.index1 < 0 && |junk| <= LIMIT && NoHeaderIn(junk, 0)
    ensures var t := Feed(s, junk); t.pos + 13 < BUFFER_SIZE && t.buf[t.pos + 13] == LeftBehind(s, junk)
  {
    JunkReadLeaves(s, junk);
    if |junk| < 4 { assert Feed(s, junk) == Received(s, junk); }
    hide NoHeaderIn, Scan;
  }

  // One header, complete as classified, and failing the checksum.
  predicate IsBad(s: State, bad: seq<bv8>)
    requires Inv(s) && s.pos == 0 && |bad| <= LIMIT
  {
    && |bad| >= 2 && HeaderAt(bad, 0) && NoHeaderIn(bad, 1)
    && var b := Received(s, bad).buf; var len := Classify(b, 0, s.cmdLen);
       len <= |bad| && !Passes(b[2..len])
  }

  lemma BadPassGivesUp(r: State)
    requires Inv(r) && r.index2 == 0 && r.pos >= 2 && HeaderAt(r.buf, 0)
    requires forall k :: 1 <= k < r.pos - 1 ==> !HeaderAt(r.buf, k)
    requires var len := Classify(r.buf, 0, r.cmdLen); len <= r.pos && !Passes(r.buf[2..len])
    ensures var (t, outcome) := Pass(r);
            outcome.Read? && t.pos == 0 && t.index2 == 0 && t.out == r.out && t.buf == r.buf
  {
    FoundAt(r, 0);
    FindHeaderNone(r.buf, 1, r.pos);
    hide Pass, Located, Cursor, FindHeader, HeaderAt, Classify, Passes;
    PassJudges(r, 0, Classify(r.buf, 0, r.cmdLen));
  }

  lemma BadReceived(s: State, bad: seq<bv8>)
    requires Inv(s) && s.pos == 0 && |bad| <= LIMIT && IsBad(s, bad)
    ensures var r := Received(s, bad);
            && r.pos == |bad| >= 9 && r.index2 == 0 && HeaderAt(r.buf, 0)
            && forall k :: 1 <= k < r.pos - 1 ==> !HeaderAt(r.buf, k)
  {
    ReceivedFirst(s, bad);
    hide HeaderAt, Passes;
  }

  // A bad frame is given up in any state without live bytes.
  lemma BadReadIsDropped(s: State, bad: seq<bv8>)
    requires Inv(s) && s.pos == 0 && |bad| <= LIMIT && IsBad(s, bad)
    ensures Leaves(s, bad, Feed(s, bad)) && Feed(s, bad).pos == 0
    ensures Feed(s, bad).buf[13] == if |bad| > 13 then bad[13] else s.buf[13]
  {
    var r := Received(s, bad);
    BadReceived(s, bad);
    BadPassGivesUp(r);
    hide Pass, HeaderAt, Classify, Passes, NoHeaderIn, Received;
    ReceivedFirst(s, bad);
    GivenUp(s, bad, r, Pass(r).0);
  }

  lemma GivenUp(s: State, x: seq<bv8>, r: State, t: State)
    requires |s.buf| == BUFFER_SIZE && 9 <= |x| <= LIMIT && r.buf == x + s.buf[|x|..] && r.out == s.out
    requires Inv(t) && t.pos == 0 && t.index2 == 0 && t.out == r.out && t.buf == r.buf
    ensures Leaves(s, x, t) && t.buf[13] == if |x| > 13 then x[13] else s.buf[13]
  {
  }

  // The same for a bad frame in a read of its own, whatever position is remembered.
  lemma BadFrameInItsOwnRead(s: State, bad: seq<bv8>, fs: seq<seq<bv8>>)
    requires Inv(s) && s.pos == 0 && |bad| <= LIMIT && IsBad(s, bad)
    requires fs != [] && AllFramed(fs) && Fits(s, [bad, Concat(fs)])
    ensures Resynchronised(s, Run(s, [bad, Concat(fs)]), fs, if |bad| > 13 then bad[13] else s.buf[13])
  {
    FitsTwoReads(s, bad, Concat(fs));
    BadReadIsDropped(s, bad);
    hide Feed, Run, Fits, IsBad, Resynchronised;
    FramesAfter(s, bad, Feed(s, bad), fs);
  }

  // Fourteen bytes of junk, then a complete barrier order in the next read: the
  // order is not handed over.
  const JUNK: seq<bv8> := [0x44, 0x44, 0x44, 0x44, 0x44, 0x44, 0x44, 0x44, 0x44, 0x44, 0x44, 0x44, 0x44, 0x44]

  lemma OrderLostBehindJunk(initialLength: int)
    requires initialLength >= 9
    ensures NoHeaderIn(JUNK, 0) && Framed(LATE) && Fits(Start(initialLength), [JUNK, LATE])
    ensures Run(Start(initialLength), [JUNK, LATE]).out == []
  {
    var s := Start(initialLength);
    LateIsFramed();
    LoneFrame([LATE]);
    assert NoHeaderIn(JUNK, 0);
    hide Framed;
    FitsFromStart(initialLength, JUNK, LATE);
    hide NoHeaderIn, Run, Fits, Concat, Start, HandsOver, NeedsAreMet, Frames, Feed;
    StartIsEmpty(initialLength);
    JunkInItsOwnRead(s, JUNK, [LATE]);
    ByteLeftByJunk(s, JUNK);
    assert LeftBehind(s, JUNK) == 0x44;
    assert Misread(0x44, [LATE]);
  }

  lemma StartIsEmpty(initialLength: int)
    requires initialLength >= 9
    ensures var s := Start(initialLength); Inv(s) && s.pos == 0 && s.index1 == -1 && s.out == []
  {
  }

  lemma FitsFromStart(initialLength: int, a: seq<bv8>, b: seq<bv8>)
    requires initialLength >= 9 && |a| + |b| <= LIMIT
    ensures Fits(Start(initialLength), [a, b])
  {
    assert [a, b][1..] == [b] && [b][1..] == [];
    var t := Feed(Start(initialLength), a);
    assert Inv(t) && t.pos + |b| <= LIMIT;
    assert Fits(Feed(t, b), []);
  }
}
