// What the receive loop keeps on arbitrary input.
module FramerSafety {
  import opened Sequences
  import opened Checksum
  import opened Framer

  // Every read of the run stays within the buffer.
  predicate Fits(s: State, chunks: seq<seq<bv8>>)
    decreases |chunks|
  {
    Inv(s) &&
    (chunks != [] ==> s.pos + |chunks[0]| <= LIMIT && Fits(Feed(s, chunks[0]), chunks[1..]))
  }

  function Run(s: State, chunks: seq<seq<bv8>>): (t: State)
    requires Fits(s, chunks)
    ensures Inv(t)
    decreases |chunks|
  {
    if chunks == [] then s else Run(Feed(s, chunks[0]), chunks[1..])
  }

  function Start(initialLength: int): State {
    State(Zeros(BUFFER_SIZE), 0, -1, 0, initialLength, 0, [])
  }

  lemma {:induction false} FindHeaderNone(b: seq<bv8>, from: int, pos: int)
    requires 0 <= from && pos <= |b|
    requires forall k :: from <= k < pos - 1 ==> !HeaderAt(b, k)
    ensures FindHeader(b, from, pos) == -1
    decreases pos - from
  {
    if from < pos - 1 { FindHeaderNone(b, from + 1, pos); }
  }

  lemma {:induction false} FindHeaderIs(b: seq<bv8>, from: int, pos: int, i: int)
    requires 0 <= from <= i < pos - 1 < |b|
    requires HeaderAt(b, i) && forall k :: from <= k < i ==> !HeaderAt(b, k)
    ensures FindHeader(b, from, pos) == i
    decreases i - from
  {
    if from < i { FindHeaderIs(b, from + 1, pos, i); }
  }

  // A pass that looks at the slice at p, which the classifier gives this length.
  lemma PassJudges(s: State, p: nat, len: int)
    requires Inv(s) && Located(s) == p && s.pos - p >= 7 && Classify(s.buf, Cursor(s), s.cmdLen) == len
    ensures var t := s.(index1 := p, cmdLen := len);
            Pass(s) == if len > s.pos - p then (t, Read) else Judged(t)
  {
    hide Located, Cursor, Classify, FindHeader, Judged;
  }

  // The search finds the header at p.
  lemma FoundAt(s: State, p: nat)
    requires Inv(s) && s.index2 <= p < s.pos - 1 && HeaderAt(s.buf, p)
    requires forall k :: s.index2 <= k < p ==> !HeaderAt(s.buf, k)
    ensures Located(s) == p && Cursor(s) == p
  {
    FindHeaderIs(s.buf, s.index2, s.pos, p);
    hide HeaderAt, FindHeader;
  }

  // d is a segment of the stream that ends by `end` and passes the checksum.
  predicate Genuine(d: Dispatch, stream: seq<bv8>, end: int) {
    && 9 <= d.len && d.at + d.len <= end <= |stream|
    && d.Bytes() == stream[d.at..d.at + d.len]
    && Passes(d.Bytes()[2..])
  }

  // The live part of the buffer is the end of the stream, and the handler calls
  // are genuine segments of it, one after the other.
  predicate Tracks(s: State, stream: seq<bv8>) {
    && Inv(s)
    && s.dropped + s.pos == |stream|
    && s.buf[..s.pos] == stream[s.dropped..]
    && (forall k :: 0 <= k < |s.out| ==> Genuine(s.out[k], stream, s.dropped))
    && (forall j, k :: 0 <= j < k < |s.out| ==> s.out[j].at + s.out[j].len <= s.out[k].at)
  }

  // A slice of the live part is a slice of the stream.
  lemma SliceOfStream(b: seq<bv8>, pos: nat, stream: seq<bv8>, dropped: nat, i: nat, j: nat)
    requires i <= j <= pos <= |b| && dropped + pos == |stream| && b[..pos] == stream[dropped..]
    ensures b[i..][..j - i] == b[i..j] == stream[dropped + i..dropped + j]
  {
    assert b[i..j] == b[..pos][i..j];
    assert stream[dropped + i..dropped + j] == stream[dropped..][i..j];
  }

  lemma TakenIsGenuine(s: State, stream: seq<bv8>)
    requires Inv(s) && 0 <= s.index1 && s.cmdLen <= s.pos - s.index1
    requires s.dropped + s.pos == |stream| && s.buf[..s.pos] == stream[s.dropped..]
    requires Passes(s.buf[s.index1 + 2..s.index1 + s.cmdLen])
    ensures Genuine(Taken(s).out[|s.out|], stream, Taken(s).dropped)
  {
    var n := s.index1 + s.cmdLen;
    var d := Dispatch(s.dropped + s.index1, s.buf[s.index1..], s.cmdLen);
    SliceOfStream(s.buf, s.pos, stream, s.dropped, s.index1, n);
    assert d.Bytes()[2..] == s.buf[s.index1 + 2..n];
  }

  lemma TakenTracks(s: State, stream: seq<bv8>)
    requires Tracks(s, stream) && 0 <= s.index1 && s.cmdLen <= s.pos - s.index1
    requires Passes(s.buf[s.index1 + 2..s.index1 + s.cmdLen])
    ensures Tracks(Taken(s), stream)
  {
    var t := Taken(s);
    assert t.buf[..t.pos] == stream[t.dropped..] by {
      SliceOfStream(s.buf, s.pos, stream, s.dropped, s.index1 + s.cmdLen, s.pos);
      TakenKeepsLive(s);
    }
    assert Genuine(t.out[|s.out|], stream, t.dropped) by { TakenIsGenuine(s, stream); }
    forall k | 0 <= k < |s.out| ensures Genuine(t.out[k], stream, t.dropped) {
      assert Genuine(s.out[k], stream, s.dropped);
    }
    TakenIsLater(s, stream);
  }

  lemma TakenIsLater(s: State, stream: seq<bv8>)
    requires Tracks(s, stream) && 0 <= s.index1 && s.cmdLen <= s.pos - s.index1
    ensures var out := Taken(s).out;
            forall j, k :: 0 <= j < k < |out| ==> out[j].at + out[j].len <= out[k].at
  {
    assert forall k :: 0 <= k < |s.out| ==> Genuine(s.out[k], stream, s.dropped);
  }

  lemma TakenKeepsLive(s: State)
    requires Inv(s) && 0 <= s.index1 && s.cmdLen <= s.pos - s.index1
    ensures Taken(s).buf[..Taken(s).pos] == s.buf[s.index1 + s.cmdLen..s.pos]
  {
  }

  // What is tracked does not depend on the search.
  lemma TracksAlike(s: State, t: State, stream: seq<bv8>)
    requires Tracks(s, stream) && Inv(t)
    requires t.buf == s.buf && t.pos == s.pos && t.dropped == s.dropped && t.out == s.out
    ensures Tracks(t, stream)
  {
  }

  lemma EmptiedTracks(s: State, stream: seq<bv8>)
    requires Tracks(s, stream)
    ensures Tracks(Emptied(s), stream)
  {
    forall k | 0 <= k < |s.out| ensures Genuine(s.out[k], stream, Emptied(s).dropped) {
      assert Genuine(s.out[k], stream, s.dropped);
    }
  }

  lemma JudgedTracks(t: State, stream: seq<bv8>)
    requires Tracks(t, stream) && t.index2 <= t.index1 && t.cmdLen <= t.pos - t.index1
    ensures Tracks(Judged(t).0, stream)
  {
    assert Inv(t);
    hide Tracks, Taken, Emptied, FindHeader, Passes;
    if Passes(t.buf[t.index1 + 2..t.index1 + t.cmdLen]) {
      TakenTracks(t, stream);
    } else {
      var g := FindHeader(t.buf, t.index1 + 1, t.pos);
      if g >= 0 {
        TracksAlike(t, t.(index1 := -1, index2 := g), stream);
      } else {
        EmptiedTracks(t, stream);
      }
    }
  }

  lemma PassTracks(s: State, stream: seq<bv8>)
    requires Tracks(s, stream)
    ensures Tracks(Pass(s).0, stream)
  {
    var index1 := Located(s);
    if index1 < 0 {
      EmptiedTracks(s, stream);
    } else if s.pos - index1 < 7 {
      TracksAlike(s, s.(index1 := index1), stream);
    } else {
      var t := s.(index1 := index1, cmdLen := Classify(s.buf, Cursor(s), s.cmdLen));
      TracksAlike(s, t, stream);
      if t.cmdLen <= t.pos - index1 { JudgedTracks(t, stream); }
    }
    hide Tracks, Judged, Classify, FindHeader;
  }

  lemma {:induction false} ScanTracks(s: State, stream: seq<bv8>)
    requires Tracks(s, stream)
    ensures Tracks(Scan(s), stream)
    decreases s.pos, s.pos - s.index2
  {
    PassTracks(s, stream);
    if Pass(s).1.Search? { ScanTracks(Pass(s).0, stream); }
  }

  lemma FeedTracks(s: State, stream: seq<bv8>, chunk: seq<bv8>)
    requires Tracks(s, stream) && s.pos + |chunk| <= LIMIT
    ensures Tracks(Feed(s, chunk), stream + chunk)
  {
    var r := Received(s, chunk);
    var longer := stream + chunk;
    assert r.buf[..r.pos] == longer[r.dropped..];
    forall k | 0 <= k < |r.out| ensures Genuine(r.out[k], longer, r.dropped) {
      var d := r.out[k];
      assert Genuine(d, stream, s.dropped);
      assert longer[d.at..d.at + d.len] == stream[d.at..d.at + d.len];
    }
    if r.pos >= 4 { ScanTracks(r, longer); }
  }

  // Safety of whole runs: for any bytes, cut into reads in any way.
  lemma {:induction false} RunTracks(s: State, stream: seq<bv8>, chunks: seq<seq<bv8>>)
    requires Tracks(s, stream) && Fits(s, chunks)
    ensures Tracks(Run(s, chunks), stream + Concat(chunks))
    decreases |chunks|
  {
    if chunks == [] {
      assert stream + Concat(chunks) == stream;
    } else {
      FeedTracks(s, stream, chunks[0]);
      RunTracks(Feed(s, chunks[0]), stream + chunks[0], chunks[1..]);
      ConcatStep(stream, chunks);
    }
  }

  lemma DispatchedSlicesAreSegmentsOfTheStream(initialLength: int, chunks: seq<seq<bv8>>)
    requires initialLength >= 9 && Fits(Start(initialLength), chunks)
    ensures Tracks(Run(Start(initialLength), chunks), Concat(chunks))
  {
    RunTracks(Start(initialLength), [], chunks);
    assert [] + Concat(chunks) == Concat(chunks);
  }

  // ----- which slices start with the header

  predicate Headed(d: Dispatch) {
    |d.Bytes()| >= 2 && HeaderAt(d.Bytes(), 0)
  }

  predicate AllHeaded(out: seq<Dispatch>) {
    forall k :: 0 <= k < |out| ==> Headed(out[k])
  }

  lemma JudgedSlice(t: State)
    requires Inv(t) && t.index2 <= t.index1 && t.cmdLen <= t.pos - t.index1
    ensures var out := Judged(t).0.out;
            out == t.out || (|out| == |t.out| + 1 && out[..|t.out|] == t.out
                             && (Headed(out[|t.out|]) <==> HeaderAt(t.buf, t.index1)))
  {
    var d := Dispatch(t.dropped + t.index1, t.buf[t.index1..], t.cmdLen);
    assert d.Bytes()[0] == t.buf[t.index1] && d.Bytes()[1] == t.buf[t.index1 + 1];
    hide Passes, FindHeader;
  }

  // A slice handed over starts with the header if and only if the search of that
  // pass found one: with none, the position comes from an earlier pass.
  lemma SliceHeadedIffFound(s: State)
    requires Inv(s)
    ensures var out := Pass(s).0.out;
            out == s.out || (|out| == |s.out| + 1 && out[..|s.out|] == s.out
                             && (Headed(out[|s.out|]) <==> FindHeader(s.buf, s.index2, s.pos) >= 0))
  {
    var index1 := Located(s);
    if 0 <= index1 && s.pos - index1 >= 7 {
      var t := s.(index1 := index1, cmdLen := Classify(s.buf, Cursor(s), s.cmdLen));
      if t.cmdLen <= t.pos - index1 {
        hide Classify, FindHeader, Judged, Headed;
        JudgedSlice(t);
      }
    }
  }

  lemma {:induction false} ScanAppends(s: State)
    requires Inv(s)
    ensures s.out <= Scan(s).out
    decreases s.pos, s.pos - s.index2
  {
    SliceHeadedIffFound(s);
    var (t, outcome) := Pass(s);
    hide Pass, Headed;
    assert s.out <= t.out;
    if outcome.Search? { ScanAppends(t); }
  }

  // Without a header the search ends on the last live byte, so that a slice at the
  // remembered position gets the length the bytes there announce.
  lemma StaleSliceLength(s: State)
    requires Inv(s) && s.pos >= 2 && FindHeader(s.buf, s.index2, s.pos) < 0 && Pass(s).0.out != s.out
    ensures s.index1 >= 0 && |Pass(s).0.out| == |s.out| + 1
    ensures var d := Pass(s).0.out[|s.out|];
            d.at == s.dropped + s.index1 && d.len == Classify(s.buf, s.pos - 1, s.cmdLen)
  {
    SliceHeadedIffFound(s);
    SliceIffJudgedGood(s);
    PassJudges(s, s.index1, Classify(s.buf, s.pos - 1, s.cmdLen));
    hide Pass, Classify, FindHeader, Passes;
  }

  // p holds of the state before every pass until the next read.
  ghost predicate EveryPass(s: State, p: State -> bool)
    requires Inv(s)
    decreases s.pos, s.pos - s.index2
  {
    p(s) && (Pass(s).1.Search? ==> EveryPass(Pass(s).0, p))
  }

  // p holds of the state before every pass of the run.
  ghost predicate EveryPassOfRun(s: State, chunks: seq<seq<bv8>>, p: State -> bool)
    requires Fits(s, chunks)
    decreases |chunks|
  {
    chunks == [] ||
    var r := Received(s, chunks[0]);
    && (r.pos >= 4 ==> EveryPass(r, p))
    && EveryPassOfRun(Feed(s, chunks[0]), chunks[1..], p)
  }

  // The pass comes to a slice at the remembered position that passes the checksum.
  predicate Judges(s: State, passes: bool)
    requires Inv(s)
  {
    var index1 := Located(s);
    && 0 <= index1 && s.pos - index1 >= 7
    && var len := Classify(s.buf, Cursor(s), s.cmdLen);
       len <= s.pos - index1 && passes == Passes(s.buf[index1 + 2..index1 + len])
  }

  // The pass does not judge a slice good whose header its search has not found.
  predicate Sighted(s: State) {
    Inv(s) && (FindHeader(s.buf, s.index2, s.pos) >= 0 || !Judges(s, true))
  }

  lemma SliceIffJudgedGood(s: State)
    requires Inv(s)
    ensures Pass(s).0.out != s.out <==> Judges(s, true)
  {
    var index1 := Located(s);
    if 0 <= index1 && s.pos - index1 >= 7 {
      var len := Classify(s.buf, Cursor(s), s.cmdLen);
      hide Pass, Classify, FindHeader, Passes, Judged, Located, Cursor;
      PassJudges(s, index1, len);
      if len <= s.pos - index1 { JudgedOut(s.(index1 := index1, cmdLen := len)); }
    } else {
      hide Classify, FindHeader, Passes, Judged, Cursor;
    }
  }

  lemma JudgedOut(t: State)
    requires Inv(t) && t.index2 <= t.index1 && t.cmdLen <= t.pos - t.index1
    ensures Judged(t).0.out != t.out <==> Passes(t.buf[t.index1 + 2..t.index1 + t.cmdLen])
  {
    hide Passes, FindHeader;
    if Judged(t).0 == Taken(t) { assert |Taken(t).out| == |t.out| + 1; }
  }

  lemma PassHeaded(s: State)
    requires Inv(s)
    ensures AllHeaded(Pass(s).0.out) <==> AllHeaded(s.out) && Sighted(s)
  {
    SliceHeadedIffFound(s);
    SliceIffJudgedGood(s);
    hide Pass, Headed, FindHeader, Judges;
    var out := Pass(s).0.out;
    if out != s.out {
      assert forall k :: 0 <= k < |s.out| ==> out[k] == out[..|s.out|][k];
    }
  }

  lemma {:induction false} ScanHeaded(s: State)
    requires Inv(s)
    ensures AllHeaded(Scan(s).out) <==> AllHeaded(s.out) && EveryPass(s, Sighted)
    decreases s.pos, s.pos - s.index2
  {
    PassHeaded(s);
    var (t, outcome) := Pass(s);
    if outcome.Search? { ScanHeaded(t); }
  }

  // Over every run, whatever the bytes: all slices start with the header if and
  // only if no pass hands one over after a search that found none.
  lemma {:induction false} AllHeadedIffSighted(s: State, chunks: seq<seq<bv8>>)
    requires Fits(s, chunks)
    ensures AllHeaded(Run(s, chunks).out) <==> AllHeaded(s.out) && EveryPassOfRun(s, chunks, Sighted)
    decreases |chunks|
  {
    if chunks != [] {
      var r := Received(s, chunks[0]);
      if r.pos >= 4 { ScanHeaded(r); }
      AllHeadedIffSighted(Feed(s, chunks[0]), chunks[1..]);
    }
  }

  // A remembered header position still holds a header.
  predicate Fresh(s: State) {
    Inv(s) && (s.index1 >= 0 ==> s.index1 + 1 < s.pos && HeaderAt(s.buf, s.index1))
  }

  // The pass judges a slice bad and finds no header behind its start, so that it
  // empties the buffer but keeps the position.
  predicate GivesUp(s: State) {
    Inv(s) && Judges(s, false) && FindHeader(s.buf, Located(s) + 1, s.pos) < 0
  }

  predicate KeepsOn(s: State) {
    !GivesUp(s)
  }

  // Only giving up can make the remembered position stale.
  lemma FreshPass(s: State)
    requires Fresh(s)
    ensures Sighted(s)
    ensures Fresh(Pass(s).0) || GivesUp(s)
  {
    var index1 := Located(s);
    assert FindHeader(s.buf, s.index2, s.pos) < 0 ==> s.index1 < 0;
    if 0 <= index1 && s.pos - index1 >= 7 {
      var t := s.(index1 := index1, cmdLen := Classify(s.buf, Cursor(s), s.cmdLen));
      hide Classify;
      if t.cmdLen <= t.pos - index1 { FreshJudged(t); }
    }
  }

  lemma FreshJudged(t: State)
    requires Inv(t) && t.index2 <= t.index1 && t.cmdLen <= t.pos - t.index1
    ensures var u := Judged(t).0; Fresh(u) || u == Emptied(t)
  {
    hide Passes, FindHeader;
  }

  lemma {:induction false} FreshScan(s: State)
    requires Fresh(s) && EveryPass(s, KeepsOn)
    ensures Fresh(Scan(s)) && EveryPass(s, Sighted)
    decreases s.pos, s.pos - s.index2
  {
    FreshPass(s);
    var (t, outcome) := Pass(s);
    hide Pass, Sighted, GivesUp, Fresh;
    assert KeepsOn(s);
    if outcome.Search? { FreshScan(t); }
  }

  // A run that never gives a bad frame up hands over only slices that start with
  // the header.
  lemma {:induction false} FreshRun(s: State, chunks: seq<seq<bv8>>)
    requires Fits(s, chunks) && Fresh(s) && EveryPassOfRun(s, chunks, KeepsOn)
    ensures Fresh(Run(s, chunks)) && EveryPassOfRun(s, chunks, Sighted)
    decreases |chunks|
  {
    if chunks != [] {
      var r := Received(s, chunks[0]);
      assert Fresh(r);
      if r.pos >= 4 { FreshScan(r); }
      FreshRun(Feed(s, chunks[0]), chunks[1..]);
    }
  }

  lemma SlicesStartWithTheHeader(initialLength: int, chunks: seq<seq<bv8>>)
    requires initialLength >= 9 && Fits(Start(initialLength), chunks)
    ensures var s := Start(initialLength);
            && (AllHeaded(Run(s, chunks).out) <==> EveryPassOfRun(s, chunks, Sighted))
            && (EveryPassOfRun(s, chunks, KeepsOn) ==> AllHeaded(Run(s, chunks).out))
  {
    var s := Start(initialLength);
    AllHeadedIffSighted(s, chunks);
    if EveryPassOfRun(s, chunks, KeepsOn) { FreshRun(s, chunks); }
  }

  const BAD_FRAME: seq<bv8> := [0xFF, 0xFF, 0, 0, 0, 0, 1, 0, 0]
  const BLANK: seq<bv8> := [0, 0, 0, 0, 0, 0, 0, 0, 0]

  function AfterBadFrame(): State {
    State(BAD_FRAME + Zeros(BUFFER_SIZE - 9), 0, 0, 0, 9, 9, [])
  }

  lemma BadFrameIsDiscarded()
    ensures Inv(Start(9)) && Feed(Start(9), BAD_FRAME) == AfterBadFrame()
  {
    var r := Received(Start(9), BAD_FRAME);
    assert r == AfterBadFrame().(pos := 9, index1 := -1, dropped := 0) by {
      assert r.buf == BAD_FRAME + Zeros(BUFFER_SIZE - 9);
    }
    BadFramePass(r);
  }

  lemma BadFramePass(r: State)
    requires r == AfterBadFrame().(pos := 9, index1 := -1, dropped := 0)
    ensures Inv(r) && Pass(r) == (AfterBadFrame(), Read)
  {
    assert r.buf[..9] == BAD_FRAME;
    FindHeaderIs(r.buf, 0, 9, 0);
    assert r.buf[13] == 0 && r.buf[8] == 0 && r.buf[3] == 0;
    assert Classify(r.buf, 0, 9) == 9;
    BadFrameFails(r.buf);
    FindHeaderNone(r.buf, 1, 9);
  }

  lemma BadFrameFails(b: seq<bv8>)
    requires |b| >= 9 && b[..9] == BAD_FRAME
    ensures !Passes(b[2..9])
  {
    assert b[2..9][..6] == b[..9][2..8] == [0, 0, 0, 0] + [1] + [0];
    XorAppend([0, 0, 0, 0] + [1], [0]);
    XorAppend([0, 0, 0, 0], [1]);
    ZerosCancel(4);
    assert [0, 0, 0, 0] == Zeros(4);
    assert b[2..9][6] == b[..9][8] == 0;
  }

  lemma {:induction false} ZerosCancel(n: nat)
    ensures Xor(Zeros(n)) == 0
  {
    if n > 0 {
      assert Zeros(n)[..n - 1] == Zeros(n - 1);
      ZerosCancel(n - 1);
    }
  }

  lemma BlankIsDispatched()
    ensures Inv(AfterBadFrame())
    ensures var t := Feed(AfterBadFrame(), BLANK); |t.out| == 1 && t.out[0].Bytes() == BLANK
  {
    var q := Received(AfterBadFrame(), BLANK);
    BlankReceived();
    BlankPass(q);
    BlankTaken(q);
    hide Pass, Taken, Received, AfterBadFrame, Zeros;
  }

  lemma BlankReceived()
    ensures Inv(AfterBadFrame())
    ensures Received(AfterBadFrame(), BLANK) == State(Zeros(BUFFER_SIZE), 9, 0, 0, 9, 9, [])
  {
    assert Received(AfterBadFrame(), BLANK).buf == Zeros(BUFFER_SIZE);
  }

  lemma BlankTaken(q: State)
    requires q == State(Zeros(BUFFER_SIZE), 9, 0, 0, 9, 9, [])
    ensures var t := Taken(q); |t.out| == 1 && t.out[0].Bytes() == BLANK
  {
    assert q.buf[0..][..9] == BLANK;
  }

  lemma BlankPass(q: State)
    requires q == State(Zeros(BUFFER_SIZE), 9, 0, 0, 9, 9, [])
    ensures Inv(q) && Pass(q) == (Taken(q), Read)
  {
    FindHeaderNone(q.buf, 0, 9);
    assert Classify(q.buf, 8, 9) == 9;
    assert Passes(q.buf[2..9]) by {
      assert q.buf[2..9][..6] == Zeros(6);
      ZerosCancel(6);
    }
    hide Passes, FindHeader, Classify;
  }

  // After such a discard a slice without header can be handed over: nine zero
  // bytes that follow a bad frame are.
  lemma HeaderlessSliceAfterDiscard()
    ensures Fits(Start(9), [BAD_FRAME, BLANK])
    ensures var t := Run(Start(9), [BAD_FRAME, BLANK]); |t.out| == 1 && t.out[0].Bytes() == BLANK
  {
    BadFrameIsDiscarded();
    BlankIsDispatched();
    assert [BAD_FRAME, BLANK][1..] == [BLANK];
    assert [BLANK][1..] == [];
    assert Fits(AfterBadFrame(), [BLANK]);
    assert Run(AfterBadFrame(), [BLANK]) == Feed(AfterBadFrame(), BLANK);
  }
}
