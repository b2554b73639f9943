// The log's double buffer: writers append whole lines under the mutex, the log
// thread swaps the filled part out. Every method is one section under the mutex.
module LogBuffer {
  import opened Sequences

  const LOG_LEN_LIMIT := 4096
  const LOG_BUF_USE_LIMIT := 10 * 1024 * 1024
  const CAPACITY := LOG_BUF_USE_LIMIT + LOG_LEN_LIMIT
  // A line array has three bytes beyond the limit, and the line break must fit.
  const LINE_ROOM := LOG_LEN_LIMIT + 3

  const NEWLINE: bv8 := 10

  // ----- the protocol on values

  // `accepted` and `swapped` are the histories of the two sides.
  datatype State = State(buffered: seq<bv8>, accepted: seq<seq<bv8>>, dropped: nat, swapped: seq<seq<bv8>>)

  datatype Step = Append(line: seq<bv8>) | Swap

  predicate Enabled(s: State, step: Step) {
    match step
    case Append(line) => |line| < LINE_ROOM
    case Swap => s.buffered != []
  }

  function Do(s: State, step: Step): State
    requires Enabled(s, step)
  {
    match step
    case Append(line) =>
      var whole := line + [NEWLINE];
      if |s.buffered| < LOG_BUF_USE_LIMIT - |whole|
      then s.(buffered := s.buffered + whole, accepted := s.accepted + [whole])
      else s.(dropped := s.dropped + 1)
    case Swap => s.(buffered := [], swapped := s.swapped + [s.buffered])
  }

  predicate Possible(s: State, steps: seq<Step>)
    decreases |steps|
  {
    steps == [] || (Enabled(s, steps[0]) && Possible(Do(s, steps[0]), steps[1..]))
  }

  function Run(s: State, steps: seq<Step>): State
    requires Possible(s, steps)
    decreases |steps|
  {
    if steps == [] then s else Run(Do(s, steps[0]), steps[1..])
  }

  const START := State([], [], 0, [])

  // Nothing is lost, split, repeated or reordered, and the buffer keeps its limit.
  predicate Inv(s: State) {
    && Concat(s.swapped) + s.buffered == Concat(s.accepted)
    && |s.buffered| < LOG_BUF_USE_LIMIT
    && (forall k :: 0 <= k < |s.accepted| ==>
          0 < |s.accepted[k]| <= LINE_ROOM && s.accepted[k][|s.accepted[k]| - 1] == NEWLINE)
    && (forall k :: 0 <= k < |s.swapped| ==> 0 < |s.swapped[k]| < LOG_BUF_USE_LIMIT)
  }

  lemma TakeKeepsInv(s: State, whole: seq<bv8>)
    requires Inv(s) && 0 < |whole| <= LINE_ROOM && whole[|whole| - 1] == NEWLINE
    requires |s.buffered| + |whole| < LOG_BUF_USE_LIMIT
    ensures Inv(s.(buffered := s.buffered + whole, accepted := s.accepted + [whole]))
  {
    ConcatAppend(s.accepted, whole);
    Assoc(Concat(s.swapped), s.buffered, whole);
    hide Concat;
  }

  lemma SwapKeepsInv(s: State)
    requires Inv(s) && s.buffered != []
    ensures Inv(s.(buffered := [], swapped := s.swapped + [s.buffered]))
  {
    ConcatAppend(s.swapped, s.buffered);
    hide Concat;
    var all := Concat(s.swapped) + s.buffered;
    assert all + [] == all;
  }

  lemma StepKeepsInv(s: State, step: Step)
    requires Inv(s) && Enabled(s, step)
    ensures Inv(Do(s, step))
  {
    match step {
      case Append(line) =>
        var whole := line + [NEWLINE];
        if |s.buffered| < LOG_BUF_USE_LIMIT - |whole| { TakeKeepsInv(s, whole); }
      case Swap => SwapKeepsInv(s);
    }
  }

  // The line a step has taken, if any.
  function TakenBy(s: State, step: Step): seq<seq<bv8>> {
    match step
    case Append(line) => if |s.buffered| + |line| + 1 < LOG_BUF_USE_LIMIT then [line + [NEWLINE]] else []
    case Swap => []
  }

  function TakenLines(s: State, steps: seq<Step>): seq<seq<bv8>>
    requires Possible(s, steps)
    decreases |steps|
  {
    if steps == [] then [] else TakenBy(s, steps[0]) + TakenLines(Do(s, steps[0]), steps[1..])
  }

  lemma StepAccepts(s: State, step: Step)
    requires Enabled(s, step)
    ensures Do(s, step).accepted == s.accepted + TakenBy(s, step)
  {
    assert s.accepted + [] == s.accepted;
  }

  // A line is taken if and only if it and its line break leave the buffer below ten
  // megabytes; otherwise it is dropped and counted.
  lemma TakenIffItFits(s: State, line: seq<bv8>)
    requires Enabled(s, Append(line))
    ensures var t := Do(s, Append(line));
            if |s.buffered| + |line| + 1 < 10485760
            then t == State(s.buffered + (line + [NEWLINE]), s.accepted + [line + [NEWLINE]], s.dropped, s.swapped)
            else t == State(s.buffered, s.accepted, s.dropped + 1, s.swapped)
  {
  }

  // Conservation over every interleaving: the bytes swapped out followed by the
  // bytes still buffered are the taken lines, whole and in order, and the buffer
  // stays below its limit.
  lemma {:induction false} Conservation(s: State, steps: seq<Step>)
    requires Inv(s) && Possible(s, steps)
    ensures Inv(Run(s, steps)) && Run(s, steps).accepted == s.accepted + TakenLines(s, steps)
    decreases |steps|
  {
    if steps == [] {
      assert s.accepted + [] == s.accepted;
    } else {
      hide Inv, TakenBy, Do, Enabled;
      var t := Do(s, steps[0]);
      StepKeepsInv(s, steps[0]);
      StepAccepts(s, steps[0]);
      Conservation(t, steps[1..]);
      Assoc(s.accepted, TakenBy(s, steps[0]), TakenLines(t, steps[1..]));
    }
  }

  lemma ConservationFromStart(steps: seq<Step>)
    requires Possible(START, steps)
    ensures var t := Run(START, steps);
            && Concat(t.swapped) + t.buffered == Concat(TakenLines(START, steps))
            && |t.buffered| < LOG_BUF_USE_LIMIT
  {
    assert Inv(START) by { assert Concat<bv8>([]) + [] == Concat<bv8>([]); }
    Conservation(START, steps);
    assert [] + TakenLines(START, steps) == TakenLines(START, steps);
  }

  // ----- the buffers

  class MyLogClass {
    const logBuffer: array<bv8>
    const logData: array<bv8>
    var logBufferLen: nat
    var logDataLen: nat
    ghost var state: State

    // Behind the swapped-out bytes logData is zero, so it also reads as a string
    // that ends there.
    ghost predicate Valid()
      reads this, logBuffer, logData
    {
      && logBuffer != logData && logBuffer.Length == CAPACITY == logData.Length
      && logBufferLen <= CAPACITY && logDataLen <= CAPACITY
      && logBuffer[..logBufferLen] == state.buffered
      && (forall k :: logDataLen <= k < CAPACITY ==> logData[k] == 0)
      && Inv(state)
    }

    constructor ()
      ensures Valid() && Cleared() && state == START && fresh(logBuffer) && fresh(logData)
    {
      logBuffer := new bv8[CAPACITY];
      logData := new bv8[CAPACITY](i => 0);
      logBufferLen, logDataLen := 0, 0;
      state := START;
      new;
      assert Concat<bv8>([]) + [] == Concat<bv8>([]);
    }

    // logLine is the caller's array; the line break is written into it.
    method TryAppend(logLine: array<bv8>, len: nat)
      requires Valid() && logLine != logBuffer && logLine != logData
      requires logLine.Length == LINE_ROOM && len < LINE_ROOM
      modifies `logBufferLen, `state, logBuffer, logLine
      ensures Valid() && state == Do(old(state), Append(old(logLine[..len])))
      ensures logLine[..len + 1] == old(logLine[..len]) + [NEWLINE]
    {
      ghost var line := logLine[..len];
      logLine[len] := NEWLINE;
      var logLen := len + 1;
      assert logLine[..logLen] == line + [NEWLINE];
      StepKeepsInv(state, Append(line));
      if logBufferLen < LOG_BUF_USE_LIMIT - logLen {
        CopyIn(logLine, logLen);
      }
      state := Do(state, Append(line));
    }

    method CopyIn(logLine: array<bv8>, logLen: nat)
      requires logLine != logBuffer && logLen <= logLine.Length && logBufferLen + logLen <= logBuffer.Length
      modifies `logBufferLen, logBuffer
      ensures logBufferLen == old(logBufferLen) + logLen
      ensures logBuffer[..logBufferLen] == old(logBuffer[..logBufferLen]) + logLine[..logLen]
    {
      forall k | 0 <= k < logLen { logBuffer[logBufferLen + k] := logLine[k]; }
      logBufferLen := logBufferLen + logLen;
    }

    // The data buffer has been cleared.
    ghost predicate Cleared()
      reads this, logData
    {
      forall k :: 0 <= k < logData.Length ==> logData[k] == 0
    }

    // The locked part of the log thread, once there is something to write.
    method SwapOut()
      requires Valid() && logBufferLen != 0 && Cleared()
      modifies `logBufferLen, `logDataLen, `state, logData
      ensures Valid() && state == Do(old(state), Swap)
      ensures logBufferLen == 0 && logData[..logDataLen] == old(state).buffered
    {
      StepKeepsInv(state, Swap);
      forall k | 0 <= k < logBufferLen { logData[k] := logBuffer[k]; }
      logDataLen := logBufferLen;
      logBufferLen := 0;
      state := Do(state, Swap);
    }

    // memset after the data has been written.
    method ClearData()
      requires Valid()
      modifies logData
      ensures Valid() && Cleared()
    {
      forall k | 0 <= k < logData.Length { logData[k] := 0; }
    }
  }
}
