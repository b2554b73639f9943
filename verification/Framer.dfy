// The receive loop that cuts a byte stream into frames: header search, length
// classification by look-ahead, checksum, compaction and resynchronisation.
// ReceiveCmd1 and ReceiveCmd2 are the same machine on two ports.
module Framer {
  import opened Checksum

  const BUFFER_SIZE := 2048
  // The classifier reads up to 13 bytes past the last header candidate.
  const LOOK_AHEAD := 13
  const LIMIT := BUFFER_SIZE - LOOK_AHEAD

  // One call of the command handler: the slice starts `at` bytes into the
  // stream, the handler is given the buffer from there on and the frame length.
  datatype Dispatch = Dispatch(at: nat, view: seq<bv8>, len: nat) {
    function Bytes(): seq<bv8>
    {
      if len <= |view| then view[..len] else view
    }
  }

  // The local variables of the loop. `dropped` counts the stream bytes that
  // have left the buffer and `out` lists the handler calls so far.
  datatype State = State(
    buf: seq<bv8>, pos: int, index1: int, index2: int, cmdLen: int,
    dropped: nat, out: seq<Dispatch>)

  function Zeros(n: nat): (z: seq<bv8>)
    ensures |z| == n
  {
    seq(n, i => 0)
  }

  predicate HeaderAt(b: seq<bv8>, i: int)
    requires 0 <= i && i + 1 < |b|
  {
    b[i] == 0xFF && b[i + 1] == 0xFF
  }

  // The first header at or after `from` inside the live part, or -1.
  function FindHeader(b: seq<bv8>, from: int, pos: int): (i: int)
    requires 0 <= from && pos <= |b|
    ensures i == -1 || (from <= i < pos - 1 && HeaderAt(b, i))
    ensures forall k :: from <= k < (if i < 0 then pos - 1 else i) ==> !HeaderAt(b, k)
    decreases pos - from
  {
    if from >= pos - 1 then -1
    else if HeaderAt(b, from) then from
    else FindHeader(b, from + 1, pos)
  }

  // The frame length the bytes at i announce; an unknown type keeps the old one.
  function Classify(b: seq<bv8>, i: int, old_: int): (len: int)
    requires 0 <= i && i + LOOK_AHEAD < |b|
    ensures old_ >= 9 ==> len >= 9
  {
    if b[i + 13] == 0x44 then 58
    else if b[i + 13] == 0x64 then 87
    else if b[i + 13] == 0x07 then 23
    else if b[i + 8] == 0xAE then 11
    else if b[i + 13] == 0x53 then b[i + 6] as int + 9 + 10
    else if b[i + 8] == 0xA3 then 11
    else if b[i + 3] == 0x90 then 9
    else old_
  }

  // After a compaction the loop waits when the length announced by the bytes
  // at the front exceeds what is there.
  predicate HeldBack(b: seq<bv8>, pos: int)
    requires |b| >= 13
  {
    if b[9] == 0xA0 && b[10] == 0xB0 && b[11] == 0xC0 && b[12] == 0xD0 then b[7] as int + 9 > pos
    else if b[3] == 0x90 then b[5] as int + 7 > pos
    else b[7] as int > pos
  }

  predicate Inv(s: State) {
    && |s.buf| == BUFFER_SIZE
    && 0 <= s.pos <= LIMIT
    && s.index1 >= -1
    && s.index2 >= 0
    && (s.index2 > 0 ==> s.index2 + 1 < s.pos && HeaderAt(s.buf, s.index2))
    && s.cmdLen >= 9
  }

  datatype Outcome = Read | Search

  // index1 after the header search, and the cursor the search loop ends on.
  function Located(s: State): int
    requires Inv(s)
  {
    var f := FindHeader(s.buf, s.index2, s.pos);
    if f >= 0 then f else s.index1
  }

  function Cursor(s: State): (i: int)
    requires Inv(s)
    ensures 0 <= i && (i < s.pos || i == s.index2 == 0)
  {
    var f := FindHeader(s.buf, s.index2, s.pos);
    if f >= 0 then f else if s.index2 < s.pos - 1 then s.pos - 1 else s.index2
  }

  // One run of the loop body from the label Find_Frame to the next read or the
  // next jump back to the label.
  function Pass(s: State): (r: (State, Outcome))
    requires Inv(s)
    ensures Inv(r.0)
    ensures r.0.pos <= s.pos
    ensures r.1.Search? ==> r.0.pos < s.pos || r.0.pos - r.0.index2 < s.pos - s.index2
  {
    var index1 := Located(s);
    if index1 < 0 then
      (Emptied(s), Read)
    else if s.pos - index1 < 7 then
      (s.(index1 := index1), Read)
    else
      var t := s.(index1 := index1, cmdLen := Classify(s.buf, Cursor(s), s.cmdLen));
      if t.cmdLen > t.pos - index1 then (t, Read) else Judged(t)
  }

  // The verdict on the complete slice at index1.
  function Judged(t: State): (r: (State, Outcome))
    requires Inv(t) && t.index2 <= t.index1 && t.cmdLen <= t.pos - t.index1
    ensures Inv(r.0)
    ensures r.0.pos <= t.pos
    ensures r.1.Search? ==> r.0.pos < t.pos || r.0.pos - r.0.index2 < t.pos - t.index2
  {
    if Passes(t.buf[t.index1 + 2..t.index1 + t.cmdLen]) then
      (Taken(t), if StopsAfter(Taken(t)) then Read else Search)
    else
      var g := FindHeader(t.buf, t.index1 + 1, t.pos);
      if g >= 0 then (t.(index1 := -1, index2 := g), Search) else (Emptied(t), Read)
  }

  // Everything buffered is given up; index1 keeps its value.
  function Emptied(s: State): (t: State)
    requires Inv(s)
    ensures Inv(t)
  {
    s.(index2 := 0, pos := 0, dropped := s.dropped + s.pos)
  }

  // Hand the frame at index1 over and move what follows it to the front of a
  // zeroed buffer.
  function Taken(s: State): (t: State)
    requires Inv(s) && 0 <= s.index1 && s.cmdLen <= s.pos - s.index1
    ensures Inv(t) && t.pos < s.pos
  {
    var next := s.index1 + s.cmdLen;
    State(s.buf[next..s.pos] + Zeros(BUFFER_SIZE - (s.pos - next)), s.pos - next, -1, 0, s.cmdLen,
          s.dropped + next,
          s.out + [Dispatch(s.dropped + s.index1, s.buf[s.index1..], s.cmdLen)])
  }

  predicate StopsAfter(t: State)
    requires |t.buf| >= 13
  {
    t.pos < 4 || HeldBack(t.buf, t.pos)
  }

  // Passes until the next read. The measure drops with every jump back to
  // Find_Frame, so the loop never spins between two reads.
  function Scan(s: State): (t: State)
    requires Inv(s)
    ensures Inv(t) && t.pos <= s.pos
    decreases s.pos, s.pos - s.index2
  {
    var (t, outcome) := Pass(s);
    if outcome.Search? then Scan(t) else t
  }

  function Received(s: State, chunk: seq<bv8>): (t: State)
    requires Inv(s) && s.pos + |chunk| <= LIMIT
    ensures Inv(t)
  {
    s.(buf := s.buf[..s.pos] + chunk + s.buf[s.pos + |chunk|..], pos := s.pos + |chunk|)
  }

  // One read of the loop: store the bytes and search unless fewer than 4 are there.
  function Feed(s: State, chunk: seq<bv8>): (t: State)
    requires Inv(s) && s.pos + |chunk| <= LIMIT
    ensures Inv(t) && t.pos <= s.pos + |chunk|
  {
    var r := Received(s, chunk);
    if r.pos < 4 then r else Scan(r)
  }

  // The receive loop on a real buffer.
  class Receiver {
    var recvData: array<bv8>
    var pos: int
    var index1: int
    var index2: int
    var commandLen: int
    ghost var dropped: nat
    ghost var out: seq<Dispatch>

    ghost function Value(): State
      reads this, recvData
    {
      State(recvData[..], pos, index1, index2, commandLen, dropped, out)
    }

    ghost predicate Valid()
      reads this, recvData
    {
      Inv(Value())
    }

    // The program leaves the buffer and the command length uninitialised; here
    // the buffer starts zeroed and the length is at least that of the shortest frame.
    constructor (initialLength: int)
      requires initialLength >= 9
      ensures Valid() && fresh(recvData)
      ensures Value() == State(Zeros(BUFFER_SIZE), 0, -1, 0, initialLength, 0, [])
    {
      recvData := new bv8[BUFFER_SIZE](i => 0);
      pos, index1, index2, commandLen := 0, -1, 0, initialLength;
      dropped, out := 0, [];
      new;
      assert recvData[..] == Zeros(BUFFER_SIZE);
    }

    method Search(from: int) returns (i: int)
      requires Valid() && 0 <= from
      ensures i == FindHeader(recvData[..], from, pos)
    {
      i := from;
      while i < pos - 1
        invariant from <= i && (i <= pos - 1 || i == from)
        invariant FindHeader(recvData[..], from, pos) == FindHeader(recvData[..], i, pos)
      {
        if recvData[i] == 0xFF && recvData[i + 1] == 0xFF {
          return;
        }
        i := i + 1;
      }
      i := -1;
    }

    method Check(start: int, end: int) returns (ok: bool)
      requires 0 <= start < end <= recvData.Length
      ensures ok <==> Passes(recvData[..][start..end])
    {
      assert recvData[..][start..end] == recvData[start..end];
      var r := BCCDataCheck(recvData, start, end - start, 0);
      ok := r == 1;
    }

    method Clear()
      modifies recvData
      ensures recvData[..] == Zeros(recvData.Length)
    {
      forall k | 0 <= k < recvData.Length { recvData[k] := 0; }
    }

    // memcpy to the backup buffer, memset, memcpy back; pos is already reduced.
    method Shift(next: int)
      requires 0 <= next && 0 <= pos && next + pos <= recvData.Length == BUFFER_SIZE
      modifies recvData
      ensures recvData[..] == old(recvData[..])[next..next + pos] + Zeros(BUFFER_SIZE - pos)
    {
      var bak := new bv8[BUFFER_SIZE];
      forall k | 0 <= k < pos { bak[k] := recvData[next + k]; }
      Clear();
      forall k | 0 <= k < pos { recvData[k] := bak[k]; }
    }

    method ReadLength(i: int) returns (len: int)
      requires 0 <= i && i + LOOK_AHEAD < recvData.Length
      ensures len == Classify(recvData[..], i, commandLen)
    {
      len := commandLen;
      if recvData[i + 13] == 0x44 {
        len := 58;
      } else if recvData[i + 13] == 0x64 {
        len := 87;
      } else if recvData[i + 13] == 0x07 {
        len := 23;
      } else if recvData[i + 8] == 0xAE {
        len := 11;
      } else if recvData[i + 13] == 0x53 {
        len := recvData[i + 6] as int + 9 + 10;
      } else if recvData[i + 8] == 0xA3 {
        len := 11;
      } else if recvData[i + 3] == 0x90 {
        len := 9;
      }
    }

    method Announced() returns (held: bool)
      requires recvData.Length >= 13
      ensures held == HeldBack(recvData[..], pos)
    {
      if recvData[9] == 0xA0 && recvData[10] == 0xB0 && recvData[11] == 0xC0 && recvData[12] == 0xD0 {
        held := recvData[7] as int + 9 > pos;
      } else if recvData[3] == 0x90 {
        held := recvData[5] as int + 7 > pos;
      } else {
        held := recvData[7] as int > pos;
      }
    }

    method Locate() returns (i: int)
      requires Valid()
      modifies `index1
      ensures i == Cursor(old(Value()))
      ensures Value() == old(Value()).(index1 := Located(old(Value())))
    {
      i := Search(index2);
      if i >= 0 {
        index1 := i;
      } else {
        i := if index2 < pos - 1 then pos - 1 else index2;
      }
    }

    method Empty()
      requires Valid()
      modifies `index2, `pos, `dropped
      ensures Value() == Emptied(old(Value()))
    {
      dropped := dropped + pos;
      index2 := 0;
      pos := 0;
    }

    // The loop body from Find_Frame on; `again` is the jump back to the label.
    method FindFrame() returns (again: bool)
      requires Valid()
      modifies this, recvData
      ensures Valid() && recvData == old(recvData)
      ensures (Value(), if again then Outcome.Search else Read) == Pass(old(Value()))
    {
      again := false;
      var i := Locate();
      if index1 < 0 {
        Empty();
      } else if pos - index1 >= 7 {
        commandLen := ReadLength(i);
        if commandLen <= pos - index1 {
          again := Judge();
        }
      }
    }

    method Judge() returns (again: bool)
      requires Valid() && index2 <= index1 && commandLen <= pos - index1
      modifies this, recvData
      ensures Valid() && recvData == old(recvData)
      ensures (Value(), if again then Outcome.Search else Read) == Judged(old(Value()))
    {
      var ok := Check(index1 + 2, index1 + commandLen);
      hide Passes, HeaderAt, FindHeader, StopsAfter, Taken, Emptied;
      if ok {
        again := Deliver();
      } else {
        again := Resynchronise();
      }
    }

    method Deliver() returns (again: bool)
      requires Valid() && 0 <= index1 && commandLen <= pos - index1
      modifies this, recvData
      ensures Valid() && recvData == old(recvData)
      ensures Value() == Taken(old(Value())) && again == !StopsAfter(Value())
    {
      hide HeldBack, Taken;
      TakeFrame();
      var held := Announced();
      again := pos >= 4 && !held;
    }

    method Resynchronise() returns (again: bool)
      requires Valid() && 0 <= index1
      modifies `index1, `index2, `pos, `dropped
      ensures var s := old(Value()); var g := FindHeader(s.buf, s.index1 + 1, s.pos);
              again == (g >= 0) && Value() == if g >= 0 then s.(index1 := -1, index2 := g) else Emptied(s)
    {
      var g := Search(index1 + 1);
      again := g >= 0;
      if again {
        index1 := -1;
        index2 := g;
      } else {
        Empty();
      }
    }

    // Hand the frame over and clear or compact the buffer.
    method TakeFrame()
      requires Valid() && 0 <= index1 && commandLen <= pos - index1
      modifies this, recvData
      ensures recvData == old(recvData)
      ensures Value() == Taken(old(Value()))
    {
      out := out + [Dispatch(dropped + index1, recvData[..][index1..], commandLen)];
      dropped := dropped + index1 + commandLen;
      Compact();
      hide Inv, Zeros;
    }

    method Compact()
      requires |recvData[..]| == BUFFER_SIZE && 0 <= index1 && 9 <= commandLen <= pos - index1 && pos <= BUFFER_SIZE
      modifies recvData, `pos, `index1, `index2
      ensures index1 == -1 && index2 == 0 && pos == old(pos) - (old(index1) + commandLen)
      ensures recvData[..]
              == old(recvData[..])[old(index1) + commandLen..old(pos)] + Zeros(BUFFER_SIZE - pos)
    {
      index2 := if commandLen < pos - index1 then index1 + commandLen else 0;
      if index2 == 0 {
        assert recvData[..][pos..pos] + Zeros(BUFFER_SIZE) == Zeros(BUFFER_SIZE);
        pos := 0;
        Clear();
        index1 := -1;
      } else {
        pos := pos - index2;
        Shift(index2);
        index1 := -1;
        index2 := 0;
      }
    }

    // One read.
    method Receive(chunk: seq<bv8>)
      requires Valid() && pos + |chunk| <= LIMIT
      modifies this, recvData
      ensures Valid() && recvData == old(recvData)
      ensures Value() == Feed(old(Value()), chunk)
    {
      Store(chunk);
      if pos < 4 {
        return;
      }
      hide Received;
      FindFrames();
    }

    method Store(chunk: seq<bv8>)
      requires Valid() && pos + |chunk| <= LIMIT
      modifies recvData, `pos
      ensures Valid() && Value() == Received(old(Value()), chunk)
    {
      forall k | 0 <= k < |chunk| { recvData[pos + k] := chunk[k]; }
      pos := pos + |chunk|;
      assert Value().buf == Received(old(Value()), chunk).buf;
    }

    // From Find_Frame until the next read.
    method FindFrames()
      requires Valid()
      modifies this, recvData
      ensures Valid() && recvData == old(recvData)
      ensures Value() == Scan(old(Value()))
    {
      hide Pass, HeaderAt;
      var again := true;
      while again
        invariant Valid() && recvData == old(recvData)
        invariant Scan(old(Value())) == if again then Scan(Value()) else Value()
        decreases if again then 1 else 0, pos, pos - index2
      {
        again := FindFrame();
      }
    }
  }
}
