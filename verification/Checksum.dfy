// The one-byte block check of the lane protocol: an exclusive-or over a range,
// either compared with the byte that closes the range or returned to be
// appended to it.
module Checksum {

  // The exclusive-or of all bytes of s.
  function Xor(s: seq<bv8>): bv8 {
    if s == [] then 0 else Xor(s[..|s| - 1]) ^ s[|s| - 1]
  }

  // The last byte of s is the exclusive-or of the bytes before it.
  predicate Passes(s: seq<bv8>)
    requires |s| >= 1
  {
    Xor(s[..|s| - 1]) == s[|s| - 1]
  }

  // type 0 checks a closed range, every other type computes the closing byte.
  // The accumulator is 32 bits wide, as in the program.
  method BCCDataCheck(data: array<bv8>, startIndex: nat, length: nat, kind: int) returns (r: bv32)
    requires startIndex + length <= data.Length
    requires kind == 0 ==> 1 <= length
    ensures kind == 0 ==> r == if Passes(data[startIndex..startIndex + length]) then 1 else 0
    ensures kind != 0 ==> r == Xor(data[startIndex..startIndex + length]) as bv32
  {
    var xorChecksum: bv32 := 0;
    var i := startIndex;
    var end := if kind == 0 then startIndex + length - 1 else startIndex + length;
    while i < end
      invariant startIndex <= i <= end
      invariant xorChecksum == Xor(data[startIndex..i]) as bv32
    {
      assert data[startIndex..i + 1][..i - startIndex] == data[startIndex..i];
      xorChecksum := xorChecksum ^ (data[i] as bv32);
      i := i + 1;
    }
    if kind == 0 {
      assert data[startIndex..startIndex + length][..length - 1] == data[startIndex..end];
      if xorChecksum & 0xFF == data[end] as bv32 { r := 1; } else { r := 0; }
    } else {
      r := xorChecksum & 0xFF;
    }
  }

  lemma {:induction false} XorAppend(a: seq<bv8>, b: seq<bv8>)
    ensures Xor(a + b) == Xor(a) ^ Xor(b)
  {
    if b == [] {
      assert a + b == a;
    } else {
      var n := |b| - 1;
      assert (a + b)[..|a| + n] == a + b[..n];
      XorAppend(a, b[..n]);
    }
  }

  // A closed range passes exactly when everything in it cancels.
  lemma PassesIffCancels(s: seq<bv8>)
    requires |s| >= 1
    ensures Passes(s) <==> Xor(s) == 0
  {
  }

  // Closing a range with the computed byte makes the comparing check accept it.
  lemma CompletedRangePasses(s: seq<bv8>)
    ensures Passes(s + [Xor(s)])
  {
    assert (s + [Xor(s)])[..|s|] == s;
  }

  // s with the error pattern e superimposed on it.
  function Corrupt(s: seq<bv8>, e: seq<bv8>): (t: seq<bv8>)
    requires |s| == |e|
    ensures |t| == |s|
  {
    seq(|s|, i requires 0 <= i < |s| => s[i] ^ e[i])
  }

  lemma {:induction false} XorCorrupt(s: seq<bv8>, e: seq<bv8>)
    requires |s| == |e|
    ensures Xor(Corrupt(s, e)) == Xor(s) ^ Xor(e)
  {
    if s != [] {
      var n := |s| - 1;
      assert Corrupt(s, e)[..n] == Corrupt(s[..n], e[..n]);
      XorCorrupt(s[..n], e[..n]);
    }
  }

  // Exactly the error patterns that cancel out go unnoticed.
  lemma UndetectedIffErrorCancels(s: seq<bv8>, e: seq<bv8>)
    requires |s| == |e| >= 1 && Passes(s)
    ensures Passes(Corrupt(s, e)) <==> Xor(e) == 0
  {
    XorCorrupt(s, e);
    PassesIffCancels(s);
    PassesIffCancels(Corrupt(s, e));
  }

  // Changing one byte, covered or closing, is always noticed.
  lemma {:induction false} SingleByteChangeDetected(s: seq<bv8>, k: nat, v: bv8)
    requires k < |s| && Passes(s) && v != s[k]
    ensures !Passes(s[k := v])
  {
    var t := s[k := v];
    assert s == s[..k] + [s[k]] + s[k + 1..];
    assert t == s[..k] + [v] + s[k + 1..];
    XorAppend(s[..k] + [s[k]], s[k + 1..]);
    XorAppend(s[..k], [s[k]]);
    XorAppend(s[..k] + [v], s[k + 1..]);
    XorAppend(s[..k], [v]);
    assert Xor([v]) == v && Xor([s[k]]) == s[k];
    PassesIffCancels(s);
    PassesIffCancels(t);
  }
}
