// Base64 as in section 4 of RFC 4648: the encoder and decoder over buffers, and
// what they are to each other.
module Base64 {
  import opened Sequences

  // The table of 64 characters: letters, digits, '+' and '/'.
  function CharAt(j: int): (c: char)
    requires 0 <= j < 64
    ensures c != '='
  {
    if j < 26 then (65 + j) as char
    else if j < 52 then (97 + (j - 26)) as char
    else if j < 62 then (48 + (j - 52)) as char
    else if j == 62 then '+' else '/'
  }

  // It is Table 1 of RFC 4648: 'A' is 0, 'a' is 26, '0' is 52, and so on.
  lemma TableOfValues(c: char)
    ensures 'A' <= c <= 'Z' ==> CharAt(c as int - 'A' as int) == c
    ensures 'a' <= c <= 'z' ==> CharAt(c as int - 'a' as int + 26) == c
    ensures '0' <= c <= '9' ==> CharAt(c as int - '0' as int + 52) == c
    ensures CharAt(62) == '+' && CharAt(63) == '/'
  {
  }

  // The value of a character of the alphabet, or -1.
  function ValueOf(c: char): (j: int)
    ensures -1 <= j < 64
  {
    if 'A' <= c <= 'Z' then c as int - 65
    else if 'a' <= c <= 'z' then c as int - 97 + 26
    else if '0' <= c <= '9' then c as int - 48 + 52
    else if c == '+' then 62 else if c == '/' then 63 else -1
  }

  predicate InAlphabet(c: char) {
    ValueOf(c) >= 0
  }

  lemma AlphabetRoundTrip(j: int)
    requires 0 <= j < 64
    ensures ValueOf(CharAt(j)) == j
  {
  }

  lemma AlphabetOnto(c: char)
    requires InAlphabet(c)
    ensures CharAt(ValueOf(c)) == c
  {
  }

  // The character of a six-bit value, and back; the decoder keeps the old value
  // for any other character.
  function Char(x: bv8): (c: char)
    requires x < 64
  {
    CharAt(x as int)
  }

  function Sextet(c: char, stale: bv8): (x: bv8)
    ensures InAlphabet(c) ==> x < 64
  {
    if InAlphabet(c) then ValueOf(c) as bv8 else stale
  }

  lemma SextetOfChar(x: bv8, stale: bv8)
    requires x < 64
    ensures Sextet(Char(x), stale) == x
  {
    AlphabetRoundTrip(x as int);
  }

  lemma SmallValue(j: int)
    requires 0 <= j < 64
    ensures (j as bv8) < 64 && (j as bv8) as int == j
  {
    assert (j as bv8) as int == j;
  }

  lemma CharOfSextet(c: char, stale: bv8)
    requires InAlphabet(c)
    ensures Sextet(c, stale) < 64 && Char(Sextet(c, stale)) == c
  {
    var j := ValueOf(c);
    SmallValue(j);
    assert CharAt(j) == c by { AlphabetOnto(c); }
    hide ValueOf, CharAt;
    assert Sextet(c, stale) == j as bv8;
  }

  // ----- the four characters of three, two or one bytes

  // The first six bits; two bits and room for four; with the four; four bits
  // and room for two; with the two; the last six.
  function S0(a: bv8): (x: bv8)
    ensures x < 64
  { (a >> 2) & 0x3F }

  function Head2(a: bv8): (x: bv8)
    ensures x < 64
  { (a << 4) & 0x30 }

  function With4(x: bv8, b: bv8): (y: bv8)
    ensures x < 64 ==> y < 64
  { x | ((b >> 4) & 0x0F) }

  function Head4(b: bv8): (x: bv8)
    ensures x < 64
  { (b << 2) & 0x3C }

  function With2(x: bv8, c: bv8): (y: bv8)
    ensures x < 64 ==> y < 64
  { x | ((c >> 6) & 0x03) }

  function S3(c: bv8): (x: bv8)
    ensures x < 64
  { c & 0x3F }

  function S1(a: bv8, b: bv8): (x: bv8)
    ensures x < 64
  { With4(Head2(a), b) }

  function S2(b: bv8, c: bv8): (x: bv8)
    ensures x < 64
  { With2(Head4(b), c) }

  function Quad(a: bv8, b: bv8, c: bv8): (s: string)
    ensures |s| == 4 && forall k :: 0 <= k < 4 ==> InAlphabet(s[k])
  {
    AlphabetTotal();
    [Char(S0(a)), Char(S1(a, b)), Char(S2(b, c)), Char(S3(c))]
  }

  lemma AlphabetTotal()
    ensures forall j :: 0 <= j < 64 ==> InAlphabet(CharAt(j))
  {
    forall j | 0 <= j < 64 ensures InAlphabet(CharAt(j)) { AlphabetRoundTrip(j); }
  }

  // The pads replace the characters that carry no bit of the input.
  function Encode(bin: seq<bv8>): (s: string)
    ensures |s| == 4 * ((|bin| + 2) / 3)
  {
    if |bin| == 0 then ""
    else if |bin| == 1 then Quad(bin[0], 0, 0)[..2] + "=="
    else if |bin| == 2 then Quad(bin[0], bin[1], 0)[..3] + "="
    else Quad(bin[0], bin[1], bin[2]) + Encode(bin[3..])
  }

  // The encoding is over the alphabet but for the pads that end it: none, one or
  // two, as the last group is short of none, one or two bytes.
  lemma {:induction false} EncodingShape(bin: seq<bv8>)
    ensures var s, pads := Encode(bin), (3 - |bin| % 3) % 3;
            && |s| == 4 * ((|bin| + 2) / 3) && pads <= |s|
            && (forall k :: 0 <= k < |s| - pads ==> InAlphabet(s[k]))
            && (forall k :: |s| - pads <= k < |s| ==> s[k] == '=')
    decreases |bin|
  {
    if |bin| >= 3 {
      var q, rest := Quad(bin[0], bin[1], bin[2]), Encode(bin[3..]);
      var pads := (3 - |bin| % 3) % 3;
      assert |bin[3..]| % 3 == |bin| % 3;
      EncodingShape(bin[3..]);
      assert Encode(bin) == q + rest && |q| == 4 && forall k :: 0 <= k < 4 ==> InAlphabet(q[k]);
      hide Quad, Encode, InAlphabet;
      GroupInFront(q, rest, pads);
    } else {
      LastGroupShape(bin);
    }
  }

  lemma LastGroupShape(bin: seq<bv8>)
    requires |bin| < 3
    ensures var s, pads := Encode(bin), (3 - |bin| % 3) % 3;
            && pads <= |s| == 4 * ((|bin| + 2) / 3)
            && (forall k :: 0 <= k < |s| - pads ==> InAlphabet(s[k]))
            && (forall k :: |s| - pads <= k < |s| ==> s[k] == '=')
  {
    hide Quad, InAlphabet;
    if |bin| == 1 {
      assert Encode(bin) == Quad(bin[0], 0, 0)[..2] + "==";
    } else if |bin| == 2 {
      assert Encode(bin) == Quad(bin[0], bin[1], 0)[..3] + "=";
    }
  }

  lemma GroupInFront(q: string, rest: string, pads: nat)
    requires |q| == 4 && pads <= |rest| && (forall k :: 0 <= k < 4 ==> InAlphabet(q[k]))
    requires forall k :: 0 <= k < |rest| - pads ==> InAlphabet(rest[k])
    requires forall k :: |rest| - pads <= k < |rest| ==> rest[k] == '='
    ensures var s := q + rest;
            && (forall k :: 0 <= k < |s| - pads ==> InAlphabet(s[k]))
            && (forall k :: |s| - pads <= k < |s| ==> s[k] == '=')
  {
    hide InAlphabet;
    var s := q + rest;
    assert forall k :: 4 <= k < |s| ==> s[k] == rest[k - 4];
  }

  // ----- decoding

  // The decoder's four values, which survive from one group to the next.
  datatype Temp = Temp(t0: bv8, t1: bv8, t2: bv8, t3: bv8)

  function Read(s: string, t: Temp): Temp
    requires |s| >= 4
  {
    Temp(Sextet(s[0], t.t0), Sextet(s[1], t.t1), Sextet(s[2], t.t2), Sextet(s[3], t.t3))
  }

  function Byte0(t: Temp): bv8 { ((t.t0 << 2) & 0xFC) | ((t.t1 >> 4) & 0x03) }
  function Byte1(t: Temp): bv8 { ((t.t1 << 4) & 0xF0) | ((t.t2 >> 2) & 0x0F) }
  function Byte2(t: Temp): bv8 { ((t.t2 << 6) & 0xF0) | (t.t3 & 0x3F) }

  // Decoding stops at the first group whose third or fourth character is a pad.
  function Decode(s: string, t: Temp): seq<bv8>
    requires |s| % 4 == 0
  {
    if s == "" then []
    else
      var u := Read(s, t);
      if s[2] == '=' then [Byte0(u)]
      else if s[3] == '=' then [Byte0(u), Byte1(u)]
      else [Byte0(u), Byte1(u), Byte2(u)] + Decode(s[4..], u)
  }

  const ZERO := Temp(0, 0, 0, 0)

  // ----- round trips

  lemma BytesOfQuad(a: bv8, b: bv8, c: bv8)
    ensures var u := Temp(S0(a), S1(a, b), S2(b, c), S3(c));
            Byte0(u) == a && Byte1(u) == b && Byte2(u) == c
  {
  }

  lemma ReadQuad(a: bv8, b: bv8, c: bv8, rest: string, t: Temp)
    ensures var u := Read(Quad(a, b, c) + rest, t);
            Byte0(u) == a && Byte1(u) == b && Byte2(u) == c
  {
    SextetOfChar(S0(a), t.t0);
    SextetOfChar(S1(a, b), t.t1);
    SextetOfChar(S2(b, c), t.t2);
    SextetOfChar(S3(c), t.t3);
    assert Read(Quad(a, b, c) + rest, t) == Temp(S0(a), S1(a, b), S2(b, c), S3(c));
    BytesOfQuad(a, b, c);
  }

  lemma Byte0NeedsTwo(t: Temp, u: Temp)
    requires t.t0 == u.t0 && t.t1 == u.t1
    ensures Byte0(t) == Byte0(u) && (t.t2 == u.t2 ==> Byte1(t) == Byte1(u))
  {
  }

  // Decoding an encoding gives the bytes back, whatever the decoder's values
  // were before.
  lemma {:induction false} DecodeEncode(bin: seq<bv8>, t: Temp)
    ensures Decode(Encode(bin), t) == bin
    decreases |bin|
  {
    hide Byte0, Byte1, Byte2, Sextet, S0, S1, S2, S3;
    var s := Encode(bin);
    if |bin| == 1 {
      ReadQuad(bin[0], 0, 0, "", t);
      Byte0NeedsTwo(Read(s, t), Read(Quad(bin[0], 0, 0) + "", t));
    } else if |bin| == 2 {
      ReadQuad(bin[0], bin[1], 0, "", t);
      Byte0NeedsTwo(Read(s, t), Read(Quad(bin[0], bin[1], 0) + "", t));
    } else if |bin| >= 3 {
      var q := Quad(bin[0], bin[1], bin[2]);
      ReadQuad(bin[0], bin[1], bin[2], Encode(bin[3..]), t);
      assert s[4..] == Encode(bin[3..]);
      assert s[2] == q[2] && s[3] == q[3];
      DecodeEncode(bin[3..], Read(s, t));
    }
  }

  // ----- strings that are no encodings

  // Nothing behind a pad is read.
  lemma NothingBehindPad(q: string, rest: string, t: Temp)
    requires |q| == 4 && |rest| % 4 == 0 && (q[2] == '=' || q[3] == '=')
    ensures Decode(q + rest, t) == Decode(q, t)
    ensures |Decode(q, t)| == if q[2] == '=' then 1 else 2
  {
    assert Read(q + rest, t) == Read(q, t);
    hide Byte0, Byte1, Byte2, Read;
  }

  // A character outside the alphabet counts as the one at its place in the group before.
  lemma ForeignRepeatsPrevious(q: string, r: string, rest: string, t: Temp, i: nat)
    requires |q| == |r| == 4 && |rest| % 4 == 0 && i < 4
    requires (forall k :: 0 <= k < 4 ==> InAlphabet(q[k])) && !InAlphabet(r[i]) && (i >= 2 ==> r[i] != '=')
    ensures Decode(q + (r + rest), t) == Decode(q + (r[i := q[i]] + rest), t)
  {
    var u := Read(q, t);
    AlphabetHasNoPad();
    SecondGroup(q, r + rest, t);
    SecondGroup(q, r[i := q[i]] + rest, t);
    assert Read(r + rest, u) == Read(r[i := q[i]] + rest, u);
    assert (r + rest)[4..] == rest == (r[i := q[i]] + rest)[4..];
    hide Byte0, Byte1, Byte2, Read, InAlphabet;
  }

  lemma AlphabetHasNoPad()
    ensures !InAlphabet('=')
  {
  }

  lemma SecondGroup(q: string, more: string, t: Temp)
    requires |q| == 4 && |more| % 4 == 0 && q[2] != '=' && q[3] != '='
    ensures var u := Read(q, t); Decode(q + more, t) == [Byte0(u), Byte1(u), Byte2(u)] + Decode(more, u)
  {
    assert (q + more)[4..] == more && Read(q + more, t) == Read(q, t);
    hide Byte0, Byte1, Byte2, Read;
  }

  // A correctly padded string whose unused trailing bits are zero (section 3.5
  // of RFC 4648).
  predicate Canonical(s: string) {
    |s| % 4 == 0 &&
    (s == "" ||
     (InAlphabet(s[0]) && InAlphabet(s[1]) &&
      if |s| == 4 && s[3] == '=' then
        if s[2] == '=' then Sextet(s[1], 0) & 0x0F == 0
        else InAlphabet(s[2]) && Sextet(s[2], 0) & 0x03 == 0
      else InAlphabet(s[2]) && InAlphabet(s[3]) && Canonical(s[4..])))
  }

  lemma QuadOfBytes(t: Temp)
    requires t.t0 < 64 && t.t1 < 64 && t.t2 < 64 && t.t3 < 64
    ensures var a, b, c := Byte0(t), Byte1(t), Byte2(t);
            S0(a) == t.t0 && S1(a, b) == t.t1 && S2(b, c) == t.t2 && S3(c) == t.t3
  {
  }

  // Zero pad bits make the shortened groups come out again.
  lemma PadOne(t: Temp)
    requires t.t0 < 64 && t.t1 < 64 && t.t1 & 0x0F == 0
    ensures S0(Byte0(t)) == t.t0 && S1(Byte0(t), 0) == t.t1
  {
  }

  lemma PadTwo(t: Temp)
    requires t.t0 < 64 && t.t1 < 64 && t.t2 < 64 && t.t2 & 0x03 == 0
    ensures S0(Byte0(t)) == t.t0 && S1(Byte0(t), Byte1(t)) == t.t1 && S2(Byte1(t), 0) == t.t2
  {
  }

  // The four values of a group stand for its characters.
  predicate Stands(c: char, x: bv8) {
    InAlphabet(c) && x < 64 && Char(x) == c
  }

  lemma ReadStands(s: string, t: Temp)
    requires |s| >= 4
    ensures var u := Read(s, t);
            && (InAlphabet(s[0]) ==> Stands(s[0], u.t0)) && (InAlphabet(s[1]) ==> Stands(s[1], u.t1))
            && (InAlphabet(s[2]) ==> Stands(s[2], u.t2)) && (InAlphabet(s[3]) ==> Stands(s[3], u.t3))
  {
    if InAlphabet(s[0]) { CharOfSextet(s[0], t.t0); }
    if InAlphabet(s[1]) { CharOfSextet(s[1], t.t1); }
    if InAlphabet(s[2]) { CharOfSextet(s[2], t.t2); }
    if InAlphabet(s[3]) { CharOfSextet(s[3], t.t3); }
  }

  lemma GroupOfThree(u: Temp, c0: char, c1: char, c2: char, c3: char)
    requires Stands(c0, u.t0) && Stands(c1, u.t1) && Stands(c2, u.t2) && Stands(c3, u.t3)
    ensures Quad(Byte0(u), Byte1(u), Byte2(u)) == [c0, c1, c2, c3]
  {
    QuadOfBytes(u);
  }

  lemma GroupOfTwo(u: Temp, c0: char, c1: char, c2: char)
    requires Stands(c0, u.t0) && Stands(c1, u.t1) && Stands(c2, u.t2) && u.t2 & 0x03 == 0
    ensures Encode([Byte0(u), Byte1(u)]) == [c0, c1, c2, '=']
  {
    PadTwo(u);
  }

  lemma GroupOfOne(u: Temp, c0: char, c1: char)
    requires Stands(c0, u.t0) && Stands(c1, u.t1) && u.t1 & 0x0F == 0
    ensures Encode([Byte0(u)]) == [c0, c1, '=', '=']
  {
    PadOne(u);
  }

  lemma LastGroupDecodes(s: string, t: Temp)
    requires Canonical(s) && |s| == 4 && s[3] == '='
    ensures Encode(Decode(s, t)) == s
  {
    hide Byte0, Byte1, Byte2;
    var u := Read(s, t);
    ReadStands(s, t);
    if s[2] == '=' { GroupOfOne(u, s[0], s[1]); } else { GroupOfTwo(u, s[0], s[1], s[2]); }
    assert s == [s[0], s[1], s[2], s[3]];
  }

  lemma FullGroupDecodes(s: string, t: Temp)
    requires Canonical(s) && s != "" && !(|s| == 4 && s[3] == '=')
    ensures Encode(Decode(s, t)) == s[..4] + Encode(Decode(s[4..], Read(s, t)))
  {
    var u, rest := Read(s, t), Decode(s[4..], Read(s, t));
    assert Decode(s, t) == [Byte0(u), Byte1(u), Byte2(u)] + rest by { FullGroup(s); }
    assert Quad(Byte0(u), Byte1(u), Byte2(u)) == s[..4] by { FullGroup(s); FullGroupQuad(s, t); }
    hide *;
    EncodeThree(Byte0(u), Byte1(u), Byte2(u), rest);
  }

  lemma FullGroup(s: string)
    requires Canonical(s) && s != "" && !(|s| == 4 && s[3] == '=')
    ensures |s| >= 4 && forall k :: 0 <= k < 4 ==> InAlphabet(s[k]) && s[k] != '='
  {
  }

  lemma FullGroupQuad(s: string, t: Temp)
    requires |s| >= 4 && forall k :: 0 <= k < 4 ==> InAlphabet(s[k])
    ensures var u := Read(s, t); Quad(Byte0(u), Byte1(u), Byte2(u)) == s[..4]
  {
    hide Byte0, Byte1, Byte2, Sextet, Quad;
    ReadStands(s, t);
    GroupOfThree(Read(s, t), s[0], s[1], s[2], s[3]);
  }

  lemma {:induction false} CanonicalDecodes(s: string, t: Temp)
    requires Canonical(s)
    ensures Encode(Decode(s, t)) == s
    decreases |s|
  {
    if s != "" {
      if |s| == 4 && s[3] == '=' {
        LastGroupDecodes(s, t);
      } else {
        assert Canonical(s[4..]);
        hide Encode, Decode, Sextet, Canonical, Read;
        FullGroupDecodes(s, t);
        CanonicalDecodes(s[4..], Read(s, t));
        assert s == s[..4] + s[4..];
      }
    }
  }

  lemma EncodeThree(a: bv8, b: bv8, c: bv8, rest: seq<bv8>)
    ensures Encode([a, b, c] + rest) == Quad(a, b, c) + Encode(rest)
  {
    assert ([a, b, c] + rest)[3..] == rest;
  }

  lemma OneByteCanonical(a: bv8)
    ensures Canonical(Encode([a]))
  {
    SextetOfChar(S1(a, 0), 0);
    assert S1(a, 0) & 0x0F == 0;
  }

  lemma TwoBytesCanonical(a: bv8, b: bv8)
    ensures Canonical(Encode([a, b]))
  {
    SextetOfChar(S2(b, 0), 0);
    assert S2(b, 0) & 0x03 == 0;
  }

  lemma GroupsCanonical(q: string, rest: string)
    requires |q| == 4 && (forall k :: 0 <= k < 4 ==> InAlphabet(q[k])) && Canonical(rest)
    ensures Canonical(q + rest)
  {
    var s := q + rest;
    assert s[4..] == rest && s[0] == q[0] && s[1] == q[1] && s[2] == q[2] && s[3] == q[3];
    assert !InAlphabet('=');
  }

  lemma {:induction false} EncodeIsCanonical(bin: seq<bv8>)
    ensures Canonical(Encode(bin))
    decreases |bin|
  {
    if |bin| == 1 {
      assert bin == [bin[0]];
      OneByteCanonical(bin[0]);
    } else if |bin| == 2 {
      assert bin == [bin[0], bin[1]];
      TwoBytesCanonical(bin[0], bin[1]);
    } else if |bin| >= 3 {
      hide Canonical, InAlphabet;
      EncodeIsCanonical(bin[3..]);
      GroupsCanonical(Quad(bin[0], bin[1], bin[2]), Encode(bin[3..]));
    }
  }

  // Of all strings of whole groups exactly the canonical ones are reproduced.
  lemma ReproducedIffCanonical(s: string, t: Temp)
    requires |s| % 4 == 0
    ensures Encode(Decode(s, t)) == s <==> Canonical(s)
  {
    EncodeIsCanonical(Decode(s, t));
    if Canonical(s) { CanonicalDecodes(s, t); }
  }

  // ----- the buffers

  // The group written for the bytes from i on.
  function GroupAt(bin: seq<bv8>, i: nat): (g: string)
    requires i < |bin|
    ensures |g| == 4
  {
    Encode(if i + 3 <= |bin| then bin[i..i + 3] else bin[i..])
  }

  // What is still to be written when the loop is at i.
  function Remaining(bin: seq<bv8>, i: nat): string {
    if i < |bin| then Encode(bin[i..]) else ""
  }

  lemma EncodeFrom(bin: seq<bv8>, i: nat)
    requires i < |bin|
    ensures Remaining(bin, i) == GroupAt(bin, i) + Remaining(bin, i + 3)
  {
    if i + 3 <= |bin| {
      EncodeThree(bin[i], bin[i + 1], bin[i + 2], bin[i + 3..]);
      EncodeThree(bin[i], bin[i + 1], bin[i + 2], []);
      assert bin[i..] == [bin[i], bin[i + 1], bin[i + 2]] + bin[i + 3..];
      assert bin[i..i + 3] == [bin[i], bin[i + 1], bin[i + 2]] + [];
      assert i + 3 == |bin| ==> bin[i + 3..] == [];
    }
  }

  // The caller provides room for the groups and the closing zero.
  method Base64Encode(binData: seq<bv8>, base64: array<char>)
    requires base64.Length > 4 * ((|binData| + 2) / 3)
    modifies base64
    ensures var n := |Encode(binData)|; base64[..n] == Encode(binData) && base64[n] == '\0'
    ensures base64[|Encode(binData)| + 1..] == old(base64[|Encode(binData)| + 1..])
  {
    var i, j := 0, 0;
    var binLength := |binData|;
    ghost var n := |Encode(binData)|;
    assert Remaining(binData, 0) == Encode(binData) by { assert binData[0..] == binData; }
    hide Encode, GroupAt, Remaining;
    while i < binLength
      invariant 0 <= i && 0 <= j <= n < base64.Length
      invariant base64[..j] + Remaining(binData, i) == Encode(binData)
      invariant base64[n + 1..] == old(base64[n + 1..])
    {
      ghost var done := base64[..j];
      assert (done + GroupAt(binData, i)) + Remaining(binData, i + 3) == Encode(binData) by {
        EncodeFrom(binData, i);
        Assoc(done, GroupAt(binData, i), Remaining(binData, i + 3));
      }
      j := PutGroup(binData, i, base64, j);
      i := i + 3;
    }
    assert base64[..j] == Encode(binData) by { NothingRemains(binData, i); }
    base64[j] := '\0';
  }

  lemma NothingRemains(bin: seq<bv8>, i: nat)
    requires i >= |bin|
    ensures Remaining(bin, i) == ""
  {
  }

  // The loop body, with its two early exits.
  method PutGroup(binData: seq<bv8>, i: nat, base64: array<char>, start: nat) returns (j: nat)
    requires i < |binData| && start + 4 < base64.Length
    modifies base64
    ensures j == start + 4
    ensures base64[..j] == old(base64[..start]) + GroupAt(binData, i)
    ensures forall k :: j <= k < base64.Length ==> base64[k] == old(base64[k])
  {
    hide S0, S3, Head2, Head4, With4, With2, Char, Encode;
    ghost var before := base64[..start];
    j := start;
    var binLength := |binData|;
    var current := S0(binData[i]);
    j := Push(base64, j, Char(current));
    current := Head2(binData[i]);
    if binLength <= i + 1 {
      j := Push(base64, j, Char(current));
      j := Push(base64, j, '=');
      j := Push(base64, j, '=');
      assert GroupAt(binData, i) == [Char(S0(binData[i])), Char(current), '=', '='] by {
        OneByte(binData[i]);
        assert binData[i..] == [binData[i]];
      }
      FourPushed(before, Char(S0(binData[i])), Char(current), '=', '=');
      return;
    }
    current := With4(current, binData[i + 1]);
    j := Push(base64, j, Char(current));
    current := Head4(binData[i + 1]);
    if binLength <= i + 2 {
      j := Push(base64, j, Char(current));
      j := Push(base64, j, '=');
      ghost var second := Char(With4(Head2(binData[i]), binData[i + 1]));
      assert GroupAt(binData, i) == [Char(S0(binData[i])), second, Char(current), '='] by {
        TwoBytes(binData[i], binData[i + 1]);
        assert binData[i..] == [binData[i], binData[i + 1]];
      }
      FourPushed(before, Char(S0(binData[i])), second, Char(current), '=');
      return;
    }
    current := With2(current, binData[i + 2]);
    j := Push(base64, j, Char(current));
    current := S3(binData[i + 2]);
    j := Push(base64, j, Char(current));
    ghost var g := GroupAt(binData, i);
    assert g == [Char(S0(binData[i])), Char(With4(Head2(binData[i]), binData[i + 1])),
                 Char(With2(Head4(binData[i + 1]), binData[i + 2])), Char(current)] by {
      ThreeBytes(binData[i], binData[i + 1], binData[i + 2]);
      assert binData[i..i + 3] == [binData[i], binData[i + 1], binData[i + 2]];
    }
    FourPushed(before, g[0], g[1], g[2], g[3]);
  }

  lemma FourPushed(before: string, c0: char, c1: char, c2: char, c3: char)
    ensures before + [c0] + [c1] + [c2] + [c3] == before + [c0, c1, c2, c3]
  {
  }

  // Store an element and advance the index.
  method Push<T>(buf: array<T>, j: nat, x: T) returns (next: nat)
    requires j < buf.Length
    modifies buf
    ensures next == j + 1 && buf[..next] == old(buf[..j]) + [x]
    ensures forall k :: next <= k < buf.Length ==> buf[k] == old(buf[k])
  {
    buf[j] := x;
    next := j + 1;
  }

  lemma OneByte(a: bv8)
    ensures Encode([a]) == [Char(S0(a)), Char(Head2(a)), '=', '=']
  {
  }

  lemma TwoBytes(a: bv8, b: bv8)
    ensures Encode([a, b]) == [Char(S0(a)), Char(With4(Head2(a), b)), Char(Head4(b)), '=']
  {
  }

  lemma ThreeBytes(a: bv8, b: bv8, c: bv8)
    ensures Encode([a, b, c]) == [Char(S0(a)), Char(With4(Head2(a), b)), Char(With2(Head4(b), c)), Char(S3(c))]
  {
    assert [a, b, c][3..] == [];
  }

  // One of the four searches through the alphabet.
  method SearchAlphabet(c: char, stale: bv8) returns (x: bv8)
    ensures x == Sextet(c, stale)
  {
    x := stale;
    var j := 0;
    while j < 64
      invariant 0 <= j <= 64
      invariant x == if InAlphabet(c) && ValueOf(c) < j then ValueOf(c) as bv8 else stale
    {
      AlphabetRoundTrip(j);
      if InAlphabet(c) { AlphabetOnto(c); }
      if c == CharAt(j) {
        x := j as bv8;
      }
      j := j + 1;
    }
  }

  // The four searches of one round.
  method SearchGroup(s: string, i: nat, t: Temp) returns (u: Temp)
    requires i + 4 <= |s|
    ensures u == Read(s[i..], t)
  {
    var t0 := SearchAlphabet(s[i], t.t0);
    var t1 := SearchAlphabet(s[i + 1], t.t1);
    var t2 := SearchAlphabet(s[i + 2], t.t2);
    var t3 := SearchAlphabet(s[i + 3], t.t3);
    u := Temp(t0, t1, t2, t3);
  }

  // The bytes of the group at i, and whether the decoder goes on behind it.
  function GroupBytes(s: string, i: nat, u: Temp): seq<bv8>
    requires i + 4 <= |s|
  {
    if s[i + 2] == '=' then [Byte0(u)]
    else if s[i + 3] == '=' then [Byte0(u), Byte1(u)]
    else [Byte0(u), Byte1(u), Byte2(u)]
  }

  // What is still to be decoded, unless the loop has been left.
  function Rest(s: string, i: nat, t: Temp, more: bool): seq<bv8>
    requires |s| % 4 == 0 && i % 4 == 0 && i <= |s|
  {
    if more then Decode(s[i..], t) else []
  }

  lemma DecodeFrom(s: string, i: nat, t: Temp)
    requires |s| % 4 == 0 && i % 4 == 0 && i + 4 <= |s|
    ensures var u, more := Read(s[i..], t), !(s[i + 2] == '=' || s[i + 3] == '=');
            Rest(s, i, t, true) == GroupBytes(s, i, u) + Rest(s, i + 4, u, more)
  {
    hide Byte0, Byte1, Byte2, Sextet;
    assert s[i..][4..] == s[i + 4..];
  }

  // Writes the decoded bytes to the front of the buffer and leaves the rest.
  method Base64Decode(base64Str: string, debase64: array<bv8>)
    requires |base64Str| % 4 == 0 && debase64.Length >= |Decode(base64Str, ZERO)|
    modifies debase64
    ensures var d := Decode(base64Str, ZERO); debase64[..|d|] == d && debase64[|d|..] == old(debase64[|d|..])
  {
    var i, k, more := 0, 0, true;
    var t := ZERO;
    ghost var d := Decode(base64Str, ZERO);
    assert Rest(base64Str, 0, t, true) == d by { assert base64Str[0..] == base64Str; }
    hide *;
    while more && i < |base64Str|
      invariant 0 <= i <= |base64Str| && i % 4 == 0 && 0 <= k <= |d| <= debase64.Length
      invariant debase64[..k] + Rest(base64Str, i, t, more) == d
      invariant debase64[|d|..] == old(debase64[|d|..])
      decreases |base64Str| - i, more
    {
      GroupFits(i, |base64Str|);
      t, k, more := DecodeRound(base64Str, i, t, debase64, k, d);
      if more {
        i := i + 4;
      }
    }
    NothingLeft(base64Str, i, t, more);
    assert debase64[..k] == d;
  }

  lemma GroupFits(i: nat, n: nat)
    requires i % 4 == 0 && n % 4 == 0 && i < n
    ensures i + 4 <= n && (i + 4) % 4 == 0
  {
  }

  // The loop body; `more` is false where it leaves the loop.
  method DecodeRound(s: string, i: nat, t: Temp, debase64: array<bv8>, start: nat, ghost d: seq<bv8>)
    returns (u: Temp, k: nat, more: bool)
    requires |s| % 4 == 0 && i % 4 == 0 && i + 4 <= |s| && start <= |d| <= debase64.Length
    requires debase64[..start] + Rest(s, i, t, true) == d
    modifies debase64
    ensures k <= |d| && debase64[..k] + Rest(s, i + 4, u, more) == d
    ensures debase64[|d|..] == old(debase64[|d|..])
  {
    hide *;
    ghost var done := debase64[..start];
    u := SearchGroup(s, i, t);
    more := !(s[i + 2] == '=' || s[i + 3] == '=');
    assert (done + GroupBytes(s, i, u)) + Rest(s, i + 4, u, more) == d by {
      DecodeFrom(s, i, t);
      Assoc(done, GroupBytes(s, i, u), Rest(s, i + 4, u, more));
    }
    k := PutBytes(s, i, u, debase64, start);
  }

  lemma NothingLeft(s: string, i: nat, t: Temp, more: bool)
    requires |s| % 4 == 0 && i % 4 == 0 && i <= |s| && (more ==> i == |s|)
    ensures Rest(s, i, t, more) == []
  {
  }

  // The three writes of one round, with their two early exits.
  method PutBytes(s: string, i: nat, t: Temp, debase64: array<bv8>, start: nat) returns (k: nat)
    requires i + 4 <= |s| && start + |GroupBytes(s, i, t)| <= debase64.Length
    modifies debase64
    ensures k == start + |GroupBytes(s, i, t)|
    ensures debase64[..k] == old(debase64[..start]) + GroupBytes(s, i, t)
    ensures forall j :: k <= j < debase64.Length ==> debase64[j] == old(debase64[j])
  {
    hide Byte0, Byte1, Byte2;
    k := Push(debase64, start, Byte0(t));
    if s[i + 2] == '=' {
      return;
    }
    k := Push(debase64, k, Byte1(t));
    if s[i + 3] == '=' {
      return;
    }
    k := Push(debase64, k, Byte2(t));
  }
}
