// The character-level helpers of the configuration reader: trimming, searching
// and splitting at a one-character separator.
module IniText {

  // iswspace in the C locale; bytes above 127 are never white space.
  predicate IsSpace(c: char) {
    c == ' ' || '\t' <= c <= '\r'
  }

  // Blank, tabulators, line feed, form feed and carriage return.
  lemma SixSpaces(c: char)
    ensures IsSpace(c) <==> c == ' ' || c == '\t' || c == '\n' || c as int == 11 || c as int == 12 || c == '\r'
  {
  }

  predicate AllSpace(s: string) {
    forall k :: 0 <= k < |s| ==> IsSpace(s[k])
  }

  predicate Trimmed(s: string) {
    s != [] ==> !IsSpace(s[0]) && !IsSpace(s[|s| - 1])
  }

  function TrimLeft(s: string): string {
    if s != [] && IsSpace(s[0]) then TrimLeft(s[1..]) else s
  }

  function TrimRight(s: string): string {
    if s != [] && IsSpace(s[|s| - 1]) then TrimRight(s[..|s| - 1]) else s
  }

  function Trim(s: string): string {
    TrimRight(TrimLeft(s))
  }

  // What trimming means: white space, a trimmed middle, white space.
  lemma {:induction false} TrimSplits(s: string) returns (a: string, b: string)
    ensures s == a + Trim(s) + b && AllSpace(a) && AllSpace(b) && Trimmed(Trim(s))
  {
    a := TrimLeftSplits(s);
    var m := TrimLeft(s);
    b := TrimRightSplits(m);
    assert Trim(s) != [] ==> Trim(s)[0] == m[0];
  }

  lemma {:induction false} TrimLeftSplits(s: string) returns (a: string)
    ensures s == a + TrimLeft(s) && AllSpace(a)
    ensures TrimLeft(s) != [] ==> !IsSpace(TrimLeft(s)[0])
  {
    if s != [] && IsSpace(s[0]) {
      a := TrimLeftSplits(s[1..]);
      a := [s[0]] + a;
    } else {
      a := [];
    }
  }

  lemma {:induction false} TrimRightSplits(s: string) returns (b: string)
    ensures s == TrimRight(s) + b && AllSpace(b)
    ensures TrimRight(s) != [] ==> !IsSpace(TrimRight(s)[|TrimRight(s)| - 1])
  {
    if s != [] && IsSpace(s[|s| - 1]) {
      b := TrimRightSplits(s[..|s| - 1]);
      assert s == s[..|s| - 1] + [s[|s| - 1]];
      b := b + [s[|s| - 1]];
    } else {
      b := [];
    }
  }

  lemma TrimTrimmed(s: string)
    requires Trimmed(s)
    ensures Trim(s) == s
  {
  }

  lemma TrimDropsBlank(s: string)
    requires Trimmed(s) && s != []
    ensures Trim(s + " ") == s
  {
    var t := s + " ";
    assert t[0] == s[0];
    assert t[|t| - 1] == ' ' && t[..|t| - 1] == s;
    assert TrimRight(t) == TrimRight(s);
  }

  // Trimming only removes characters.
  lemma TrimKeepsOut(s: string, c: char)
    requires c !in s
    ensures c !in Trim(s) && |Trim(s)| <= |s|
  {
    var a, b := TrimSplits(s);
    forall k | 0 <= k < |Trim(s)| ensures Trim(s)[k] != c {
      assert Trim(s)[k] == s[|a| + k];
    }
  }

  // The position of the first c, or the length.
  function Find(s: string, c: char): (i: nat)
    ensures i <= |s| && c !in s[..i]
    ensures i < |s| ==> s[i] == c
  {
    if s == [] || s[0] == c then 0
    else
      var i := Find(s[1..], c) + 1;
      assert s[..i] == [s[0]] + s[1..][..i - 1];
      i
  }

  lemma {:induction false} FindFirst(a: string, c: char, b: string)
    requires c !in a
    ensures Find(a + [c] + b, c) == |a|
  {
    var s := a + [c] + b;
    var i := Find(s, c);
    assert forall k :: 0 <= k < |a| ==> s[k] == a[k] != c;
    assert s[|a|] == c;
    assert forall k :: 0 <= k < i ==> s[k] == s[..i][k];
  }

  lemma FindNone(s: string, c: char)
    requires c !in s
    ensures Find(s, c) == |s|
  {
  }

  // split: both sides trimmed; without a separator everything is on the left.
  function Left(s: string, sep: char): string {
    Trim(s[..Find(s, sep)])
  }

  function Right(s: string, sep: char): string {
    var i := Find(s, sep);
    if i < |s| then Trim(s[i + 1..]) else ""
  }

  method TrimText(text: string) returns (str: string)
    ensures str == Trim(text)
  {
    str := text;
    var i := 0;
    assert text[0..] == text;
    while i < |text| && IsSpace(text[i])
      invariant i <= |text|
      invariant TrimLeft(text) == TrimLeft(text[i..])
    {
      i := i + 1;
    }
    str := text[i..];
    var n := |str|;
    assert str[..n] == str;
    while n > 0 && IsSpace(str[n - 1])
      invariant 0 <= n <= |str|
      invariant TrimRight(str) == TrimRight(str[..n])
    {
      assert str[..n][..n - 1] == str[..n - 1];
      n := n - 1;
    }
    str := str[..n];
  }

  method FindChar(s: string, c: char) returns (i: nat)
    ensures i == Find(s, c)
  {
    i := 0;
    while i < |s| && s[i] != c
      invariant i <= |s| && c !in s[..i]
    {
      i := i + 1;
    }
    if i < |s| {
      assert s == s[..i] + [c] + s[i + 1..];
      FindFirst(s[..i], c, s[i + 1..]);
    } else {
      assert s[..i] == s;
      FindNone(s, c);
    }
  }

  method SplitText(str: string, sep: char) returns (found: bool, left: string, right: string)
    ensures found == (Find(str, sep) < |str|) && left == Left(str, sep) && right == Right(str, sep)
  {
    var pos := FindChar(str, sep);
    found := pos < |str|;
    if found {
      left := TrimText(str[..pos]);
      right := TrimText(str[pos + 1..]);
    } else {
      left := TrimText(str);
      right := "";
      assert str[..pos] == str;
    }
  }
}
