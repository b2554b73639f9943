// Reading back what was printed.
module IniRoundTrip {
  import opened Sequences
  import opened IniText
  import opened IniModel

  // ----- configurations whose text form can be read back

  // Blank lines and trimmed comment lines, each ended by a line break.
  predicate CleanComment(c: string)
    decreases |c|
  {
    c == "" ||
    (var n := Find(c, '\n');
     n < |c| && (n == 0 || (c[0] == '#' && Trimmed(c[..n]))) && CleanComment(c[n + 1..]))
  }

  predicate CleanRight(c: string) {
    Trimmed(c) && '\n' !in c
  }

  predicate CleanKey(k: string) {
    Trimmed(k) && '=' !in k && '#' !in k && '\n' !in k && (k != "" ==> k[0] != '[')
  }

  predicate CleanValue(v: string) {
    Trimmed(v) && '#' !in v && '\n' !in v
  }

  predicate CleanName(n: string) {
    Trimmed(n) && ']' !in n && '#' !in n && '\n' !in n
  }

  predicate CleanItem(i: Item) {
    CleanKey(i.key) && CleanValue(i.value) && CleanComment(i.comment) && CleanRight(i.rightComment)
  }

  predicate CleanSection(s: Section) {
    && CleanName(s.name) && CleanComment(s.comment) && CleanRight(s.rightComment)
    && (forall k :: 0 <= k < |s.items| ==> CleanItem(s.items[k]))
  }

  // The nameless root section comes first and has no comments of its own.
  predicate Clean(cfg: seq<Section>) {
    && cfg != [] && cfg[0].name == "" && cfg[0].comment == "" && cfg[0].rightComment == ""
    && (forall k :: 0 <= k < |cfg| ==> CleanSection(cfg[k]))
    && DistinctNames(cfg)
  }

  predicate NoSectionRight(cfg: seq<Section>) {
    forall k :: 0 <= k < |cfg| ==> cfg[k].rightComment == ""
  }

  // ----- reading line by line

  lemma ReadOneLine(r: Reader, a: string, b: string)
    requires r.sections != [] && r.err == 0 && '\n' !in a
    ensures ReadText(r, a + "\n" + b) == ReadText(ReadLine(r, Trim(a)), b)
  {
    var text := a + "\n" + b;
    assert text == a + ['\n'] + b;
    FindFirst(a, '\n', b);
    assert text[..|a|] == a && text[|a| + 1..] == b;
  }

  lemma {:induction false} ReadComment(r: Reader, c: string, rest: string)
    requires r.sections != [] && r.err == 0 && CleanComment(c)
    ensures ReadText(r, c + rest) == ReadText(r.(comment := r.comment + c), rest)
    decreases |c|
  {
    hide ReadText;
    if c == "" {
      assert c + rest == rest && r.comment + c == r.comment;
    } else {
      var n := Find(c, '\n');
      var line, more := c[..n], c[n + 1..];
      var t := r.(comment := r.comment + (line + "\n"));
      CutAtBreak(r.comment, c, n, rest);
      ReadCommentLine(r, line, more + rest);
      ReadComment(t, more, rest);
    }
  }

  lemma CutAtBreak(before: string, c: string, n: nat, rest: string)
    requires n < |c| && c[n] == '\n'
    ensures c + rest == c[..n] + "\n" + (c[n + 1..] + rest)
    ensures before + (c[..n] + "\n") + c[n + 1..] == before + c
  {
    assert c == c[..n] + "\n" + c[n + 1..];
  }

  lemma ReadCommentLine(r: Reader, line: string, rest: string)
    requires r.sections != [] && r.err == 0 && '\n' !in line
    requires line == "" || (line[0] == '#' && Trimmed(line))
    ensures ReadText(r, line + "\n" + rest) == ReadText(r.(comment := r.comment + (line + "\n")), rest)
  {
    ReadOneLine(r, line, rest);
    TrimTrimmed(line);
    assert line == "" ==> line + "\n" == "\n";
  }

  function ItemLine(i: Item): string {
    i.key + "=" + i.value + RightPart(i.rightComment)
  }

  // The text of an item line is one trimmed line that is not a comment.
  lemma ItemLineShape(i: Item)
    requires CleanItem(i)
    ensures var s := ItemLine(i); s != "" && Trimmed(s) && '\n' !in s && s[0] != '#'
    ensures EndLine(ItemLine(i)) == ItemLine(i) + "\n"
  {
    var s := ItemLine(i);
    assert s[0] == if i.key == "" then '=' else i.key[0];
    var body := i.key + "=" + i.value;
    if i.rightComment == "" {
      assert s == body;
      assert s[|s| - 1] == if i.value == "" then '=' else i.value[|i.value| - 1];
    } else {
      assert s[|s| - 1] == i.rightComment[|i.rightComment| - 1];
    }
  }

  // Splitting it at the comment sign recovers the pair and the right comment.
  lemma ItemLineSplit(i: Item)
    requires CleanItem(i)
    ensures Left(ItemLine(i), '#') == i.key + "=" + i.value && Right(ItemLine(i), '#') == i.rightComment
  {
    var body := i.key + "=" + i.value;
    BodyTrimmed(i);
    if i.rightComment == "" {
      assert ItemLine(i) == body;
      SplitNone(body, '#');
    } else {
      assert ItemLine(i) == (body + " ") + ['#'] + i.rightComment;
      SplitAt(body + " ", '#', i.rightComment);
      TrimDropsBlank(body);
      TrimTrimmed(i.rightComment);
    }
  }

  lemma SplitAt(a: string, sep: char, b: string)
    requires sep !in a
    ensures var s := a + [sep] + b; Find(s, sep) == |a| < |s| && Left(s, sep) == Trim(a) && Right(s, sep) == Trim(b)
  {
    var s := a + [sep] + b;
    FindFirst(a, sep, b);
    assert s[..|a|] == a && s[|a| + 1..] == b;
  }

  lemma SplitNone(s: string, sep: char)
    requires sep !in s && Trimmed(s)
    ensures Left(s, sep) == s && Right(s, sep) == ""
  {
    FindNone(s, sep);
    assert s[..|s|] == s;
    TrimTrimmed(s);
  }

  // Splitting the pair at the equals sign recovers key and value.
  lemma PairSplit(i: Item)
    requires CleanItem(i)
    ensures var body := i.key + "=" + i.value;
            Find(body, '=') < |body| && Left(body, '=') == i.key && Right(body, '=') == i.value
  {
    assert i.key + "=" + i.value == i.key + ['='] + i.value;
    SplitAt(i.key, '=', i.value);
    TrimTrimmed(i.key);
    TrimTrimmed(i.value);
  }

  lemma BodyTrimmed(i: Item)
    requires CleanItem(i)
    ensures var body := i.key + "=" + i.value;
            Trimmed(body) && '#' !in body && body != "" && body[0] != '['
  {
    var body := i.key + "=" + i.value;
    assert body[0] == if i.key == "" then '=' else i.key[0];
    assert body[|body| - 1] == if i.value == "" then '=' else i.value[|i.value| - 1];
  }

  function WithItems(sections: seq<Section>, items: seq<Item>): seq<Section>
    requires sections != []
  {
    var last := |sections| - 1;
    sections[last := sections[last].(items := sections[last].items + items)]
  }

  lemma ReadItemLine(t: Reader, i: Item, rest: string)
    requires t.sections != [] && t.err == 0 && t.comment == i.comment && CleanItem(i)
    ensures ReadText(t, ItemLine(i) + "\n" + rest) == ReadText(Reader(WithItems(t.sections, [i]), "", 0), rest)
  {
    var line, body := ItemLine(i), i.key + "=" + i.value;
    hide ReadText, AddItem;
    assert line != "" && Trim(line) == line && line[0] != '#' && '\n' !in line by {
      ItemLineShape(i);
      TrimTrimmed(line);
    }
    ReadOneLine(t, line, rest);
    assert Left(line, '#') == body && Right(line, '#') == i.rightComment by { ItemLineSplit(i); }
    assert body != "" && body[0] != '[' by { BodyTrimmed(i); }
    assert ReadLine(t, line) == AddItem(t, body, i.rightComment);
    ReadPair(t, i);
  }

  lemma ReadPair(t: Reader, i: Item)
    requires t.sections != [] && t.err == 0 && t.comment == i.comment && CleanItem(i)
    ensures AddItem(t, i.key + "=" + i.value, i.rightComment) == Reader(WithItems(t.sections, [i]), "", 0)
  {
    PairSplit(i);
  }

  lemma ReadItem(r: Reader, i: Item, rest: string)
    requires r.sections != [] && r.err == 0 && r.comment == "" && CleanItem(i)
    ensures ReadText(r, ItemText(i) + rest) == ReadText(Reader(WithItems(r.sections, [i]), "", 0), rest)
  {
    hide ReadText;
    var t := r.(comment := i.comment);
    var tail := ItemLine(i) + "\n" + rest;
    assert ItemText(i) + rest == i.comment + tail by {
      ItemLineShape(i);
      CommentEndsLine(i.comment);
    }
    assert ReadText(r, i.comment + tail) == ReadText(t, tail) by {
      ReadComment(r, i.comment, tail);
      assert "" + i.comment == i.comment;
    }
    ReadItemLine(t, i, rest);
  }

  lemma {:induction false} CommentEndsLine(c: string)
    requires CleanComment(c)
    ensures c != "" ==> EndLine(c) == c
    decreases |c|
  {
    if c != "" {
      var n := Find(c, '\n');
      CommentEndsLine(c[n + 1..]);
      if n + 1 < |c| {
        assert c[n + 1..] != "";
        assert c[|c| - 1] == c[n + 1..][|c| - n - 2];
        assert EndLine(c[n + 1..]) == c[n + 1..];
      }
    }
  }

  lemma {:induction false} ReadItems(r: Reader, items: seq<Item>, rest: string)
    requires r.sections != [] && r.err == 0 && r.comment == ""
    requires forall k :: 0 <= k < |items| ==> CleanItem(items[k])
    ensures ReadText(r, ItemsText(items) + rest) == ReadText(Reader(WithItems(r.sections, items), "", 0), rest)
    decreases |items|
  {
    if items == [] {
      assert ItemsText(items) + rest == rest;
      WithNoItems(r.sections);
    } else {
      hide ReadText, CleanItem, ItemText;
      var more := ItemsText(items[1..]) + rest;
      assert ItemsText(items) + rest == ItemText(items[0]) + more by { ItemsTextStep(items, rest); }
      var t := Reader(WithItems(r.sections, [items[0]]), "", 0);
      assert ReadText(r, ItemText(items[0]) + more) == ReadText(t, more) by { ReadItem(r, items[0], more); }
      ReadItems(t, items[1..], rest);
      WithMoreItems(r.sections, items);
    }
  }

  lemma ItemsTextStep(items: seq<Item>, rest: string)
    requires items != []
    ensures ItemsText(items) + rest == ItemText(items[0]) + (ItemsText(items[1..]) + rest)
  {
    hide ItemText;
    Assoc(ItemText(items[0]), ItemsText(items[1..]), rest);
  }

  lemma WithNoItems(sections: seq<Section>)
    requires sections != []
    ensures WithItems(sections, []) == sections
  {
    var last := |sections| - 1;
    assert sections[last].items + [] == sections[last].items;
  }

  lemma WithMoreItems(sections: seq<Section>, items: seq<Item>)
    requires sections != [] && items != []
    ensures WithItems(WithItems(sections, [items[0]]), items[1..]) == WithItems(sections, items)
  {
    var last := |sections| - 1;
    assert sections[last].items + [items[0]] + items[1..] == sections[last].items + items;
  }

  lemma HeadLineParts(name: string)
    requires CleanName(name) && name != ""
    ensures var s := "[" + name + "]";
            && Trimmed(s) && '\n' !in s && Left(s, '#') == s && Right(s, '#') == ""
            && Find(s, ']') == |name| + 1 && s[1..|name| + 1] == name && Trim(name) == name
  {
    var s := "[" + name + "]";
    FindNone(s, '#');
    assert s[..|s|] == s;
    TrimTrimmed(s);
    TrimTrimmed(name);
    assert s == ("[" + name) + [']'] + "";
    FindFirst("[" + name, ']', "");
  }

  lemma ReadHead(r: Reader, s: Section, rest: string)
    requires r.sections != [] && r.err == 0 && r.comment == ""
    requires CleanSection(s) && s.name != "" && IndexOf(r.sections, s.name) == |r.sections|
    ensures ReadText(r, HeadText(s) + rest)
            == ReadText(Reader(r.sections + [Section(s.name, s.comment, "", [])], "", 0), rest)
  {
    var line := "[" + s.name + "]";
    HeadLineParts(s.name);
    assert HeadText(s) + rest == s.comment + (line + "\n" + rest);
    ReadComment(r, s.comment, line + "\n" + rest);
    assert "" + s.comment == s.comment;
    var t := r.(comment := s.comment);
    ReadOneLine(t, line, rest);
    TrimTrimmed(line);
    assert line[0] == '[';
    assert ReadLine(t, line) == AddSection(t, line, "");
  }

  lemma NewName(cfg: seq<Section>, k: nat)
    requires DistinctNames(cfg) && k < |cfg|
    ensures IndexOf(cfg[..k], cfg[k].name) == k
  {
    assert forall j :: 0 <= j < k ==> cfg[..k][j].name == cfg[j].name != cfg[k].name;
  }

  lemma ReadSection(r: Reader, cfg: seq<Section>, k: nat, rest: string)
    requires Clean(cfg) && 0 < k < |cfg| && cfg[k].rightComment == ""
    requires r == Reader(cfg[..k], "", 0)
    ensures ReadText(r, SectionText(cfg[k]) + rest) == ReadText(Reader(cfg[..k + 1], "", 0), rest)
  {
    hide ReadText;
    var s := cfg[k];
    assert CleanSection(s) && s.name != "" && IndexOf(r.sections, s.name) == |r.sections| by {
      NewName(cfg, k);
      assert cfg[0].name == "";
    }
    var more := ItemsText(s.items) + rest;
    assert SectionText(s) + rest == HeadText(s) + more;
    ReadHead(r, s, more);
    var t := Reader(cfg[..k] + [Section(s.name, s.comment, "", [])], "", 0);
    ReadItems(t, s.items, rest);
    FilledSection(cfg, k);
  }

  lemma FilledSection(cfg: seq<Section>, k: nat)
    requires k < |cfg| && cfg[k].rightComment == ""
    ensures WithItems(cfg[..k] + [Section(cfg[k].name, cfg[k].comment, "", [])], cfg[k].items) == cfg[..k + 1]
  {
    assert [] + cfg[k].items == cfg[k].items;
    assert cfg[..k + 1] == cfg[..k] + [cfg[k]];
  }

  lemma {:induction false} ReadSections(cfg: seq<Section>, k: nat)
    requires Clean(cfg) && NoSectionRight(cfg) && 0 < k <= |cfg|
    ensures ReadText(Reader(cfg[..k], "", 0), ConfigText(cfg[k..])) == Reader(cfg, "", 0)
    decreases |cfg| - k
  {
    if k == |cfg| {
      assert cfg[..k] == cfg && cfg[k..] == [];
    } else {
      hide ReadText;
      assert cfg[k..][0] == cfg[k] && cfg[k..][1..] == cfg[k + 1..];
      ReadSection(Reader(cfg[..k], "", 0), cfg, k, ConfigText(cfg[k + 1..]));
      ReadSections(cfg, k + 1);
    }
  }

  lemma ReadRoot(cfg: seq<Section>, rest: string)
    requires Clean(cfg)
    ensures ReadText(Reader([ROOT], "", 0), SectionText(cfg[0]) + rest) == ReadText(Reader(cfg[..1], "", 0), rest)
  {
    hide ReadText;
    var s := cfg[0];
    assert CleanSection(s);
    assert SectionText(s) == ItemsText(s.items);
    ReadItems(Reader([ROOT], "", 0), s.items, rest);
    assert WithItems([ROOT], s.items) == [s] by { assert [] + s.items == s.items; }
    assert cfg[..1] == [s];
  }

  // Reading back what was printed gives the same configuration.
  lemma ReadBack(cfg: seq<Section>)
    requires Clean(cfg) && NoSectionRight(cfg)
    ensures LoadText(ConfigText(cfg)) == Reader(cfg, "", 0)
  {
    ReadRoot(cfg, ConfigText(cfg[1..]));
    ReadSections(cfg, 1);
  }

  // ----- what Load produces

  // The sections, the root first, and the comment collected for the next entry.
  predicate CleanReader(r: Reader) {
    Clean(r.sections) && CleanComment(r.comment)
  }

  lemma {:induction false} CleanCommentsJoin(c: string, d: string)
    requires CleanComment(c) && CleanComment(d)
    ensures CleanComment(c + d)
    decreases |c|
  {
    if c == "" {
      assert c + d == d;
    } else {
      var n := Find(c, '\n');
      CleanCommentsJoin(c[n + 1..], d);
      CleanCommentStep(c[..n], c[n + 1..] + d);
      CutAtBreak("", c, n, d);
    }
  }

  lemma CleanCommentStep(line: string, more: string)
    requires '\n' !in line && (line == "" || (line[0] == '#' && Trimmed(line))) && CleanComment(more)
    ensures CleanComment(line + "\n" + more)
  {
    var d := line + ['\n'] + more;
    FindFirst(line, '\n', more);
    assert d[..|line|] == line && d[|line| + 1..] == more;
    assert line + "\n" + more == d;
  }

  lemma CleanCommentAppend(c: string, line: string)
    requires CleanComment(c) && '\n' !in line && (line == "" || (line[0] == '#' && Trimmed(line)))
    ensures CleanComment(c + (line + "\n"))
  {
    CleanCommentStep(line, "");
    assert line + "\n" + "" == line + "\n";
    CleanCommentsJoin(c, line + "\n");
  }

  lemma SplitKeepsOut(s: string, sep: char, c: char)
    requires c !in s
    ensures c !in Left(s, sep) && c !in Right(s, sep)
  {
    var i := Find(s, sep);
    TrimKeepsOut(s[..i], c);
    if i < |s| { TrimKeepsOut(s[i + 1..], c); }
  }

  lemma SplitTrimmed(s: string, sep: char)
    ensures Trimmed(Left(s, sep)) && Trimmed(Right(s, sep)) && sep !in Left(s, sep)
  {
    var i := Find(s, sep);
    var a, b := TrimSplits(s[..i]);
    TrimKeepsOut(s[..i], sep);
    if i < |s| { var a', b' := TrimSplits(s[i + 1..]); }
  }

  lemma StartsInside(p: string, a: string, m: string, b: string)
    requires p == a + m + b && AllSpace(a) && AllSpace(b) && p != "" && !IsSpace(p[0])
    ensures a == "" && m != ""
  {
    assert p[0] == (a + (m + b))[0];
  }

  // A key is empty or starts as its line does.
  lemma LeftStart(s: string, sep: char)
    requires s != "" && !IsSpace(s[0])
    ensures s[0] != sep ==> Left(s, sep) != "" && Left(s, sep)[0] == s[0]
    ensures s[0] == sep ==> Left(s, sep) == ""
  {
    var p := s[..Find(s, sep)];
    if s[0] == sep {
      assert p == "";
    } else {
      assert p[0] == s[0];
      var a, b := TrimSplits(p);
      StartsInside(p, a, Trim(p), b);
    }
  }

  lemma AddItemClean(r: Reader, clean: string, right: string)
    requires CleanReader(r) && clean != "" && Trimmed(clean) && clean[0] != '['
    requires '#' !in clean && '\n' !in clean && CleanRight(right)
    ensures AddItem(r, clean, right).err == 0 ==> CleanReader(AddItem(r, clean, right))
  {
    var t := AddItem(r, clean, right);
    if Find(clean, '=') < |clean| {
      var item := Item(Left(clean, '='), Right(clean, '='), r.comment, right);
      assert CleanItem(item) by {
        SplitTrimmed(clean, '=');
        SplitKeepsOut(clean, '=', '#');
        SplitKeepsOut(clean, '=', '\n');
        LeftStart(clean, '=');
      }
      LastItemClean(r, item);
    }
  }

  lemma LastItemClean(r: Reader, item: Item)
    requires CleanReader(r) && CleanItem(item)
    ensures CleanReader(Reader(WithItems(r.sections, [item]), "", 0))
  {
    var last := |r.sections| - 1;
    var s := r.sections[last];
    var t := WithItems(r.sections, [item]);
    assert CleanSection(s);
    assert CleanSection(t[last]);
    assert forall k :: 0 <= k < |t| ==> t[k].name == r.sections[k].name;
  }

  lemma AddSectionClean(r: Reader, clean: string, right: string)
    requires CleanReader(r) && clean != "" && clean[0] == '['
    requires '#' !in clean && '\n' !in clean && CleanRight(right)
    ensures AddSection(r, clean, right).err == 0 ==> r.err == 0 ==> CleanReader(AddSection(r, clean, right))
  {
    var t := AddSection(r, clean, right);
    var index := Find(clean, ']');
    if r.err == 0 && t.err == 0 {
      var name := Trim(clean[1..index]);
      assert CleanName(name) by {
        assert forall k :: 1 <= k < index ==> clean[k] == clean[..index][k];
        TrimKeepsOut(clean[1..index], ']');
        TrimKeepsOut(clean[1..index], '#');
        TrimKeepsOut(clean[1..index], '\n');
        var a, b := TrimSplits(clean[1..index]);
      }
      assert CleanSection(Section(name, r.comment, right, []));
    }
  }

  lemma ReadLineClean(r: Reader, line: string)
    requires CleanReader(r) && r.err == 0 && Trimmed(line) && '\n' !in line
    ensures ReadLine(r, line).err == 0 ==> CleanReader(ReadLine(r, line))
  {
    if line == "" || line[0] == '#' {
      CleanCommentAppend(r.comment, line);
      assert line == "" ==> line + "\n" == "\n";
    } else {
      var clean, right := Left(line, '#'), Right(line, '#');
      SplitTrimmed(line, '#');
      SplitKeepsOut(line, '#', '\n');
      LeftStart(line, '#');
      if clean[0] == '[' { AddSectionClean(r, clean, right); } else { AddItemClean(r, clean, right); }
    }
  }

  lemma {:induction false} ReadTextClean(r: Reader, text: string)
    requires CleanReader(r) && r.err == 0
    ensures ReadText(r, text).err == 0 ==> CleanReader(ReadText(r, text))
    decreases |text|
  {
    if text != "" {
      var line := FirstLine(text);
      TrimKeepsOut(line, '\n');
      var a, b := TrimSplits(line);
      ReadLineClean(r, Trim(line));
      var t := ReadLine(r, Trim(line));
      if t.err == 0 { ReadTextClean(t, AfterLine(text)); }
    }
  }

  // Everything Load accepts is clean.
  lemma LoadIsClean(text: string)
    requires LoadText(text).err == 0
    ensures Clean(LoadText(text).sections)
  {
    assert CleanSection(ROOT);
    ReadTextClean(Reader([ROOT], "", 0), text);
  }

  // ----- when the printed text reads back differently

  // Name and comments of a section never change once it has been read.
  predicate HeadsKept(a: seq<Section>, b: seq<Section>) {
    |a| <= |b| && forall k :: 0 <= k < |a| ==> b[k].name == a[k].name && b[k].rightComment == a[k].rightComment
  }

  lemma {:induction false} ReadKeepsHeads(r: Reader, text: string)
    requires r.sections != []
    ensures HeadsKept(r.sections, ReadText(r, text).sections)
    decreases |text|
  {
    if r.err == 0 && text != "" {
      var t := ReadLine(r, Trim(FirstLine(text)));
      assert HeadsKept(r.sections, t.sections);
      ReadKeepsHeads(t, AfterLine(text));
    }
  }

  // The first section with a right comment loses it.
  lemma {:induction false} RightCommentIsLost(cfg: seq<Section>, k: nat)
    requires Clean(cfg) && 0 < k <= |cfg| && !NoSectionRight(cfg)
    requires forall j :: 0 <= j < k ==> cfg[j].rightComment == ""
    ensures ReadText(Reader(cfg[..k], "", 0), ConfigText(cfg[k..])).sections != cfg
    decreases |cfg| - k
  {
    assert k < |cfg|;
    assert cfg[k..][0] == cfg[k] && cfg[k..][1..] == cfg[k + 1..];
    var more := ConfigText(cfg[k + 1..]);
    if cfg[k].rightComment == "" {
      ReadSection(Reader(cfg[..k], "", 0), cfg, k, more);
      RightCommentIsLost(cfg, k + 1);
    } else {
      LostHere(cfg, k, more);
    }
  }

  lemma LostHere(cfg: seq<Section>, k: nat, more: string)
    requires Clean(cfg) && 0 < k < |cfg| && cfg[k].rightComment != ""
    ensures ReadText(Reader(cfg[..k], "", 0), SectionText(cfg[k]) + more).sections != cfg
  {
    var s := cfg[k];
    assert CleanSection(s) && s.name != "" && IndexOf(cfg[..k], s.name) == k by {
      NewName(cfg, k);
      assert cfg[0].name == "";
    }
    var rest := RightPart(s.rightComment) + ItemsText(s.items) + more;
    assert SectionText(s) + more == HeadText(s) + rest;
    ReadHead(Reader(cfg[..k], "", 0), s, rest);
    var t := Reader(cfg[..k] + [Section(s.name, s.comment, "", [])], "", 0);
    ReadKeepsHeads(t, rest);
    assert t.sections[k].rightComment == "";
  }

  // A clean configuration reads back unchanged if and only if no section has a
  // right comment.
  lemma ReadsBackIffNoSectionRight(cfg: seq<Section>)
    requires Clean(cfg)
    ensures LoadText(ConfigText(cfg)) == Reader(cfg, "", 0) <==> NoSectionRight(cfg)
  {
    if NoSectionRight(cfg) {
      ReadBack(cfg);
    } else {
      ReadRoot(cfg, ConfigText(cfg[1..]));
      hide ReadText, SectionText, NoSectionRight;
      RightCommentIsLost(cfg, 1);
    }
  }

  // Normal form: for every text Load accepts, saving and loading again gives the
  // same sections, items and comments, and saving again the same text, exactly
  // when no section carries a right comment.
  lemma NormalForm(text: string)
    requires LoadText(text).err == 0
    ensures var cfg := LoadText(text).sections;
            var again := LoadText(ConfigText(cfg));
            && (again == Reader(cfg, "", 0) <==> NoSectionRight(cfg))
            && (NoSectionRight(cfg) ==> ConfigText(again.sections) == ConfigText(cfg))
  {
    LoadIsClean(text);
    ReadsBackIffNoSectionRight(LoadText(text).sections);
  }

  // ----- what a section's right comment does

  lemma TrimSkipsBlank(s: string)
    requires Trimmed(s)
    ensures Trim(" " + s) == s
  {
    assert (" " + s)[1..] == s;
    TrimTrimmed(s);
  }

  // The right comment of a section swallows the line printed behind it: the
  // first item becomes a comment line for whatever comes next.
  lemma RightCommentSwallowsFirstItem(r: Reader, s: Section, rest: string)
    requires r.sections != [] && r.err == 0 && r.comment == ""
    requires CleanSection(s) && s.name != "" && IndexOf(r.sections, s.name) == |r.sections|
    requires s.rightComment != "" && s.items != [] && s.items[0].comment == ""
    ensures ReadText(r, SectionText(s) + rest)
            == ReadText(Reader(r.sections + [Section(s.name, s.comment, "", [])],
                               "#" + s.rightComment + ItemLine(s.items[0]) + "\n", 0),
                        ItemsText(s.items[1..]) + rest)
  {
    var item, more := s.items[0], ItemsText(s.items[1..]) + rest;
    var line := "#" + s.rightComment + ItemLine(item);
    var t := Reader(r.sections + [Section(s.name, s.comment, "", [])], "", 0);
    assert SectionText(s) + rest == HeadText(s) + ((" " + line) + "\n" + more) by { SectionTextShape(s, rest); }
    hide ReadText, SectionText, ItemLine, ItemsText;
    ReadHead(r, s, (" " + line) + "\n" + more);
    assert Trimmed(line) && '\n' !in line by { ItemLineShape(item); }
    ReadOneLine(t, " " + line, more);
    TrimSkipsBlank(line);
    assert "" + (line + "\n") == line + "\n";
  }

  lemma SectionTextShape(s: Section, rest: string)
    requires CleanSection(s) && s.rightComment != "" && s.items != [] && s.items[0].comment == ""
    ensures SectionText(s) + rest
            == HeadText(s)
               + ((" " + ("#" + s.rightComment + ItemLine(s.items[0]))) + "\n" + (ItemsText(s.items[1..]) + rest))
  {
    var item := s.items[0];
    assert ItemText(item) == ItemLine(item) + "\n" by {
      ItemLineShape(item);
      assert "" + EndLine(ItemLine(item)) == EndLine(ItemLine(item));
    }
    assert ItemsText(s.items) == ItemLine(item) + "\n" + ItemsText(s.items[1..]);
    assert RightPart(s.rightComment) == " #" + s.rightComment;
    hide ItemLine, HeadText, ItemText, ItemsText, CleanSection;
    Rearrange(HeadText(s), s.rightComment, ItemLine(item), ItemsText(s.items[1..]), rest);
  }

  lemma Rearrange(head: string, right: string, line: string, more: string, rest: string)
    ensures ((head + (" #" + right)) + (line + "\n" + more)) + rest
            == head + ((" " + ("#" + right + line)) + "\n" + (more + rest))
  {
    var tail := line + "\n" + more;
    Assoc(head, " #" + right, tail);
    Assoc(head, (" #" + right) + tail, rest);
    assert ((" #" + right) + tail) + rest == (" " + ("#" + right + line)) + "\n" + (more + rest);
  }

  // "[a] #x" and then "k=v": Load accepts it and finds v; after Save and Load
  // the item is gone.
  const LOSES: string := "[a] #x" + "\n" + "k=v"

  const KV := Item("k", "v", "", "")
  const A_X := Section("a", "", "x", [KV])

  lemma AcceptedTextLosesItem()
    ensures LoadText(LOSES) == Reader([ROOT, A_X], "", 0)
    ensures LoadText(ConfigText([ROOT, A_X])) == Reader([ROOT, Section("a", "", "", [])], "#xk=v\n", 0)
  {
    LoadOfLoses();
    TwoSections();
    SmallSectionIsClean();
    SmallItemLine();
    hide ReadText, SectionText, ConfigText, CleanSection, IndexOf, ItemLine, ItemsText;
    RightCommentSwallowsFirstItem(Reader([ROOT], "", 0), A_X, "");
    AfterSwallowing();
  }

  lemma SmallSectionIsClean()
    ensures CleanSection(A_X) && A_X.rightComment == "x" && A_X.items == [KV] && A_X.name == "a" != ""
    ensures KV.comment == "" && IndexOf([ROOT], "a") == 1
  {
    assert CleanItem(KV);
  }

  lemma SmallItemLine()
    ensures "#" + A_X.rightComment + ItemLine(A_X.items[0]) + "\n" == "#xk=v\n"
  {
    assert ItemLine(KV) == "k=v" + RightPart("") == "k=v" + "" == "k=v";
    hide *;
    assert A_X.items[0] == KV && A_X.rightComment == "x";
  }

  lemma AfterSwallowing()
    ensures var head := Section(A_X.name, A_X.comment, "", []);
            && [ROOT] + [head] == [ROOT, Section("a", "", "", [])]
            && ReadText(Reader([ROOT, Section("a", "", "", [])], "#xk=v\n", 0), ItemsText(A_X.items[1..]) + "")
               == Reader([ROOT, Section("a", "", "", [])], "#xk=v\n", 0)
  {
    assert A_X.items[1..] == [] && ItemsText([]) + "" == "";
  }

  lemma TwoSections()
    ensures ConfigText([ROOT, A_X]) == SectionText(A_X) + ""
  {
    assert SectionText(ROOT) == "";
    hide SectionText;
    ConfigTextOfTwo(ROOT, A_X);
  }

  lemma ConfigTextOfTwo(s: Section, x: Section)
    requires SectionText(s) == ""
    ensures ConfigText([s, x]) == SectionText(x) + ""
  {
    hide SectionText;
    assert [s, x][1..] == [x] && [x][1..] == [];
    assert ConfigText([x]) == SectionText(x) + ConfigText([]);
  }

  lemma LoadOfLoses()
    ensures LoadText(LOSES) == Reader([ROOT, A_X], "", 0)
  {
    var r, t := Reader([ROOT], "", 0), Reader([ROOT, Section("a", "", "x", [])], "", 0);
    assert Trim("[a] #x") == "[a] #x" by { TrimTrimmed("[a] #x"); }
    LoadHead(r);
    LoadItem(t);
    hide ReadLine, Trim, ReadText;
    ReadOneLine(r, "[a] #x", "k=v");
    ReadLastLine(t, "k=v");
  }

  lemma ReadLastLine(t: Reader, line: string)
    requires t.sections != [] && t.err == 0 && '\n' !in line && line != ""
    ensures ReadText(t, line) == ReadLine(t, Trim(line))
  {
    FindNone(line, '\n');
    assert line[..|line|] == line;
    hide ReadLine, Trim;
    assert FirstLine(line) == line && AfterLine(line) == "";
  }

  lemma LoadHead(r: Reader)
    requires r == Reader([ROOT], "", 0)
    ensures ReadLine(r, "[a] #x") == Reader([ROOT, Section("a", "", "x", [])], "", 0)
  {
    HeadParts();
    HeadName();
    hide Left, Right, Trim, Find;
  }

  lemma HeadParts()
    ensures Left("[a] #x", '#') == "[a]" && Right("[a] #x", '#') == "x"
  {
    assert "[a] #x" == ("[a]" + " ") + ['#'] + "x";
    SplitAt("[a]" + " ", '#', "x");
    TrimDropsBlank("[a]");
    TrimTrimmed("x");
    hide Left, Right, Trim, Find;
  }

  lemma HeadName()
    ensures Find("[a]", ']') == 2 && Trim("[a]"[1..2]) == "a"
  {
    assert "[a]" == "[a" + [']'] + "";
    FindFirst("[a", ']', "");
    assert "[a]"[1..2] == "a";
    TrimTrimmed("a");
    hide Trim, Find;
  }

  lemma LoadItem(t: Reader)
    requires t == Reader([ROOT, Section("a", "", "x", [])], "", 0)
    ensures ReadLine(t, Trim("k=v")) == Reader([ROOT, Section("a", "", "x", [Item("k", "v", "", "")])], "", 0)
  {
    TrimTrimmed("k=v");
    SplitNone("k=v", '#');
    assert "k=v" == "k" + ['='] + "v";
    SplitAt("k", '=', "v");
    TrimTrimmed("k");
    TrimTrimmed("v");
    assert [] + [Item("k", "v", "", "")] == [Item("k", "v", "", "")];
  }
}
