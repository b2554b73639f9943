// Which lines stop the reader, which values and comments belong together, and
// what becomes of a comment that is set.
module IniLaws {
  import opened Sequences
  import opened IniText
  import opened IniModel
  import opened IniRoundTrip
  import opened IniStore

  // ----- errors

  // A line is `before`, and a comment sign and `behind` when it has one.
  function Line(before: string, hash: bool, behind: string): string {
    before + if hash then "#" + behind else ""
  }

  lemma PartsOfLine(before: string, hash: bool, behind: string)
    requires '#' !in before && (hash || Trimmed(before))
    ensures var line := Line(before, hash, behind);
            && Left(line, '#') == Trim(before)
            && Right(line, '#') == if hash then Trim(behind) else ""
  {
    if hash {
      assert Line(before, hash, behind) == before + ['#'] + behind;
      SplitAt(before, '#', behind);
    } else {
      assert Line(before, hash, behind) == before;
      SplitNone(before, '#');
      TrimTrimmed(before);
    }
  }

  // Trimming keeps every character that is not white space.
  lemma TrimKeeps(s: string, c: char)
    requires !IsSpace(c)
    ensures c in Trim(s) <==> c in s
  {
    var a, b := TrimSplits(s);
    if c in s {
      var k :| 0 <= k < |s| && s[k] == c;
      assert forall i :: 0 <= i < |a| ==> s[i] == a[i];
      assert forall i :: 0 <= i < |b| ==> s[|a| + |Trim(s)| + i] == b[i];
      assert |a| <= k < |a| + |Trim(s)|;
      assert Trim(s)[k - |a|] == c;
    }
    if c in Trim(s) {
      var k :| 0 <= k < |Trim(s)| && Trim(s)[k] == c;
      assert s[|a| + k] == c;
    }
  }

  lemma TrimFromStart(s: string)
    requires s != "" && !IsSpace(s[0])
    ensures Trim(s) != "" && Trim(s) <= s
  {
    TrimKeeps(s, s[0]);
    var a, b := TrimSplits(s);
    assert forall i :: 0 <= i < |a| ==> s[i] == a[i];
    assert a == "";
    assert s == Trim(s) + b;
  }

  // The code a line stops the reader with, by its characters: a section line needs a
  // closing bracket (2), a name (3), and a new name (4); any other line an equals sign (5).
  function CodeOf(names: set<string>, before: string): int
    requires before != ""
  {
    if before[0] == '[' then
      if ']' !in before then 2
      else if before[1] == ']' then 3
      else if Trim(before[1..Find(before, ']')]) in names then 4
      else 0
    else if '=' !in before then 5
    else 0
  }

  function NamesOf(cfg: seq<Section>): set<string> {
    set s <- cfg :: s.name
  }

  lemma KnownName(cfg: seq<Section>, name: string)
    ensures IndexOf(cfg, name) < |cfg| <==> name in NamesOf(cfg)
  {
    if IndexOf(cfg, name) < |cfg| { assert cfg[IndexOf(cfg, name)] in cfg; }
  }

  // Which lines stop the reader and with which code. Blank lines and comments never do.
  lemma ErrorOfLine(r: Reader, before: string, hash: bool, behind: string)
    requires r.sections != [] && r.err == 0
    requires '#' !in before && Trimmed(Line(before, hash, behind))
    ensures ReadLine(r, Line(before, hash, behind)).err
            == if before == "" then 0 else CodeOf(NamesOf(r.sections), before)
  {
    var line := Line(before, hash, behind);
    if before != "" {
      assert line[0] == before[0] && (!hash ==> line == before);
      PartsOfLine(before, hash, behind);
      TrimFromStart(before);
      hide Left, Right;
      ErrorOfClean(r, before, Right(line, '#'));
    }
  }

  lemma ErrorOfClean(r: Reader, before: string, right: string)
    requires r.sections != [] && r.err == 0 && before != "" && Trim(before) != "" && Trim(before) <= before
    ensures (if Trim(before)[0] == '[' then AddSection(r, Trim(before), right) else AddItem(r, Trim(before), right)).err
            == CodeOf(NamesOf(r.sections), before)
  {
    var clean := Trim(before);
    TrimKeeps(before, '=');
    TrimKeeps(before, ']');
    FindIn(clean, '=');
    FindIn(clean, ']');
    if clean[0] == '[' && ']' in clean {
      FindInPrefix(clean, before, ']');
      var n := Find(clean, ']');
      assert clean[1..n] == before[1..n];
      assert before[1] == ']' <==> n == 1 by {
        if before[1] == ']' { assert clean[..n] == before[..n]; }
      }
      KnownName(r.sections, Trim(clean[1..n]));
    }
    hide Trim, IndexOf, NamesOf;
  }

  lemma FindIn(s: string, c: char)
    ensures Find(s, c) < |s| <==> c in s
  {
    assert s[..|s|] == s;
  }

  lemma FindInPrefix(a: string, s: string, c: char)
    requires a <= s && c in a
    ensures Find(s, c) == Find(a, c)
  {
    FindIn(a, c);
    var n := Find(a, c);
    assert s == a[..n] + [c] + s[n + 1..];
    FindFirst(a[..n], c, s[n + 1..]);
  }

  // A line that stops the reader ends the reading: what follows is not read.
  lemma StopsAtLine(r: Reader, line: string, rest: string)
    requires r.sections != [] && r.err == 0 && '\n' !in line && ReadLine(r, Trim(line)).err != 0
    ensures ReadText(r, line + "\n" + rest) == ReadLine(r, Trim(line))
  {
    ReadOneLine(r, line, rest);
    hide ReadLine, Trim;
  }

  // ----- values and comments

  // How many of the first k items have this key.
  function KeysBefore(items: seq<Item>, key: string, k: nat): nat
    requires k <= |items|
  {
    if k == 0 then 0 else (if items[0].key == key then 1 else 0) + KeysBefore(items[1..], key, k - 1)
  }

  // GetValues lists a value and a comment for every item of the key, in order: both
  // of item k stand behind those of the items of the key before it.
  lemma {:induction false} ValuesAndCommentsMatch(items: seq<Item>, key: string, k: nat)
    requires k <= |items|
    ensures |ValuesOf(items, key)| == |CommentsOf(items, key)| == KeysBefore(items, key, |items|)
    ensures KeysBefore(items, key, k) <= |ValuesOf(items, key)|
    ensures k < |items| && items[k].key == key ==>
              var n := KeysBefore(items, key, k);
              && n < |ValuesOf(items, key)| && n < |CommentsOf(items, key)|
              && ValuesOf(items, key)[n] == items[k].value && CommentsOf(items, key)[n] == items[k].comment
  {
    if items != [] {
      var own, ownComment := if items[0].key == key then [items[0].value] else [],
                             if items[0].key == key then [items[0].comment] else [];
      var values, comments := ValuesOf(items[1..], key), CommentsOf(items[1..], key);
      ValuesAndCommentsMatch(items[1..], key, if k > 0 then k - 1 else 0);
      assert ValuesOf(items, key) == own + values && CommentsOf(items, key) == ownComment + comments;
      hide ValuesOf, CommentsOf;
      assert k > 0 ==> KeysBefore(items, key, k) == |own| + KeysBefore(items[1..], key, k - 1);
    }
  }

  // ----- setting a comment

  // What a lookup finds after setValue: the value, and the comment behind a comment sign.
  lemma SetValueIsFound(cfg: seq<Section>, section: string, key: string, value: string, comment: string)
    ensures Lookup(SetValue(cfg, section, key, value, comment), section, key)
            == Value(value, if comment == "" then "" else "#" + comment)
  {
    StoredIsFound(cfg, section, key, value, if comment == "" then "" else "#" + comment);
    hide EnsureSection, SetItem, IndexOf, Lookup;
  }

  lemma SetItemIsFound(items: seq<Item>, key: string, value: string, comment: string)
    ensures var t := SetItem(items, key, value, comment);
            var j := KeyIndex(t, key);
            j < |t| && t[j].value == value && t[j].comment == comment
  {
    var t, j := SetItem(items, key, value, comment), KeyIndex(items, key);
    assert t[j].key == key && forall k :: 0 <= k < j ==> t[k].key == items[k].key;
  }

  predicate CleanNote(comment: string) {
    comment != "" && Trimmed("#" + comment) && '\n' !in comment
  }

  // The printer ends a comment with a line break when it has none.
  lemma {:induction false} BreakIsPrinted(items: seq<Item>, key: string, value: string, stored: string)
    requires stored != "" && stored[|stored| - 1] != '\n'
    ensures ItemsText(SetItem(items, key, value, stored)) == ItemsText(SetItem(items, key, value, stored + "\n"))
  {
    SetItemStep(items, key, value, stored);
    SetItemStep(items, key, value, stored + "\n");
    if items == [] {
      OneItemText(Item(key, value, stored, ""), [], stored);
    } else if items[0].key == key {
      OneItemText(items[0].(value := value, comment := stored), items[1..], stored);
    } else {
      hide SetItem, ItemText;
      BreakIsPrinted(items[1..], key, value, stored);
      ItemsTextOf(items[0], SetItem(items[1..], key, value, stored));
      ItemsTextOf(items[0], SetItem(items[1..], key, value, stored + "\n"));
    }
  }

  lemma ItemsTextOf(item: Item, items: seq<Item>)
    ensures ItemsText([item] + items) == ItemText(item) + ItemsText(items)
  {
    hide ItemText;
    assert ([item] + items)[1..] == items;
  }

  lemma OneItemText(item: Item, items: seq<Item>, stored: string)
    requires item.comment == stored != "" && stored[|stored| - 1] != '\n'
    ensures ItemsText([item] + items) == ItemsText([item.(comment := stored + "\n")] + items)
  {
    assert EndLine(stored) == EndLine(stored + "\n");
    assert ItemText(item) == ItemText(item.(comment := stored + "\n"));
    hide ItemText;
    ItemsTextOf(item, items);
    ItemsTextOf(item.(comment := stored + "\n"), items);
  }

  lemma {:induction false} SameItemsSameText(c: seq<Section>, i: nat, a: seq<Item>, b: seq<Item>)
    requires i < |c| && ItemsText(a) == ItemsText(b)
    ensures ConfigText(c[i := c[i].(items := a)]) == ConfigText(c[i := c[i].(items := b)])
    decreases i
  {
    hide ItemsText, RightPart;
    var s, t := c[i := c[i].(items := a)], c[i := c[i].(items := b)];
    if i == 0 {
      assert s[1..] == c[1..] == t[1..];
      assert SectionText(s[0]) == SectionText(t[0]);
    } else {
      SameItemsSameText(c[1..], i - 1, a, b);
      assert s[1..] == c[1..][i - 1 := c[i].(items := a)] && t[1..] == c[1..][i - 1 := c[i].(items := b)];
      assert s[0] == t[0] == c[0];
    }
    hide SectionText;
  }

  lemma NoteIsCleanComment(comment: string)
    requires CleanNote(comment)
    ensures CleanComment("#" + comment + "\n")
  {
    CleanCommentStep("#" + comment, "");
    assert ("#" + comment) + "\n" + "" == "#" + comment + "\n";
  }

  lemma StoredIsFound(cfg: seq<Section>, section: string, key: string, value: string, stored: string)
    ensures Lookup(Stored(cfg, section, key, value, stored), section, key) == Value(value, stored)
  {
    var c := EnsureSection(cfg, section);
    var i := IndexOf(c, section);
    IndexAfterUpdate(c, i, SetItem(c[i].items, key, value, stored), section);
    SetItemIsFound(c[i].items, key, value, stored);
    hide EnsureSection, SetItem, KeyIndex, IndexOf;
  }

  // setValue with a comment, Save, Load: the value comes back, and the comment with
  // the line break it was printed with.
  lemma CommentSurvives(text: string, section: string, key: string, value: string, comment: string)
    requires LoadText(text).err == 0 && NoSectionRight(LoadText(text).sections)
    requires CleanName(section) && CleanKey(key) && CleanValue(value) && CleanNote(comment)
    ensures var r := LoadText(ConfigText(SetValue(LoadText(text).sections, section, key, value, comment)));
            r.err == 0 && Lookup(r.sections, section, key) == Value(value, "#" + comment + "\n")
  {
    var cfg := LoadText(text).sections;
    var stored := "#" + comment;
    LoadIsClean(text);
    NoteIsCleanComment(comment);
    StoredClean(cfg, section, key, value, stored + "\n");
    ReadBack(Stored(cfg, section, key, value, stored + "\n"));
    assert ConfigText(SetValue(cfg, section, key, value, comment))
           == ConfigText(Stored(cfg, section, key, value, stored + "\n")) by {
      var c := EnsureSection(cfg, section);
      var i := IndexOf(c, section);
      assert stored[|stored| - 1] != '\n';
      BreakIsPrinted(c[i].items, key, value, stored);
      SameItemsSameText(c, i, SetItem(c[i].items, key, value, stored), SetItem(c[i].items, key, value, stored + "\n"));
    }
    StoredIsFound(cfg, section, key, value, stored + "\n");
  }

  // ----- where things stand

  // setValue changes the first item with the key where it stands, its key and right
  // comment kept, or appends one; every other item stays where it is.
  lemma SetItemInPlace(items: seq<Item>, key: string, value: string, comment: string, k: nat)
    requires k < |items|
    ensures var t := SetItem(items, key, value, comment);
            && |t| == |items| + (if exists i :: 0 <= i < |items| && items[i].key == key then 0 else 1)
            && (t[k] == if items[k].key == key && forall i :: 0 <= i < k ==> items[i].key != key
                        then Item(key, value, comment, items[k].rightComment) else items[k])
            && (|t| > |items| ==> t[|items|] == Item(key, value, comment, ""))
  {
    var j := KeyIndex(items, key);
    if j < |items| { assert items[j].key == key; }
    hide FirstIndex;
  }

  // DeleteKey closes the gap the first item with the key leaves.
  lemma DeleteItemInPlace(items: seq<Item>, key: string, k: nat)
    requires k < |items|
    ensures var t, before := DeleteItem(items, key), exists i :: 0 <= i < k && items[i].key == key;
            && (items[k].key != key || before ==>
                  |t| >= k && (if before then k > 0 && t[k - 1] == items[k] else k < |t| && t[k] == items[k]))
            && |t| == |items| - (if exists i :: 0 <= i < |items| && items[i].key == key then 1 else 0)
  {
    var j := KeyIndex(items, key);
    if j < |items| { assert items[j].key == key; }
    hide FirstIndex;
  }

  // An unknown section comes last, the nameless one first; the others keep their places.
  lemma EnsureSectionInPlace(cfg: seq<Section>, section: string)
    ensures var c := EnsureSection(cfg, section);
            if section in NamesOf(cfg) then c == cfg
            else if section == "" then
              |c| == |cfg| + 1 && c[0] == Section("", "", "", []) && forall k :: 0 <= k < |cfg| ==> c[k + 1] == cfg[k]
            else
              && |c| == |cfg| + 1 && c[|cfg|] == Section(section, "", "", [])
              && forall k :: 0 <= k < |cfg| ==> c[k] == cfg[k]
  {
    KnownName(cfg, section);
    hide IndexOf, NamesOf;
  }

  // setValue touches one section and only its items.
  lemma SetValueInPlace(cfg: seq<Section>, section: string, key: string, value: string, comment: string)
    ensures var c, t := EnsureSection(cfg, section), SetValue(cfg, section, key, value, comment);
            && |t| == |c|
            && forall k :: 0 <= k < |c| ==>
                 (c[k].name != section ==> t[k] == c[k])
                 && t[k].name == c[k].name && t[k].comment == c[k].comment && t[k].rightComment == c[k].rightComment
  {
    hide EnsureSection, SetItem;
  }

  // ----- failed lookups

  // A failed lookup says whether the section (9) or only the key (8) is missing, and
  // an integer lookup then yields the default.
  lemma FailedLookup(cfg: seq<Section>, section: string, key: string, defaultValue: int)
    ensures Lookup(cfg, section, key).Missing? <==> Values(cfg, section, key) == []
    ensures Values(cfg, section, key) == [] ==>
              && Lookup(cfg, section, key) == Missing(if section in NamesOf(cfg) then 8 else 9)
              && GetInt(cfg, section, key, defaultValue) == defaultValue
  {
    KnownName(cfg, section);
    LookupIsFirstValue(cfg, section, key);
    hide IndexOf, KeyIndex, ValuesOf, CommentsOf, NamesOf;
  }

  // ----- integers in other texts

  lemma {:induction false} DigitsThenRest(s: string, rest: string, acc: nat)
    requires (forall k :: 0 <= k < |s| ==> IsDigit(s[k])) && (rest != "" ==> !IsDigit(rest[0]))
    ensures ReadDigits(s + rest, acc) == ReadDigits(s, acc)
    decreases |s|
  {
    if s == "" {
      assert s + rest == rest;
    } else {
      assert (s + rest)[1..] == s[1..] + rest;
      DigitsThenRest(s[1..], rest, acc * 10 + (s[0] as int - 48));
    }
  }

  lemma {:induction false} SkipSpace(space: string, s: string)
    requires AllSpace(space) && (s != "" ==> !IsSpace(s[0]))
    ensures TrimLeft(space + s) == s
    decreases |space|
  {
    if space == "" {
      assert space + s == s;
    } else {
      assert (space + s)[1..] == space[1..] + s;
      SkipSpace(space[1..], s);
    }
  }

  // White space in front, an optional sign of either kind, and whatever follows the
  // digits (section 7.22.1.2 of ISO C11).
  lemma AtoiReads(space: string, sign: string, n: nat, rest: string)
    requires AllSpace(space) && (sign == "" || sign == "+" || sign == "-") && (rest != "" ==> !IsDigit(rest[0]))
    ensures Atoi(space + (sign + (PrintNat(n) + rest))) == if sign == "-" then 0 - n else n as int
  {
    var body := PrintNat(n) + rest;
    var s := sign + body;
    ReadPrintNat(n);
    DigitsThenRest(PrintNat(n), rest, 0);
    SkipSpace(space, s);
    if sign == "" { assert s == body; } else { assert s[1..] == body; }
    hide PrintNat, ReadDigits, TrimLeft;
  }

  // Without digits it is 0.
  lemma AtoiOfNoNumber(space: string, rest: string)
    requires AllSpace(space)
    requires rest != "" ==> !IsDigit(rest[0]) && !IsSpace(rest[0]) && rest[0] != '+' && rest[0] != '-'
    ensures Atoi(space + rest) == 0
  {
    SkipSpace(space, rest);
    hide TrimLeft;
  }

  // ----- a printed configuration

  const SAMPLE: seq<Section> :=
    [Section("", "", "", [Item("a", "1", "#top", "")]), Section("b", "#c", "r", [Item("k", "v", "", "w")])]

  // Comments on their own lines, no blanks around the equals sign, one before a right comment.
  lemma SampleText()
    ensures ConfigText(SAMPLE) == ("#top" + "\n" + "a=1" + "\n") + (("#c" + "[b]" + "\n" + " #r") + ("k=v #w" + "\n"))
  {
    SampleParts();
    var x, y := SAMPLE[0], SAMPLE[1];
    hide SectionText;
    assert SAMPLE[1..] == [y] && [y][1..] == [];
    assert ConfigText([y]) == SectionText(y) + "" == SectionText(y);
  }

  lemma SampleParts()
    ensures SectionText(SAMPLE[0]) == "#top" + "\n" + "a=1" + "\n"
    ensures SectionText(SAMPLE[1]) == ("#c" + "[b]" + "\n" + " #r") + ("k=v #w" + "\n")
  {
    var a, k := SAMPLE[0].items[0], SAMPLE[1].items[0];
    OneItem(SAMPLE[0]);
    OneItem(SAMPLE[1]);
    assert ItemText(a) == "#top" + "\n" + "a=1" + "\n" by { SampleItemA(); }
    assert ItemText(k) == "k=v #w" + "\n" by { SampleItemK(); }
    assert HeadText(SAMPLE[0]) == "" && RightPart("") == "";
    assert HeadText(SAMPLE[1]) == "#c" + "[b]" + "\n" && RightPart("r") == " #r";
    hide ItemText;
  }

  lemma OneItem(s: Section)
    requires |s.items| == 1
    ensures SectionText(s) == HeadText(s) + RightPart(s.rightComment) + ItemText(s.items[0])
  {
    var item := s.items[0];
    assert s.items == [item] + [];
    hide ItemText, HeadText, RightPart;
    ItemsTextOf(item, []);
    assert ItemText(item) + "" == ItemText(item);
  }

  lemma SampleItemA()
    ensures ItemText(Item("a", "1", "#top", "")) == "#top" + "\n" + "a=1" + "\n"
  {
    assert "a" + "=" + "1" + "" == "a=1";
    assert EndLine("a=1") == "a=1" + "\n";
    assert EndLine("#top") == "#top" + "\n";
  }

  lemma SampleItemK()
    ensures ItemText(Item("k", "v", "", "w")) == "k=v #w" + "\n"
  {
    assert "k" + "=" + "v" + " #w" == "k=v #w";
    assert EndLine("k=v #w") == "k=v #w" + "\n";
  }
}
