// The configuration object: sections are objects that are pushed, changed and
// erased in place. Every method is tied to the value it stands for.
module IniFile {
  import opened Sequences
  import opened IniText
  import M = IniModel
  import S = IniStore

  class IniSection {
    var name: string
    var comment: string
    var rightComment: string
    var items: seq<M.Item>

    ghost function Value(): M.Section
      reads this
    {
      M.Section(name, comment, rightComment, items)
    }

    constructor (name: string, comment: string, rightComment: string)
      ensures Value() == M.Section(name, comment, rightComment, [])
    {
      this.name, this.comment, this.rightComment := name, comment, rightComment;
      items := [];
    }
  }

  // The content of a file, or the failure to open it.
  datatype File = Content(text: string) | CannotOpen

  class IniFile {
    var sections: seq<IniSection>

    ghost predicate Valid()
      reads this
    {
      forall i, j :: 0 <= i < j < |sections| ==> sections[i] != sections[j]
    }

    ghost function Config(): (cfg: seq<M.Section>)
      reads this, sections
      ensures |cfg| == |sections|
    {
      seq(|sections|, i requires 0 <= i < |sections| reads this, sections => sections[i].Value())
    }

    // The section entries are added to is the last one.
    function Current(): IniSection
      requires sections != []
      reads this
    {
      sections[|sections| - 1]
    }

    constructor ()
      ensures Valid() && Config() == []
    {
      sections := [];
    }

    // ----- lookups

    method GetSection(name: string) returns (s: IniSection?, i: nat)
      requires Valid()
      ensures i == M.IndexOf(Config(), name)
      ensures if i < |sections| then s == sections[i] else s == null
    {
      i := 0;
      while i < |sections|
        invariant i <= |sections|
        invariant forall k :: 0 <= k < i ==> sections[k].name != name
      {
        if sections[i].name == name {
          s := sections[i];
          assert Config()[i].name == name;
          S.IndexIs(Config(), name, i);
          return;
        }
        i := i + 1;
      }
      S.IndexIs(Config(), name, i);
      s := null;
    }

    method FindKey(items: seq<M.Item>, key: string) returns (j: nat)
      ensures j == M.KeyIndex(items, key)
    {
      j := 0;
      while j < |items| && items[j].key != key
        invariant j <= |items|
        invariant M.KeyIndex(items, key) == j + M.KeyIndex(items[j..], key)
      {
        assert items[j..][1..] == items[j + 1..];
        j := j + 1;
      }
    }

    method GetValue(section: string, key: string) returns (found: M.Found)
      requires Valid()
      ensures found == M.Lookup(Config(), section, key)
    {
      var sect, i := GetSection(section);
      if sect == null {
        return M.Missing(M.ERR_NOT_FOUND_SECTION);
      }
      assert Config()[i].items == sect.items;
      var j := FindKey(sect.items, key);
      if j < |sect.items| {
        found := M.Value(sect.items[j].value, sect.items[j].comment);
      } else {
        found := M.Missing(M.ERR_NOT_FOUND_KEY);
      }
    }

    method GetIntValue(section: string, key: string, defaultValue: int) returns (v: int)
      requires Valid()
      ensures v == S.GetInt(Config(), section, key, defaultValue)
    {
      var found := GetValue(section, key);
      match found {
        case Value(text, _) => v := S.Atoi(text);
        case Missing(_) => v := defaultValue;
      }
    }

    method GetValues(section: string, key: string) returns (values: seq<string>, comments: seq<string>, err: int)
      requires Valid()
      ensures values == M.Values(Config(), section, key) && comments == M.Comments(Config(), section, key)
      ensures err == if M.IndexOf(Config(), section) == |Config()| then M.ERR_NOT_FOUND_SECTION
                     else if values == [] then M.ERR_NOT_FOUND_KEY else M.RET_OK
    {
      values, comments := [], [];
      var sect, i := GetSection(section);
      if sect == null {
        return [], [], M.ERR_NOT_FOUND_SECTION;
      }
      assert Config()[i].items == sect.items;
      values, comments := Collect(sect.items, key);
      err := if |values| == 0 then M.ERR_NOT_FOUND_KEY else M.RET_OK;
    }

    method Collect(items: seq<M.Item>, key: string) returns (values: seq<string>, comments: seq<string>)
      ensures values == M.ValuesOf(items, key) && comments == M.CommentsOf(items, key)
    {
      values, comments := [], [];
      var j := 0;
      while j < |items|
        invariant j <= |items|
        invariant values + M.ValuesOf(items[j..], key) == M.ValuesOf(items, key)
        invariant comments + M.CommentsOf(items[j..], key) == M.CommentsOf(items, key)
      {
        assert items[j..][0] == items[j] && items[j..][1..] == items[j + 1..];
        if items[j].key == key {
          values := values + [items[j].value];
          comments := comments + [items[j].comment];
        }
        j := j + 1;
      }
      assert items[j..] == [];
    }

    // ----- updates

    // The first half of setValue: find the section or insert an empty one.
    method NeedSection(section: string) returns (s: IniSection, i: nat)
      requires Valid()
      modifies this
      ensures Valid() && Config() == M.EnsureSection(old(Config()), section)
      ensures i == M.IndexOf(Config(), section) < |sections| && s == sections[i]
      ensures s in old(sections) || fresh(s)
      ensures forall x :: x in sections ==> x in old(sections) || fresh(x)
    {
      var sect, k := GetSection(section);
      if sect == null {
        s := new IniSection(section, "", "");
        i := Insert(s);
      } else {
        s, i := sect, k;
      }
    }

    method Insert(s: IniSection) returns (i: nat)
      requires Valid() && s !in sections
      requires s.Value() == M.Section(s.name, "", "", []) && M.IndexOf(Config(), s.name) == |Config()|
      modifies this
      ensures Valid() && Config() == M.EnsureSection(old(Config()), s.name)
      ensures i == M.IndexOf(Config(), s.name) < |sections| && s == sections[i]
      ensures forall x :: x in sections ==> x in old(sections) || x == s
    {
      if s.name == "" {
        sections := [s] + sections;
        i := 0;
        assert Config() == [M.ROOT] + old(Config());
      } else {
        i := |sections|;
        sections := sections + [s];
        assert Config() == old(Config()) + [s.Value()];
      }
      S.IndexIs(Config(), s.name, i);
    }

    method SetValue(section: string, key: string, value: string, comment: string)
      requires Valid()
      modifies this, sections
      ensures Valid() && Config() == M.SetValue(old(Config()), section, key, value, comment)
      ensures forall x :: x in sections ==> x in old(sections) || fresh(x)
    {
      var comt := if comment != "" then "#" + comment else comment;
      var sect, i := NeedSection(section);
      ghost var c := Config();
      assert c[i].items == sect.items;
      assert sect in old(sections) || fresh(sect);
      hide M.IndexOf, M.EnsureSection;
      var j := FindKey(sect.items, key);
      if j < |sect.items| {
        sect.items := sect.items[j := sect.items[j].(value := value, comment := comt)];
      } else {
        sect.items := sect.items + [M.Item(key, value, comt, "")];
      }
      assert Config() == c[i := c[i].(items := M.SetItem(c[i].items, key, value, comt))];
    }

    // The value goes through the %d conversion.
    method SetIntValue(section: string, key: string, value: int)
      requires Valid() && S.Int32(value)
      modifies this, sections
      ensures Valid() && Config() == M.SetValue(old(Config()), section, key, S.PrintInt(value), "")
    {
      SetValue(section, key, S.PrintInt(value), "");
    }

    method DeleteKey(section: string, key: string)
      requires Valid()
      modifies sections
      ensures Valid() && Config() == M.DeleteKey(old(Config()), section, key)
    {
      var sect, i := GetSection(section);
      if sect != null {
        ghost var c := Config();
        assert c[i].items == sect.items;
        var j := FindKey(sect.items, key);
        if j < |sect.items| {
          sect.items := sect.items[..j] + sect.items[j + 1..];
        }
        assert Config() == c[i := c[i].(items := M.DeleteItem(c[i].items, key))];
      }
    }

    method DeleteSection(section: string)
      requires Valid()
      modifies this
      ensures Valid() && Config() == M.DeleteSection(old(Config()), section)
    {
      var sect, i := GetSection(section);
      if sect != null {
        ghost var c := Config();
        hide M.IndexOf;
        sections := sections[..i] + sections[i + 1..];
        assert Config() == c[..i] + c[i + 1..];
      }
    }

    // ----- reading and printing

    method UpdateSection(clean: string, comment: string, right: string) returns (err: int)
      requires Valid() && clean != ""
      modifies this
      ensures Valid()
      ensures M.Reader(Config(), if err == 0 then "" else comment, err)
              == M.AddSection(M.Reader(old(Config()), comment, 0), clean, right)
      ensures sections == old(sections) || (sections != [] && fresh(Current()))
    {
      hide Find, Trim, M.IndexOf;
      var index := FindChar(clean, ']');
      if index == |clean| {
        return M.ERR_UNMATCHED_BRACKETS;
      }
      var len: int := index;
      len := len - 1;
      if len <= 0 {
        return M.ERR_SECTION_EMPTY;
      }
      var name := TrimText(clean[1..index]);
      var sect, i := GetSection(name);
      if sect != null {
        return M.ERR_SECTION_ALREADY_EXISTS;
      }
      Push(name, comment, right);
      err := 0;
    }

    method Push(name: string, comment: string, right: string)
      requires Valid()
      modifies this
      ensures Valid() && Config() == old(Config()) + [M.Section(name, comment, right, [])]
      ensures sections != [] && fresh(Current())
    {
      var newSection := new IniSection(name, comment, right);
      sections := sections + [newSection];
      assert Config() == old(Config()) + [newSection.Value()];
    }

    method AddKeyValuePair(clean: string, comment: string, right: string) returns (err: int)
      requires Valid() && sections != []
      modifies Current()
      ensures Valid()
      ensures M.Reader(Config(), if err == 0 then "" else comment, err)
              == M.AddItem(M.Reader(old(Config()), comment, 0), clean, right)
    {
      var found, key, value := SplitText(clean, '=');
      if !found {
        assert Config() == old(Config());
        return M.ERR_PARSE_KEY_VALUE_FAILED;
      }
      var section := Current();
      ghost var c := Config();
      assert c[|c| - 1] == section.Value();
      section.items := section.items + [M.Item(key, value, comment, right)];
      err := 0;
      assert Config() == c[|c| - 1 := section.Value()];
    }

    // One trimmed line of the file.
    method TakeLine(line: string, comment: string) returns (newComment: string, err: int)
      requires Valid() && sections != []
      modifies this, Current()
      ensures Valid() && sections != []
      ensures M.Reader(Config(), newComment, err) == M.ReadLine(M.Reader(old(Config()), comment, 0), line)
      ensures Current() == old(Current()) || fresh(Current())
    {
      newComment, err := comment, 0;
      if |line| <= 0 {
        newComment := comment + "\n";
      } else if line[0] == '#' {
        newComment := comment + (line + "\n");
      } else {
        var found, clean, right := SplitText(line, '#');
        if clean != "" && clean[0] == '[' {
          err := UpdateSection(clean, comment, right);
        } else {
          err := AddKeyValuePair(clean, comment, right);
        }
        newComment := if err == 0 then "" else comment;
      }
    }

    method Load(file: File) returns (err: int)
      requires Valid()
      modifies this
      ensures Valid()
      ensures file.CannotOpen? ==> err == M.ERR_OPEN_FILE_FAILED && Config() == []
      ensures file.Content? ==> err == M.LoadText(file.text).err && Config() == M.LoadText(file.text).sections
    {
      sections := [];
      if file.CannotOpen? {
        return M.ERR_OPEN_FILE_FAILED;
      }
      var root := new IniSection("", "", "");
      sections := [root];
      assert Config() == [M.ROOT];
      err := ReadLines(file.text);
    }

    // The line loop, from the root section on.
    method ReadLines(text: string) returns (err: int)
      requires Valid() && sections != []
      modifies this, Current()
      ensures Valid()
      ensures var r := M.ReadText(M.Reader(old(Config()), "", 0), text); err == r.err && Config() == r.sections
    {
      var comment, rest := "", text;
      err := 0;
      while rest != "" && err == 0
        invariant Valid() && sections != []
        invariant Current() == old(Current()) || fresh(Current())
        invariant M.ReadText(M.Reader(Config(), comment, err), rest) == M.ReadText(M.Reader(old(Config()), "", 0), text)
        decreases |rest|
      {
        ReadTextStep(M.Reader(Config(), comment, 0), rest);
        hide M.ReadText;
        comment, err, rest := NextLine(comment, rest);
      }
    }

    method NextLine(comment: string, text: string) returns (newComment: string, err: int, rest: string)
      requires Valid() && sections != [] && text != ""
      modifies this, Current()
      ensures Valid() && sections != []
      ensures Current() == old(Current()) || fresh(Current())
      ensures rest == M.AfterLine(text) && |rest| < |text|
      ensures M.Reader(Config(), newComment, err)
              == M.ReadLine(M.Reader(old(Config()), comment, 0), Trim(M.FirstLine(text)))
    {
      hide M.ReadLine, Trim;
      var n := FindChar(text, '\n');
      var line := TrimText(text[..n]);
      newComment, err := TakeLine(line, comment);
      rest := if n < |text| then text[n + 1..] else "";
    }

    static lemma ReadTextStep(r: M.Reader, text: string)
      requires r.sections != [] && r.err == 0 && text != ""
      ensures M.ReadText(r, text) == M.ReadText(M.ReadLine(r, Trim(M.FirstLine(text))), M.AfterLine(text))
    {
    }

    // Appends s, and a line break when the text does not end with one.
    method AppendLine(before: string, s: string) returns (data: string)
      requires s != ""
      ensures data == before + M.EndLine(s)
    {
      data := before + s;
      if data[|data| - 1] != '\n' {
        data := data + "\n";
      }
    }

    method ItemLine(item: M.Item, before: string) returns (data: string)
      ensures data == before + M.ItemText(item)
    {
      data := before;
      if item.comment != "" {
        data := AppendLine(data, item.comment);
      }
      var pair := item.key + "=" + item.value;
      if item.rightComment != "" {
        pair := pair + (" #" + item.rightComment);
      }
      data := AppendLine(data, pair);
    }

    method ItemLines(items: seq<M.Item>, before: string) returns (data: string)
      ensures data == before + M.ItemsText(items)
    {
      data := before;
      var j := 0;
      assert items[0..] == items;
      while j < |items|
        invariant j <= |items|
        invariant data + M.ItemsText(items[j..]) == before + M.ItemsText(items)
      {
        assert items[j..][0] == items[j] && items[j..][1..] == items[j + 1..];
        Assoc(data, M.ItemText(items[j]), M.ItemsText(items[j + 1..]));
        data := ItemLine(items[j], data);
        j := j + 1;
      }
      assert items[j..] == [];
    }

    method SectionLines(sect: IniSection, before: string) returns (data: string)
      ensures data == before + M.SectionText(sect.Value())
    {
      var head := sect.comment;
      if sect.name != "" {
        head := head + ("[" + sect.name + "]" + "\n");
      }
      if sect.rightComment != "" {
        head := head + (" #" + sect.rightComment);
      }
      assert head == M.HeadText(sect.Value()) + M.RightPart(sect.rightComment);
      data := ItemLines(sect.items, before + head);
      Assoc(before, head, M.ItemsText(sect.items));
    }

    // The text written to the file.
    method SaveAs() returns (data: string)
      requires Valid()
      ensures data == M.ConfigText(Config())
    {
      data := "";
      var i := 0;
      ghost var c := Config();
      assert c[0..] == c;
      while i < |sections|
        invariant i <= |sections|
        invariant data + M.ConfigText(c[i..]) == M.ConfigText(c)
      {
        assert c[i..][0] == c[i] && c[i..][1..] == c[i + 1..];
        Assoc(data, M.SectionText(c[i]), M.ConfigText(c[i + 1..]));
        data := SectionLines(sections[i], data);
        i := i + 1;
      }
      assert c[i..] == [];
    }
  }
}
