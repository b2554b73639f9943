// The configuration file as a value: its text form, the reader and the printer,
// and the lookups and updates.
module IniModel {
  import opened Sequences
  import opened IniText

  datatype Item = Item(key: string, value: string, comment: string, rightComment: string)

  datatype Section = Section(name: string, comment: string, rightComment: string, items: seq<Item>)

  const RET_OK := 0
  const ERR_UNMATCHED_BRACKETS := 2
  const ERR_SECTION_EMPTY := 3
  const ERR_SECTION_ALREADY_EXISTS := 4
  const ERR_PARSE_KEY_VALUE_FAILED := 5
  const ERR_OPEN_FILE_FAILED := 6
  const ERR_NOT_FOUND_KEY := 8
  const ERR_NOT_FOUND_SECTION := 9

  const ROOT := Section("", "", "", [])

  // ----- lookups

  // The index of the section with this name, or the number of sections.
  function IndexOf(cfg: seq<Section>, name: string): (i: nat)
    ensures i <= |cfg|
    ensures i < |cfg| ==> cfg[i].name == name
    ensures forall k :: 0 <= k < i ==> cfg[k].name != name
  {
    FirstIndex(cfg, (s: Section) => s.name == name)
  }

  function KeyIndex(items: seq<Item>, key: string): (i: nat)
    ensures i <= |items|
    ensures i < |items| ==> items[i].key == key
    ensures forall k :: 0 <= k < i ==> items[k].key != key
  {
    FirstIndex(items, (i: Item) => i.key == key)
  }

  predicate DistinctNames(cfg: seq<Section>) {
    forall i, j :: 0 <= i < j < |cfg| ==> cfg[i].name != cfg[j].name
  }

  // ----- reading

  // Reader state: sections so far, the last one current; the comment collected
  // for the next entry; the error that stopped the reader, or 0.
  datatype Reader = Reader(sections: seq<Section>, comment: string, err: int)

  function AddSection(r: Reader, clean: string, right: string): (t: Reader)
    requires clean != []
    ensures r.sections <= t.sections && (t.err == 0 ==> |t.sections| == |r.sections| + 1)
  {
    var index := Find(clean, ']');
    if index == |clean| then r.(err := ERR_UNMATCHED_BRACKETS)
    else if index - 1 <= 0 then r.(err := ERR_SECTION_EMPTY)
    else
      var name := Trim(clean[1..index]);
      if IndexOf(r.sections, name) < |r.sections| then r.(err := ERR_SECTION_ALREADY_EXISTS)
      else Reader(r.sections + [Section(name, r.comment, right, [])], "", 0)
  }

  function AddItem(r: Reader, clean: string, right: string): (t: Reader)
    requires r.sections != []
    ensures |t.sections| == |r.sections|
  {
    if Find(clean, '=') == |clean| then r.(err := ERR_PARSE_KEY_VALUE_FAILED)
    else
      var last := |r.sections| - 1;
      var item := Item(Left(clean, '='), Right(clean, '='), r.comment, right);
      var section := r.sections[last];
      Reader(r.sections[last := section.(items := section.items + [item])], "", 0)
  }

  // One trimmed line.
  function ReadLine(r: Reader, line: string): (t: Reader)
    requires r.sections != []
    ensures t.sections != []
  {
    if line == "" then r.(comment := r.comment + "\n")
    else if line[0] == '#' then r.(comment := r.comment + (line + "\n"))
    else
      var clean, right := Left(line, '#'), Right(line, '#');
      if clean != "" && clean[0] == '[' then AddSection(r, clean, right) else AddItem(r, clean, right)
  }

  function FirstLine(text: string): string {
    text[..Find(text, '\n')]
  }

  function AfterLine(text: string): (rest: string)
    ensures text != [] ==> |rest| < |text|
  {
    var n := Find(text, '\n');
    if n < |text| then text[n + 1..] else ""
  }

  function ReadText(r: Reader, text: string): (t: Reader)
    requires r.sections != []
    ensures t.sections != []
    decreases |text|
  {
    if r.err != 0 || text == "" then r
    else ReadText(ReadLine(r, Trim(FirstLine(text))), AfterLine(text))
  }

  function LoadText(text: string): (t: Reader)
    ensures t.sections != []
  {
    ReadText(Reader([ROOT], "", 0), text)
  }

  // ----- printing

  function EndLine(s: string): string
    requires s != []
  {
    if s[|s| - 1] == '\n' then s else s + "\n"
  }

  function RightPart(rightComment: string): string {
    if rightComment == "" then "" else " #" + rightComment
  }

  function ItemText(item: Item): string {
    (if item.comment == "" then "" else EndLine(item.comment))
    + EndLine(item.key + "=" + item.value + RightPart(item.rightComment))
  }

  function ItemsText(items: seq<Item>): string {
    if items == [] then "" else ItemText(items[0]) + ItemsText(items[1..])
  }

  function HeadText(s: Section): string {
    s.comment + (if s.name == "" then "" else "[" + s.name + "]" + "\n")
  }

  // A section's right comment goes after the line break and ends without one.
  function SectionText(s: Section): string {
    HeadText(s) + RightPart(s.rightComment) + ItemsText(s.items)
  }

  function ConfigText(cfg: seq<Section>): string {
    if cfg == [] then "" else SectionText(cfg[0]) + ConfigText(cfg[1..])
  }

  // ----- updates

  // The value and the comment of the first item with this key, or the error.
  datatype Found = Value(value: string, comment: string) | Missing(err: int)

  function Lookup(cfg: seq<Section>, section: string, key: string): Found {
    var i := IndexOf(cfg, section);
    if i == |cfg| then Missing(ERR_NOT_FOUND_SECTION)
    else
      var j := KeyIndex(cfg[i].items, key);
      if j == |cfg[i].items| then Missing(ERR_NOT_FOUND_KEY)
      else Value(cfg[i].items[j].value, cfg[i].items[j].comment)
  }

  function ValuesOf(items: seq<Item>, key: string): seq<string> {
    if items == [] then []
    else (if items[0].key == key then [items[0].value] else []) + ValuesOf(items[1..], key)
  }

  function CommentsOf(items: seq<Item>, key: string): seq<string> {
    if items == [] then []
    else (if items[0].key == key then [items[0].comment] else []) + CommentsOf(items[1..], key)
  }

  // All comments of the key's items, and all values, in order.
  function Comments(cfg: seq<Section>, section: string, key: string): seq<string> {
    var i := IndexOf(cfg, section);
    if i == |cfg| then [] else CommentsOf(cfg[i].items, key)
  }

  function Values(cfg: seq<Section>, section: string, key: string): seq<string> {
    var i := IndexOf(cfg, section);
    if i == |cfg| then [] else ValuesOf(cfg[i].items, key)
  }

  // An unknown section is appended, the nameless one goes in front.
  function EnsureSection(cfg: seq<Section>, section: string): (c: seq<Section>)
    ensures IndexOf(c, section) < |c|
  {
    if IndexOf(cfg, section) < |cfg| then cfg
    else if section == "" then
      [ROOT] + cfg
    else
      var c := cfg + [Section(section, "", "", [])];
      assert c[|cfg|].name == section;
      c
  }

  function SetItem(items: seq<Item>, key: string, value: string, comment: string): seq<Item> {
    var j := KeyIndex(items, key);
    if j < |items| then items[j := items[j].(value := value, comment := comment)]
    else items + [Item(key, value, comment, "")]
  }

  function SetValue(cfg: seq<Section>, section: string, key: string, value: string, comment: string): seq<Section> {
    var c := EnsureSection(cfg, section);
    var i := IndexOf(c, section);
    c[i := c[i].(items := SetItem(c[i].items, key, value, if comment == "" then "" else "#" + comment))]
  }

  function DeleteItem(items: seq<Item>, key: string): seq<Item> {
    var j := KeyIndex(items, key);
    if j < |items| then items[..j] + items[j + 1..] else items
  }

  function DeleteKey(cfg: seq<Section>, section: string, key: string): seq<Section> {
    var i := IndexOf(cfg, section);
    if i == |cfg| then cfg else cfg[i := cfg[i].(items := DeleteItem(cfg[i].items, key))]
  }

  function DeleteSection(cfg: seq<Section>, section: string): seq<Section> {
    var i := IndexOf(cfg, section);
    if i == |cfg| then cfg else cfg[..i] + cfg[i + 1..]
  }
}
