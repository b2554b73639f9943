// Laws of the lookups and updates, and the way of an integer setting through
// the file and back.
module IniStore {
  import opened IniText
  import opened IniModel
  import opened IniRoundTrip

  function Tail(s: seq<string>): seq<string> {
    if s == [] then [] else s[1..]
  }

  // ----- one section

  // The value of one item under key k, if it has any.
  function Own(item: Item, k: string): seq<string> {
    if item.key == k then [item.value] else []
  }

  lemma ValuesStep(items: seq<Item>, k: string)
    requires items != []
    ensures ValuesOf(items, k) == Own(items[0], k) + ValuesOf(items[1..], k)
  {
  }

  lemma ValuesBehind(item: Item, items: seq<Item>, k: string)
    ensures ValuesOf([item] + items, k) == Own(item, k) + ValuesOf(items, k)
  {
    assert ([item] + items)[1..] == items;
  }

  lemma TailBehind(value: string, values: seq<string>)
    ensures Tail([value] + values) == values && [] + values == values
  {
  }

  // Setting a key replaces its first value, or gives it one; every other key
  // keeps all its values.
  lemma {:induction false} SetItemValues(items: seq<Item>, key: string, value: string, comment: string, k: string)
    ensures ValuesOf(SetItem(items, key, value, comment), k)
            == if k == key then [value] + Tail(ValuesOf(items, k)) else ValuesOf(items, k)
  {
    SetItemStep(items, key, value, comment);
    if items == [] {
      SetNoItem(key, value, comment, k);
    } else if items[0].key == key {
      SetFirstItem(items, value, comment, k);
    } else {
      hide *;
      var rest := SetItem(items[1..], key, value, comment);
      assert ValuesOf(rest, k)
             == if k == key then [value] + Tail(ValuesOf(items[1..], k)) else ValuesOf(items[1..], k) by {
        SetItemValues(items[1..], key, value, comment, k);
      }
      SetLaterItem(items, rest, key, value, k);
    }
  }

  lemma SetNoItem(key: string, value: string, comment: string, k: string)
    ensures ValuesOf([Item(key, value, comment, "")] + [], k)
            == if k == key then [value] + Tail(ValuesOf([], k)) else []
  {
    ValuesBehind(Item(key, value, comment, ""), [], k);
  }

  lemma SetFirstItem(items: seq<Item>, value: string, comment: string, k: string)
    requires items != []
    ensures ValuesOf([items[0].(value := value, comment := comment)] + items[1..], k)
            == if k == items[0].key then [value] + Tail(ValuesOf(items, k)) else ValuesOf(items, k)
  {
    ValuesStep(items, k);
    ValuesBehind(items[0].(value := value, comment := comment), items[1..], k);
    hide ValuesOf, Tail;
    TailBehind(items[0].value, ValuesOf(items[1..], k));
  }

  lemma SetLaterItem(items: seq<Item>, rest: seq<Item>, key: string, value: string, k: string)
    requires items != [] && items[0].key != key
    requires ValuesOf(rest, k) == if k == key then [value] + Tail(ValuesOf(items[1..], k)) else ValuesOf(items[1..], k)
    ensures ValuesOf([items[0]] + rest, k)
            == if k == key then [value] + Tail(ValuesOf(items, k)) else ValuesOf(items, k)
  {
    ValuesStep(items, k);
    ValuesBehind(items[0], rest, k);
    hide ValuesOf, Tail;
    TailBehind("", ValuesOf(rest, k));
    TailBehind("", ValuesOf(items[1..], k));
  }

  lemma SetItemStep(items: seq<Item>, key: string, value: string, comment: string)
    ensures SetItem(items, key, value, comment)
            == if items == [] then [Item(key, value, comment, "")] + []
               else if items[0].key == key then [items[0].(value := value, comment := comment)] + items[1..]
               else [items[0]] + SetItem(items[1..], key, value, comment)
  {
  }

  // Deleting a key removes its first value only.
  lemma {:induction false} DeleteItemValues(items: seq<Item>, key: string, k: string)
    ensures ValuesOf(DeleteItem(items, key), k)
            == if k == key then Tail(ValuesOf(items, k)) else ValuesOf(items, k)
  {
    DeleteItemStep(items, key);
    if items != [] {
      hide DeleteItem, KeyIndex;
      if items[0].key == key {
        DeleteFirstItem(items, k);
      } else {
        hide ValuesOf, Tail;
        DeleteItemValues(items[1..], key, k);
        DeleteLaterItem(items, DeleteItem(items[1..], key), key, k);
      }
    }
  }

  lemma DeleteFirstItem(items: seq<Item>, k: string)
    requires items != []
    ensures ValuesOf(items[1..], k) == if k == items[0].key then Tail(ValuesOf(items, k)) else ValuesOf(items, k)
  {
    ValuesStep(items, k);
    hide ValuesOf, Tail;
    TailBehind(items[0].value, ValuesOf(items[1..], k));
  }

  lemma DeleteLaterItem(items: seq<Item>, rest: seq<Item>, key: string, k: string)
    requires items != [] && items[0].key != key
    requires ValuesOf(rest, k) == if k == key then Tail(ValuesOf(items[1..], k)) else ValuesOf(items[1..], k)
    ensures ValuesOf([items[0]] + rest, k) == if k == key then Tail(ValuesOf(items, k)) else ValuesOf(items, k)
  {
    ValuesStep(items, k);
    ValuesBehind(items[0], rest, k);
    hide ValuesOf, Tail;
    TailBehind("", ValuesOf(rest, k));
    TailBehind("", ValuesOf(items[1..], k));
  }

  lemma DeleteItemStep(items: seq<Item>, key: string)
    ensures DeleteItem(items, key)
            == if items == [] then []
               else if items[0].key == key then items[1..]
               else [items[0]] + DeleteItem(items[1..], key)
  {
    var j := KeyIndex(items, key);
    if 0 < j < |items| { CutBehind(items, j); }
    hide KeyIndex;
  }

  lemma CutBehind(items: seq<Item>, j: nat)
    requires 0 < j < |items|
    ensures items[..j] + items[j + 1..] == [items[0]] + (items[1..][..j - 1] + items[1..][j..])
  {
  }

  lemma {:induction false} ValuesOfFirst(items: seq<Item>, key: string)
    ensures var j := KeyIndex(items, key);
            if j == |items| then ValuesOf(items, key) == [] == CommentsOf(items, key)
            else
              && ValuesOf(items, key) != [] && ValuesOf(items, key)[0] == items[j].value
              && CommentsOf(items, key) != [] && CommentsOf(items, key)[0] == items[j].comment
  {
    if items != [] && items[0].key != key { ValuesOfFirst(items[1..], key); }
  }

  // A lookup yields the first of the values with its comment, and fails when
  // there is none.
  lemma LookupIsFirstValue(cfg: seq<Section>, section: string, key: string)
    ensures var vs := Values(cfg, section, key);
            var comments := Comments(cfg, section, key);
            match Lookup(cfg, section, key)
            case Value(v, c) => vs != [] && vs[0] == v && comments != [] && comments[0] == c
            case Missing(_) => vs == [] == comments
  {
    var i := IndexOf(cfg, section);
    if i < |cfg| { ValuesOfFirst(cfg[i].items, key); }
  }

  // ----- the whole configuration

  lemma {:induction false} IndexIs(cfg: seq<Section>, name: string, i: nat)
    requires i <= |cfg| && (i < |cfg| ==> cfg[i].name == name)
    requires forall k :: 0 <= k < i ==> cfg[k].name != name
    ensures IndexOf(cfg, name) == i
  {
    var j := IndexOf(cfg, name);
    assert !(j < i);
    assert !(i < j);
  }

  // Replacing the items of one section leaves every section where it is.
  lemma IndexAfterUpdate(cfg: seq<Section>, i: nat, items: seq<Item>, name: string)
    requires i < |cfg|
    ensures IndexOf(cfg[i := cfg[i].(items := items)], name) == IndexOf(cfg, name)
  {
    IndexIs(cfg[i := cfg[i].(items := items)], name, IndexOf(cfg, name));
  }

  lemma EnsureKeepsValues(cfg: seq<Section>, section: string, s: string, k: string)
    ensures Values(EnsureSection(cfg, section), s, k) == Values(cfg, s, k)
  {
    var c := EnsureSection(cfg, section);
    var i := IndexOf(cfg, s);
    if IndexOf(cfg, section) == |cfg| {
      if section == "" {
        if s == "" { IndexIs(c, s, 0); } else { IndexIs(c, s, i + 1); }
      } else {
        if i < |cfg| || s == section { IndexIs(c, s, i); } else { IndexIs(c, s, |c|); }
      }
    }
  }

  lemma SetValueLaw(
      cfg: seq<Section>, section: string, key: string, value: string, comment: string, s: string, k: string)
    ensures Values(SetValue(cfg, section, key, value, comment), s, k)
            == if (s, k) == (section, key) then [value] + Tail(Values(cfg, s, k)) else Values(cfg, s, k)
  {
    var c := EnsureSection(cfg, section);
    var i := IndexOf(c, section);
    var comt := if comment == "" then "" else "#" + comment;
    var items := SetItem(c[i].items, key, value, comt);
    EnsureKeepsValues(cfg, section, s, k);
    IndexAfterUpdate(c, i, items, s);
    SetItemValues(c[i].items, key, value, comt, k);
  }

  lemma DeleteKeyLaw(cfg: seq<Section>, section: string, key: string, s: string, k: string)
    ensures Values(DeleteKey(cfg, section, key), s, k)
            == if (s, k) == (section, key) then Tail(Values(cfg, s, k)) else Values(cfg, s, k)
  {
    var i := IndexOf(cfg, section);
    if i < |cfg| {
      IndexAfterUpdate(cfg, i, DeleteItem(cfg[i].items, key), s);
      DeleteItemValues(cfg[i].items, key, k);
    }
  }

  lemma DeleteSectionLaw(cfg: seq<Section>, section: string, s: string, k: string)
    requires DistinctNames(cfg)
    ensures Values(DeleteSection(cfg, section), s, k) == if s == section then [] else Values(cfg, s, k)
  {
    var i, j := IndexOf(cfg, section), IndexOf(cfg, s);
    var c := DeleteSection(cfg, section);
    if i < |cfg| {
      if s == section { IndexIs(c, s, |c|); }
      else if j < i { IndexIs(c, s, j); }
      else { IndexIs(c, s, j - 1); }
    }
  }

  // ----- section names stay distinct

  datatype Op =
    | Load(text: string)
    | Set(section: string, key: string, value: string, comment: string)
    | RemoveKey(section: string, key: string)
    | RemoveSection(section: string)

  function Apply(cfg: seq<Section>, op: Op): seq<Section> {
    match op
    case Load(text) => LoadText(text).sections
    case Set(section, key, value, comment) => SetValue(cfg, section, key, value, comment)
    case RemoveKey(section, key) => DeleteKey(cfg, section, key)
    case RemoveSection(section) => DeleteSection(cfg, section)
  }

  function ApplyAll(cfg: seq<Section>, ops: seq<Op>): seq<Section>
    decreases |ops|
  {
    if ops == [] then cfg else ApplyAll(Apply(cfg, ops[0]), ops[1..])
  }

  lemma ReadLineDistinct(r: Reader, line: string)
    requires r.sections != [] && DistinctNames(r.sections)
    ensures DistinctNames(ReadLine(r, line).sections)
  {
  }

  lemma {:induction false} ReadTextDistinct(r: Reader, text: string)
    requires r.sections != [] && DistinctNames(r.sections)
    ensures DistinctNames(ReadText(r, text).sections)
    decreases |text|
  {
    if r.err == 0 && text != "" {
      ReadLineDistinct(r, Trim(FirstLine(text)));
      ReadTextDistinct(ReadLine(r, Trim(FirstLine(text))), AfterLine(text));
    }
  }

  lemma EnsureDistinct(cfg: seq<Section>, section: string)
    requires DistinctNames(cfg)
    ensures DistinctNames(EnsureSection(cfg, section))
  {
  }

  lemma ApplyDistinct(cfg: seq<Section>, op: Op)
    requires DistinctNames(cfg)
    ensures DistinctNames(Apply(cfg, op))
  {
    match op {
      case Load(text) => ReadTextDistinct(Reader([ROOT], "", 0), text);
      case Set(section, _, _, _) => EnsureDistinct(cfg, section);
      case RemoveKey(section, key) => DeleteKeyDistinct(cfg, section, key);
      case RemoveSection(section) => DeleteSectionDistinct(cfg, section);
    }
    hide DeleteKey, DeleteSection, EnsureSection, DistinctNames;
  }

  lemma DeleteKeyDistinct(cfg: seq<Section>, section: string, key: string)
    requires DistinctNames(cfg)
    ensures DistinctNames(DeleteKey(cfg, section, key))
  {
    hide DeleteItem;
  }

  lemma DeleteSectionDistinct(cfg: seq<Section>, section: string)
    requires DistinctNames(cfg)
    ensures DistinctNames(DeleteSection(cfg, section))
  {
    var i := IndexOf(cfg, section);
    if i < |cfg| { WithoutOne(cfg, i); }
    hide IndexOf, DistinctNames;
  }

  lemma WithoutOne(cfg: seq<Section>, i: nat)
    requires DistinctNames(cfg) && i < |cfg|
    ensures DistinctNames(cfg[..i] + cfg[i + 1..])
  {
    var t := cfg[..i] + cfg[i + 1..];
    assert forall k :: 0 <= k < |t| ==> t[k] == cfg[if k < i then k else k + 1];
  }

  // Also after loads that stopped with an error.
  lemma {:induction false} NamesStayDistinct(cfg: seq<Section>, ops: seq<Op>)
    requires DistinctNames(cfg)
    ensures DistinctNames(ApplyAll(cfg, ops))
    decreases |ops|
  {
    if ops != [] {
      hide Apply, DistinctNames;
      ApplyDistinct(cfg, ops[0]);
      NamesStayDistinct(Apply(cfg, ops[0]), ops[1..]);
    }
  }

  // ----- integers as text

  function Digit(d: nat): char
    requires d < 10
  {
    (48 + d) as char
  }

  predicate IsDigit(c: char) {
    '0' <= c <= '9'
  }

  function PrintNat(n: nat): (s: string)
    ensures s != "" && forall k :: 0 <= k < |s| ==> IsDigit(s[k])
  {
    if n < 10 then [Digit(n)] else PrintNat(n / 10) + [Digit(n % 10)]
  }

  // The %d conversion.
  function PrintInt(v: int): string {
    if v < 0 then "-" + PrintNat(-v) else PrintNat(v)
  }

  function ReadDigits(s: string, acc: nat): nat {
    if s == "" || !IsDigit(s[0]) then acc else ReadDigits(s[1..], acc * 10 + (s[0] as int - 48))
  }

  // atoi: white space, an optional sign, digits.
  function Atoi(s: string): int {
    var t := TrimLeft(s);
    if t != "" && t[0] == '-' then 0 - ReadDigits(t[1..], 0)
    else if t != "" && t[0] == '+' then ReadDigits(t[1..], 0)
    else ReadDigits(t, 0)
  }

  function Pow10(k: nat): nat {
    if k == 0 then 1 else 10 * Pow10(k - 1)
  }

  lemma {:induction false} ReadDigitsSnoc(s: string, d: nat, acc: nat)
    requires d < 10 && forall k :: 0 <= k < |s| ==> IsDigit(s[k])
    ensures ReadDigits(s + [Digit(d)], acc) == ReadDigits(s, acc) * 10 + d
    decreases |s|
  {
    var t := s + [Digit(d)];
    if s == "" {
      assert t[1..] == "";
    } else {
      assert t[1..] == s[1..] + [Digit(d)];
      ReadDigitsSnoc(s[1..], d, acc * 10 + (s[0] as int - 48));
    }
  }

  lemma {:induction false} ReadPrintNat(n: nat)
    ensures ReadDigits(PrintNat(n), 0) == n
  {
    if n < 10 {
      assert [Digit(n)][1..] == "";
    } else {
      ReadPrintNat(n / 10);
      ReadDigitsSnoc(PrintNat(n / 10), n % 10, 0);
    }
  }

  lemma AtoiOfPrintInt(v: int)
    ensures Atoi(PrintInt(v)) == v
  {
    var s := PrintInt(v);
    ReadPrintNat(if v < 0 then -v else v);
    assert !IsSpace(s[0]);
    if v < 0 { assert s[1..] == PrintNat(-v); }
  }

  lemma {:induction false} PrintNatLength(n: nat, k: nat)
    requires n < Pow10(k) && k >= 1
    ensures |PrintNat(n)| <= k
  {
    if n >= 10 { PrintNatLength(n / 10, k - 1); }
  }

  predicate Int32(v: int) {
    -0x8000_0000 <= v < 0x8000_0000
  }

  // The 64-byte buffer of SetIntValue never truncates.
  lemma PrintedIntFits(v: int)
    requires Int32(v)
    ensures |PrintInt(v)| <= 11
  {
    assert Pow10(5) == 100000;
    assert Pow10(10) == 100000 * Pow10(5);
    PrintNatLength(if v < 0 then -v else v, 10);
  }

  lemma PrintIntClean(v: int)
    ensures CleanValue(PrintInt(v))
  {
    var s := PrintInt(v);
    assert forall k :: 0 <= k < |s| ==> IsDigit(s[k]) || s[k] == '-';
  }

  // ----- a setting survives saving and loading

  // The configuration with this comment stored as it is.
  function Stored(cfg: seq<Section>, section: string, key: string, value: string, stored: string): seq<Section> {
    var c := EnsureSection(cfg, section);
    var i := IndexOf(c, section);
    c[i := c[i].(items := SetItem(c[i].items, key, value, stored))]
  }

  lemma StoredItemClean(items: seq<Item>, key: string, value: string, stored: string)
    requires forall k :: 0 <= k < |items| ==> CleanItem(items[k])
    requires CleanKey(key) && CleanValue(value) && CleanComment(stored)
    ensures var t := SetItem(items, key, value, stored); forall k :: 0 <= k < |t| ==> CleanItem(t[k])
  {
    assert CleanRight("");
    hide CleanComment;
  }

  lemma EnsureClean(cfg: seq<Section>, section: string)
    requires Clean(cfg) && NoSectionRight(cfg) && CleanName(section)
    ensures Clean(EnsureSection(cfg, section)) && NoSectionRight(EnsureSection(cfg, section))
  {
    assert IndexOf(cfg, "") == 0;
    EnsureDistinct(cfg, section);
    assert CleanSection(Section(section, "", "", []));
  }

  lemma StoredClean(cfg: seq<Section>, section: string, key: string, value: string, stored: string)
    requires Clean(cfg) && NoSectionRight(cfg)
    requires CleanName(section) && CleanKey(key) && CleanValue(value) && CleanComment(stored)
    ensures Clean(Stored(cfg, section, key, value, stored)) && NoSectionRight(Stored(cfg, section, key, value, stored))
  {
    var c := EnsureSection(cfg, section);
    assert Clean(c) && NoSectionRight(c) by { EnsureClean(cfg, section); }
    var i := IndexOf(c, section);
    hide EnsureSection, IndexOf;
    assert CleanSection(c[i]);
    StoredItemClean(c[i].items, key, value, stored);
    var t := Stored(cfg, section, key, value, stored);
    assert CleanSection(t[i]);
    assert forall k :: 0 <= k < |t| ==>
        t[k].name == c[k].name && t[k].comment == c[k].comment && t[k].rightComment == c[k].rightComment;
  }

  lemma SetValueClean(cfg: seq<Section>, section: string, key: string, value: string)
    requires Clean(cfg) && NoSectionRight(cfg)
    requires CleanName(section) && CleanKey(key) && CleanValue(value)
    ensures Clean(SetValue(cfg, section, key, value, "")) && NoSectionRight(SetValue(cfg, section, key, value, ""))
  {
    StoredClean(cfg, section, key, value, "");
    hide EnsureSection, IndexOf, SetItem, Clean, NoSectionRight;
  }

  function GetInt(cfg: seq<Section>, section: string, key: string, defaultValue: int): int {
    match Lookup(cfg, section, key)
    case Value(v, _) => Atoi(v)
    case Missing(_) => defaultValue
  }

  // SetIntValue, Save, Load, GetIntValue: the value comes back, and all values
  // of every other key of every section are as they were.
  lemma IntSettingSurvives(text: string, section: string, key: string, v: int, defaultValue: int, s: string, k: string)
    requires LoadText(text).err == 0 && NoSectionRight(LoadText(text).sections)
    requires CleanName(section) && CleanKey(key) && Int32(v)
    ensures var cfg := LoadText(text).sections;
            var r := LoadText(ConfigText(SetValue(cfg, section, key, PrintInt(v), "")));
            && r.err == 0
            && GetInt(r.sections, section, key, defaultValue) == v
            && ((s, k) != (section, key) ==> Values(r.sections, s, k) == Values(cfg, s, k))
            && ((s, k) != (section, key) ==> GetInt(r.sections, s, k, defaultValue) == GetInt(cfg, s, k, defaultValue))
  {
    var cfg := LoadText(text).sections;
    var c := SetValue(cfg, section, key, PrintInt(v), "");
    LoadIsClean(text);
    PrintIntClean(v);
    SetValueClean(cfg, section, key, PrintInt(v));
    ReadBack(c);
    SetValueLaw(cfg, section, key, PrintInt(v), "", section, key);
    SetValueLaw(cfg, section, key, PrintInt(v), "", s, k);
    LookupIsFirstValue(c, section, key);
    LookupIsFirstValue(c, s, k);
    LookupIsFirstValue(cfg, s, k);
    AtoiOfPrintInt(v);
  }
}
