/**
  The printed maps of talk/base/network.cc, in which the state of the networks
  is saved and restored: "{key=value,key=value}", where a value may be such a
  map again.

  `Entries` says which entries a text holds; the methods read them from a
  stream with an end-of-file flag and a failure flag.  `EntriesIff` says for
  which entries printing and parsing is the identity, `MapRoundTrip` lifts this
  to maps, and `NestedRoundTrip` to maps in maps at any depth.
*/
module StrMap {
  import opened Prelude

  const EOF: int := -1

  /** The cast to char, under which EOF is an ordinary character. */
  function Char(c: int): char
    requires EOF <= c < 256
  {
    if c == EOF then 255 as char else c as char
  }

  datatype Entry = Entry(key: string, value: string)

  // ---------------------------------------------------------------------
  // Printing
  // ---------------------------------------------------------------------

  function Item(e: Entry): string { e.key + ['='] + e.value }

  function Items(es: seq<Entry>): string
    decreases |es|, 0
  {
    if es == [] then "" else Item(es[0]) + More(es[1..])
  }

  function More(es: seq<Entry>): string
    decreases |es|, 1
  {
    if es == [] then "" else [','] + Items(es)
  }

  function Print(es: seq<Entry>): string { ['{'] + Items(es) + ['}'] }

  lemma {:induction false} ItemsGrow(es: seq<Entry>, e: Entry)
    ensures Items(es + [e]) == (if es == [] then Item(e) else Items(es) + ([','] + Item(e)))
  {
    hide Item;
    if es == [] {
      assert es + [e] == [e];
    } else {
      assert (es + [e])[1..] == es[1..] + [e];
      ItemsGrow(es[1..], e);
      var tail := [','] + Item(e);
      assert More(es[1..] + [e]) == More(es[1..]) + tail;
      hide Items, More;
      assert Item(es[0]) + (More(es[1..]) + tail) == (Item(es[0]) + More(es[1..])) + tail;
    }
  }

  /** The map's entries come in the order of its iterator. */
  method BuildMap(entries: seq<Entry>, before: string) returns (str: string)
    ensures str == before + Print(entries)
  {
    hide Items;
    str := before + ['{'];
    ghost var start := str;
    var first := true;
    NoItems();
    for i := 0 to |entries|
      invariant first <==> i == 0
      invariant str == start + Items(entries[..i])
    {
      NextItem(start, entries, i);
      if !first {
        str := str + [','];
      }
      str := str + entries[i].key;
      str := str + ['='];
      str := str + entries[i].value;
      first := false;
    }
    assert entries[..|entries|] == entries;
    str := str + ['}'];
  }

  lemma NextItem(start: string, entries: seq<Entry>, i: nat)
    requires i < |entries|
    ensures var e, text := entries[i], start + Items(entries[..i]);
      start + Items(entries[..i + 1]) == (if i == 0 then text else text + [',']) + e.key + ['='] + e.value
  {
    var front, e := entries[..i], entries[i];
    assert front + [e] == entries[..i + 1];
    ItemAfter(start, front, e);
    hide *;
  }

  lemma ItemAfter(start: string, front: seq<Entry>, e: Entry)
    ensures var text := start + Items(front);
      start + Items(front + [e]) == (if front == [] then text else text + [',']) + e.key + ['='] + e.value
  {
    ItemsGrow(front, e);
    ItemBehind(start, Items(front), e);
    NoItems();
    hide *;
    assert start + "" == start;
  }

  lemma ItemBehind(start: string, items: string, e: Entry)
    ensures start + Item(e) == start + e.key + ['='] + e.value
    ensures start + (items + ([','] + Item(e))) == (start + items) + [','] + e.key + ['='] + e.value
  {
  }

  lemma NoItems()
    ensures Items([]) == ""
  {
  }

  /** Entries stand in braces, with a comma between two and an equals sign in each. */
  lemma PrintText(es: seq<Entry>, e: Entry)
    ensures Print([]) == "{}" && Print([e]) == "{" + e.key + "=" + e.value + "}"
    ensures es != [] ==>
              && |Print(es)| > 0
              && Print(es + [e]) == Print(es)[..|Print(es)| - 1] + "," + e.key + "=" + e.value + "}"
  {
    NoItems();
    OneItem(e);
    ItemsGrow(es, e);
    hide Items;
    if es != [] { BracesGrow(Items(es), e); }
  }

  lemma OneItem(e: Entry)
    ensures Items([e]) == Item(e)
  {
    assert Item(e) + "" == Item(e);
  }

  lemma BracesGrow(items: string, e: Entry)
    ensures var text := ['{'] + items + ['}'];
      ['{'] + (items + ([','] + Item(e))) + ['}'] == text[..|text| - 1] + "," + e.key + "=" + e.value + "}"
  {
    var text := ['{'] + items + ['}'];
    assert text[..|text| - 1] == ['{'] + items;
  }

  // ---------------------------------------------------------------------
  // What a text means
  // ---------------------------------------------------------------------

  predicate Delimiter(c: char) { c == '=' || c == ',' || c == '}' }

  function Depth(count: nat, c: char): nat
    requires count > 0 || !Delimiter(c)
  {
    if c == '{' then count + 1 else if c == '}' then count - 1 else count
  }

  /** A scanned string, what follows it, and whether the stream came to its end. */
  datatype Scan = Scan(text: string, rest: string, failed: bool)

  /** Up to a delimiter outside braces; at the end of the text one EOF is taken for a character. */
  function Text(s: string, count: nat): (r: Scan)
    ensures r.failed ==> r.rest == "" && |r.text| == |s| + 1
    ensures !r.failed ==> s == r.text + r.rest && r.rest != "" && Delimiter(r.rest[0])
  {
    if s == "" then Scan([Char(EOF)], "", true)
    else if count == 0 && Delimiter(s[0]) then Scan("", s, false)
    else
      var r := Text(s[1..], Depth(count, s[0]));
      Scan([s[0]] + r.text, r.rest, r.failed)
  }

  function ValueAfter(key: Scan): (r: Scan)
    requires !key.failed ==> key.rest != ""
    ensures |r.rest| <= |key.rest| && (!r.failed ==> r.rest != "")
  {
    if key.failed then Scan("", "", true) else Text(key.rest[1..], 0)
  }

  /** A comma follows the first entry. */
  predicate Continues(s: string) {
    var value := ValueAfter(Text(s, 0));
    value.rest != "" && value.rest[0] == ','
  }

  /** The entries of a text behind its opening brace. */
  function Entries(s: string): (es: seq<Entry>)
    ensures es != []
    decreases |s|
  {
    var key := Text(s, 0);
    var value := ValueAfter(key);
    [Entry(key.text, value.text)] + if Continues(s) then Entries(value.rest[1..]) else []
  }

  /** Later entries replace earlier ones. */
  function Update(m: map<string, string>, es: seq<Entry>): map<string, string>
    decreases |es|
  {
    if es == [] then m else Update(m[es[0].key := es[0].value], es[1..])
  }

  function Parse(s: string, before: map<string, string>): map<string, string> {
    if s == "" then before else Update(before, Entries(s[1..]))
  }

  // ---------------------------------------------------------------------
  // The stream and the parser
  // ---------------------------------------------------------------------

  class Stream {
    const data: string
    var pos: nat
    var eof: bool
    var fail: bool

    predicate Valid()
      reads this
    {
      pos <= |data| && (fail ==> eof) && (eof ==> pos == |data|) && InRange()
    }

    predicate InRange()
      reads this
    {
      forall i :: 0 <= i < |data| ==> data[i] as int < 256
    }

    function Rest(): string
      requires pos <= |data|
      reads this
    {
      data[pos..]
    }

    constructor (data: string)
      requires forall i :: 0 <= i < |data| ==> data[i] as int < 256
      ensures Valid() && !eof && !fail && pos == 0 && this.data == data
    {
      this.data := data;
      pos := 0;
      eof := false;
      fail := false;
    }

    method Peek() returns (c: int)
      requires Valid()
      modifies this`eof, this`fail
      ensures Valid() && EOF <= c < 256
      ensures old(eof) ==> c == EOF && eof && fail
      ensures !old(eof) && pos == |data| ==> c == EOF && eof && fail == old(fail)
      ensures pos < |data| ==> c == data[pos] as int && !eof && !fail
    {
      if eof {
        fail := true;
        return EOF;
      }
      if pos == |data| {
        eof := true;
        return EOF;
      }
      return data[pos] as int;
    }

    method Get() returns (c: int)
      requires Valid()
      modifies this
      ensures Valid() && EOF <= c < 256
      ensures old(pos) == |data| ==> c == EOF && eof && fail && pos == old(pos)
      ensures old(pos) < |data| ==> c == data[old(pos)] as int && pos == old(pos) + 1 && !eof && !fail
    {
      if eof || pos == |data| {
        eof := true;
        fail := true;
        return EOF;
      }
      c := data[pos] as int;
      pos := pos + 1;
    }

    /** A mismatch is logged, and the character is gone. */
    method ParseCheck(ch: char) returns (expected: bool)
      requires Valid() && ch as int < 255
      modifies this
      ensures Valid()
      ensures old(pos) == |data| ==> !expected && eof && fail && pos == old(pos)
      ensures old(pos) < |data| ==> expected == (data[old(pos)] == ch) && pos == old(pos) + 1 && !eof && !fail
    {
      var c := Get();
      expected := c == ch as int;
    }

    /** One turn of the loop in ParseString, behind the test for a delimiter. */
    method TakeChar() returns (c: char)
      requires Valid() && !fail && (pos < |data| ==> !eof)
      modifies this
      ensures Valid()
      ensures old(pos) == |data| ==> c == Char(EOF) && eof && fail && pos == old(pos)
      ensures old(pos) < |data| ==> c == data[old(pos)] && pos == old(pos) + 1 && !eof && !fail
    {
      var d := Get();
      c := Char(d);
    }

    /** The count never becomes negative: an unmatched brace ends the scan. */
    method ParseString() returns (str: string)
      requires Valid() && (eof ==> fail)
      modifies this
      ensures Valid() && (eof ==> fail)
      ensures old(fail) ==> str == "" && fail && pos == old(pos)
      ensures !old(fail) ==> Scan(str, Rest(), fail) == Text(old(Rest()), 0)
    {
      hide Text, Prepend;
      str := "";
      var count: int := 0;
      PrependNothing(Text(Rest(), 0));
      ghost var all := Text(Rest(), 0);
      while !fail
        invariant Valid() && (eof ==> fail) && count >= 0
        invariant old(fail) ==> str == "" && fail && pos == old(pos)
        invariant !old(fail) && !fail ==> all == Prepend(str, Text(Rest(), count))
        invariant !old(fail) && fail ==> all == Scan(str, "", true)
        decreases |data| - pos, !fail
      {
        var c := Peek();
        var ch := Char(c);
        ScanStep(all, str, data, pos, count);
        if count == 0 && (ch == '=' || ch == ',' || ch == '}') {
          break;
        } else if ch == '{' {
          count := count + 1;
        } else if ch == '}' {
          count := count - 1;
        }
        var d := TakeChar();
        str := str + [d];
      }
    }

    /** One turn of the loop in ParseMap: an entry and perhaps the comma behind it. */
    method ParseEntry() returns (key: string, value: string, more: bool)
      requires Valid() && !eof
      modifies this
      ensures Valid()
      ensures key == Text(old(Rest()), 0).text && value == ValueAfter(Text(old(Rest()), 0)).text
      ensures more == Continues(old(Rest()))
      ensures more ==> !eof && pos > old(pos) && Rest() == ValueAfter(Text(old(Rest()), 0)).rest[1..]
    {
      hide Text;
      key := ParseString();
      assert !fail ==> Rest()[1..] == data[pos + 1..];
      var equals := ParseCheck('=');
      value := ParseString();
      assert !fail ==> Rest()[1..] == data[pos + 1..];
      var c := Peek();
      more := c == ',' as int;
      if more {
        var comma := Get();
      }
    }
  }

  /** The second result says that nothing was logged at the end. */
  method ParseMap(str: string, before: map<string, string>) returns (entries: map<string, string>, clean: bool)
    requires forall i :: 0 <= i < |str| ==> str[i] as int < 256
    ensures entries == Parse(str, before)
    ensures clean && str != "" ==> str[0] == '{' && str[|str| - 1] == '}'
  {
    hide Text, Continues, Entries, Update;
    entries := before;
    clean := true;
    if |str| == 0 { return; }
    var ist := new Stream(str);
    var open := ist.ParseCheck('{');
    var more := true;
    ghost var all := Update(before, Entries(ist.Rest()));
    while more
      invariant ist.Valid() && fresh(ist)
      invariant more ==> !ist.eof && all == Update(entries, Entries(ist.Rest()))
      invariant !more ==> all == entries
      decreases more, |ist.data| - ist.pos
    {
      UpdateEntries(entries, ist.Rest());
      var key, value;
      key, value, more := ist.ParseEntry();
      entries := entries[key := value];
    }
    var close := ist.ParseCheck('}');
    clean := open && close && ist.pos == |str|;
  }

  lemma UpdateEntries(m: map<string, string>, s: string)
    ensures var key := Text(s, 0);
            var value := ValueAfter(key);
            var n := m[key.text := value.text];
            Update(m, Entries(s)) == if Continues(s) then Update(n, Entries(value.rest[1..])) else n
  {
  }

  function Prepend(s: string, r: Scan): Scan { Scan(s + r.text, r.rest, r.failed) }

  lemma PrependNothing(r: Scan)
    ensures Prepend("", r) == r
  {
  }

  /** One character more of what is scanned. */
  lemma ScanStep(all: Scan, str: string, data: string, pos: nat, count: nat)
    requires pos <= |data| && all == Prepend(str, Text(data[pos..], count))
    ensures pos == |data| ==> all == Scan(str + [Char(EOF)], "", true)
    ensures pos < |data| && count == 0 && Delimiter(data[pos]) ==> all == Scan(str, data[pos..], false)
    ensures pos < |data| && !(count == 0 && Delimiter(data[pos])) ==>
              all == Prepend(str + [data[pos]], Text(data[pos + 1..], Depth(count, data[pos])))
  {
    var s := data[pos..];
    if s != "" && !(count == 0 && Delimiter(s[0])) {
      var r := Text(data[pos + 1..], Depth(count, s[0]));
      assert s[1..] == data[pos + 1..] && Text(s, count) == Scan([s[0]] + r.text, r.rest, r.failed);
      hide Text;
      assert str + ([s[0]] + r.text) == (str + [s[0]]) + r.text;
    }
  }

  // ---------------------------------------------------------------------
  // What is printed can be parsed
  // ---------------------------------------------------------------------

  /** Braces match from depth count on, and delimiters are inside braces only. */
  predicate Closed(s: string, count: nat) {
    if s == "" then count == 0
    else !(count == 0 && Delimiter(s[0])) && Closed(s[1..], Depth(count, s[0]))
  }

  /** Opening braces less closing ones. */
  function Excess(s: string): int {
    if s == "" then 0 else (if s[0] == '{' then 1 else if s[0] == '}' then -1 else 0) + Excess(s[1..])
  }

  /** As many braces close as open, never more up to any point, and the three delimiters stand inside. */
  lemma {:induction false} ClosedIff(s: string, count: nat)
    ensures Closed(s, count) <==>
            && count + Excess(s) == 0
            && forall i :: 0 <= i < |s| ==>
                 && count + Excess(s[..i]) >= 0
                 && (s[i] == '=' || s[i] == ',' || s[i] == '}' ==> count + Excess(s[..i]) > 0)
    decreases |s|
  {
    if s != "" {
      assert s[..0] == "" && Excess(s[..0]) == 0;
      if count == 0 && Delimiter(s[0]) {
        assert !(s[0] == '=' || s[0] == ',' || s[0] == '}' ==> count + Excess(s[..0]) > 0);
      } else {
        ClosedIff(s[1..], Depth(count, s[0]));
        ShiftExcess(s, count);
        hide Excess;
        var t, d := s[1..], Depth(count, s[0]);
        assert forall i :: 0 <= i < |t| ==> t[i] == s[i + 1] && d + Excess(t[..i]) == count + Excess(s[..i + 1]);
      }
    }
  }

  lemma ShiftExcess(s: string, count: nat)
    requires s != "" && !(count == 0 && Delimiter(s[0]))
    ensures forall i :: 0 < i < |s| ==>
              s[i] == s[1..][i - 1] && count + Excess(s[..i]) == Depth(count, s[0]) + Excess(s[1..][..i - 1])
  {
    forall i | 0 < i < |s|
      ensures count + Excess(s[..i]) == Depth(count, s[0]) + Excess(s[1..][..i - 1])
    {
      assert s[..i][0] == s[0] && s[..i][1..] == s[1..][..i - 1];
    }
  }

  predicate ClosedEntry(e: Entry) { Closed(e.key, 0) && Closed(e.value, 0) }

  predicate AllClosed(es: seq<Entry>) { forall i :: 0 <= i < |es| ==> ClosedEntry(es[i]) }

  lemma {:induction false} TextReadsBack(s: string, count: nat, rest: string)
    requires Closed(s, count) && rest != "" && Delimiter(rest[0])
    ensures Text(s + rest, count) == Scan(s, rest, false)
  {
    if s == "" {
      assert s + rest == rest;
    } else {
      TextReadsBack(s[1..], Depth(count, s[0]), rest);
      assert (s + rest)[1..] == s[1..] + rest;
      assert [s[0]] + s[1..] == s;
    }
  }

  lemma {:induction false} TextIsClosed(s: string, count: nat)
    requires !Text(s, count).failed
    ensures Closed(Text(s, count).text, count)
  {
    if s != "" && !(count == 0 && Delimiter(s[0])) {
      TextIsClosed(s[1..], Depth(count, s[0]));
      assert Text(s, count).text[1..] == Text(s[1..], Depth(count, s[0])).text;
    }
  }

  /** Exactly the closed strings are read back up to the delimiter that follows. */
  lemma TextIff(s: string, rest: string)
    requires rest != "" && Delimiter(rest[0])
    ensures Text(s + rest, 0).text == s <==> Closed(s, 0)
    ensures Closed(s, 0) ==> Text(s + rest, 0) == Scan(s, rest, false)
  {
    if Closed(s, 0) {
      TextReadsBack(s, 0, rest);
    } else if Text(s + rest, 0).text == s {
      TextIsClosed(s + rest, 0);
    }
  }

  lemma FirstEntryIff(e: Entry, tail: string)
    requires tail != "" && Delimiter(tail[0])
    ensures var key := Text(Item(e) + tail, 0);
            && (key.text == e.key && ValueAfter(key).text == e.value <==> ClosedEntry(e))
            && (ClosedEntry(e) ==> ValueAfter(key) == Scan(e.value, tail, false))
  {
    var rest := ['='] + e.value + tail;
    assert Item(e) + tail == e.key + rest;
    assert rest[1..] == e.value + tail;
    hide Closed, Text;
    TextIff(e.key, rest);
    TextIff(e.value, tail);
  }

  /** Any delimiter ends a key and any ends a value; only a comma behind the value makes the scan go on. */
  lemma AnyEntry(e: Entry, equals: char, end: char, tail: string)
    requires ClosedEntry(e) && equals in "=,}" && end in "=,}"
    ensures Entries(e.key + ([equals] + (e.value + ([end] + tail)))) ==
            [e] + if end == ',' then Entries(tail) else []
  {
    var last := [end] + tail;
    var rest := [equals] + (e.value + last);
    assert Delimiter(equals) && Delimiter(end);
    Behind(equals, e.value + last);
    Behind(end, tail);
    hide Closed, Text, Delimiter, Entries;
    TextIff(e.key, rest);
    TextIff(e.value, last);
    OneOfEntries(e.key + rest, e, last);
  }

  lemma Behind(c: char, tail: string)
    ensures ([c] + tail)[1..] == tail && ([c] + tail)[0] == c
  {
  }

  lemma OneOfEntries(s: string, e: Entry, last: string)
    requires ValueAfter(Text(s, 0)) == Scan(e.value, last, false) && Text(s, 0).text == e.key && last != ""
    ensures Entries(s) == [e] + if last[0] == ',' then Entries(last[1..]) else []
  {
    hide Text, ValueAfter;
  }

  /** The first character of a map is not looked at. */
  lemma AnyOpening(open: char, e: Entry, equals: char, end: char, tail: string, before: map<string, string>)
    requires ClosedEntry(e) && equals in "=,}" && (end == '=' || end == '}')
    ensures Parse([open] + (e.key + ([equals] + (e.value + ([end] + tail)))), before) == before[e.key := e.value]
  {
    AnyEntry(e, equals, end, tail);
    hide Closed, Entries, Update;
    Behind(open, e.key + ([equals] + (e.value + ([end] + tail))));
    assert [e] + [] == [e];
    UpdateOne(before, e);
  }

  lemma UpdateOne(before: map<string, string>, e: Entry)
    ensures Update(before, [e]) == before[e.key := e.value]
  {
  }

  /** Without a delimiter everything is taken, and one character more for the end of the text. */
  lemma {:induction false} TextUnfinished(s: string, count: nat)
    requires '=' !in s && ',' !in s && '}' !in s
    ensures Text(s, count) == Scan(s + [255 as char], "", true)
  {
    if s != "" { TextUnfinished(s[1..], Depth(count, s[0])); }
  }

  /** Printed entries read back, in order, exactly if every key and value is closed. */
  lemma {:induction false} EntriesIff(es: seq<Entry>)
    requires es != []
    ensures Entries(Items(es) + ['}']) == es <==> AllClosed(es)
    decreases |es|
  {
    hide Closed, Text, Item, ValueAfter, Delimiter;
    var tail := More(es[1..]) + ['}'];
    var s := Items(es) + ['}'];
    assert s == Item(es[0]) + tail;
    assert tail != "" && Delimiter(tail[0]) by { TailStarts(es[1..]); }
    FirstEntryIff(es[0], tail);
    if es[1..] != [] {
      assert tail[1..] == Items(es[1..]) + ['}'];
      EntriesIff(es[1..]);
    }
    FirstOfEntries(s, es);
    hide Entries, Items, More;
    if AllClosed(es) { assert AllClosed(es[1..]); }
    if ClosedEntry(es[0]) && AllClosed(es[1..]) { AllClosedCons(es); }
  }

  lemma AllClosedCons(es: seq<Entry>)
    requires es != [] && ClosedEntry(es[0]) && AllClosed(es[1..])
    ensures AllClosed(es)
  {
  }

  lemma TailStarts(es: seq<Entry>)
    ensures var tail := More(es) + ['}'];
            tail != "" && Delimiter(tail[0]) && (tail[0] == ',' <==> es != [])
  {
  }

  /** Entries(s) is es if the first entry is es[0] and the others are es[1..]. */
  lemma FirstOfEntries(s: string, es: seq<Entry>)
    requires es != []
    ensures var key := Text(s, 0);
            var value := ValueAfter(key);
            var rest := if Continues(s) then Entries(value.rest[1..]) else [];
            Entries(s) == es <==> key.text == es[0].key && value.text == es[0].value && rest == es[1..]
  {
  }

  // ---------------------------------------------------------------------
  // Maps
  // ---------------------------------------------------------------------

  predicate DistinctKeys(es: seq<Entry>) { forall i, j :: 0 <= i < j < |es| ==> es[i].key != es[j].key }

  predicate HasKey(es: seq<Entry>, k: string) { exists i :: 0 <= i < |es| && es[i].key == k }

  /** es holds the entries of m, each once, in any order. */
  ghost predicate Enumerates(es: seq<Entry>, m: map<string, string>) {
    && DistinctKeys(es)
    && (forall k :: k in m <==> HasKey(es, k))
    && (forall i :: 0 <= i < |es| ==> es[i].key in m && m[es[i].key] == es[i].value)
  }

  lemma {:induction false} UpdateAt(m: map<string, string>, es: seq<Entry>, k: string)
    requires DistinctKeys(es)
    ensures k in Update(m, es) <==> k in m || HasKey(es, k)
    ensures !HasKey(es, k) && k in m ==> Update(m, es)[k] == m[k]
    ensures forall i :: 0 <= i < |es| && es[i].key == k ==> k in Update(m, es) && Update(m, es)[k] == es[i].value
    decreases |es|
  {
    if es != [] {
      var n, rest := m[es[0].key := es[0].value], es[1..];
      UpdateAt(n, rest, k);
      forall i | 0 < i < |es| && es[i].key == k ensures HasKey(rest, k) { assert rest[i - 1] == es[i]; }
      if HasKey(rest, k) {
        var i :| 0 <= i < |rest| && rest[i].key == k;
        assert es[i + 1].key == k;
      }
      if es[0].key == k { assert !HasKey(rest, k); }
      hide Update;
      assert Update(m, es) == Update(n, rest) by { UpdateFirst(m, es); }
      forall i | 0 <= i < |es| && es[i].key == k ensures Update(m, es)[k] == es[i].value {
        if i > 0 { assert rest[i - 1] == es[i]; }
      }
    }
  }

  lemma UpdateFirst(m: map<string, string>, es: seq<Entry>)
    requires es != []
    ensures Update(m, es) == Update(m[es[0].key := es[0].value], es[1..])
  {
  }

  lemma UpdateAll(es: seq<Entry>, m: map<string, string>)
    requires Enumerates(es, m)
    ensures Update(map[], es) == m
  {
    var n := Update(map[], es);
    forall k ensures k in n <==> k in m { UpdateAt(map[], es, k); }
    forall k | k in m ensures n[k] == m[k] {
      UpdateAt(map[], es, k);
      var i :| 0 <= i < |es| && es[i].key == k;
    }
    hide Update, HasKey;
  }

  lemma PrintInside(es: seq<Entry>)
    ensures Print(es) != "" && Print(es)[1..] == Items(es) + ['}']
  {
  }

  /** A map with closed keys and values is saved and restored exactly if it is not empty. */
  lemma MapRoundTrip(es: seq<Entry>, m: map<string, string>)
    requires Enumerates(es, m) && AllClosed(es)
    ensures Parse(Print(es), map[]) == m <==> m != map[]
  {
    hide AllClosed, DistinctKeys;
    if es != [] {
      assert HasKey(es, es[0].key);
      EntriesIff(es);
      UpdateAll(es, m);
      PrintInside(es);
    } else {
      forall k ensures k !in m { assert !HasKey(es, k); }
      EmptyMap();
      assert "" in Parse(Print(es), map[]) by { hide Parse; }
    }
  }

  /** The empty map comes back with one entry. */
  lemma EmptyMap()
    ensures Print([]) == "{}" && Parse("{}", map[]) == map["" := [255 as char]]
  {
  }

  // ---------------------------------------------------------------------
  // Maps in maps
  // ---------------------------------------------------------------------

  /** A value, or a map that is printed and becomes a value. */
  datatype Tree = Leaf(text: string) | Node(children: seq<Child>)
  datatype Child = Child(key: string, tree: Tree)

  function Show(t: Tree): string
    decreases t
  {
    match t
    case Leaf(text) => text
    case Node(children) => Print(ShowAll(children))
  }

  function ShowAll(cs: seq<Child>): (es: seq<Entry>)
    ensures |es| == |cs|
    ensures forall i :: 0 <= i < |es| ==> es[i] == Entry(cs[i].key, Show(cs[i].tree))
    decreases cs
  {
    if cs == [] then [] else [Entry(cs[0].key, Show(cs[0].tree))] + ShowAll(cs[1..])
  }

  /** Texts and keys are closed, and the keys of a map are distinct. */
  predicate WellFormed(t: Tree)
    decreases t
  {
    match t
    case Leaf(text) => Closed(text, 0)
    case Node(cs) =>
      && (forall i :: 0 <= i < |cs| ==> Closed(cs[i].key, 0) && WellFormed(cs[i].tree))
      && (forall i, j :: 0 <= i < j < |cs| ==> cs[i].key != cs[j].key)
  }

  /** A closed string inside braces does not change their depth. */
  lemma {:induction false} ClosedInside(s: string, d: nat, t: string, c: nat)
    requires Closed(s, d) && c > 0 && Closed(t, c)
    ensures Closed(s + t, d + c)
  {
    if s == "" {
      assert s + t == t;
    } else {
      ClosedInside(s[1..], Depth(d, s[0]), t, c);
      assert (s + t)[1..] == s[1..] + t;
    }
  }

  lemma CharInside(ch: char, t: string, c: nat)
    requires ch == '=' || ch == ','
    requires c > 0 && Closed(t, c)
    ensures Closed([ch] + t, c)
  {
  }

  lemma EntryInside(e: Entry, tail: string)
    requires ClosedEntry(e) && Closed(tail, 1)
    ensures Closed(Item(e) + tail, 1)
  {
    hide Closed;
    ClosedInside(e.value, 0, tail, 1);
    CharInside('=', e.value + tail, 1);
    ClosedInside(e.key, 0, ['='] + (e.value + tail), 1);
    assert Item(e) + tail == e.key + (['='] + (e.value + tail));
  }

  lemma {:induction false} ItemsClosed(es: seq<Entry>, t: string)
    requires AllClosed(es) && Closed(t, 1)
    ensures Closed(Items(es) + t, 1)
    decreases |es|
  {
    hide Closed, Item, ClosedEntry;
    if es == [] {
      assert Items(es) + t == t;
    } else {
      var tail := More(es[1..]) + t;
      if es[1..] == [] {
        assert tail == t;
      } else {
        ItemsClosed(es[1..], t);
        assert tail == [','] + (Items(es[1..]) + t);
        CharInside(',', Items(es[1..]) + t, 1);
      }
      EntryInside(es[0], tail);
      assert Items(es) + t == Item(es[0]) + tail;
    }
  }

  /** A printed map can be a value. */
  lemma PrintIsClosed(es: seq<Entry>)
    requires AllClosed(es)
    ensures Closed(Print(es), 0)
  {
    hide Items;
    assert Closed(['}'], 1) by { assert ['}'][1..] == ""; }
    ItemsClosed(es, ['}']);
    PrintInside(es);
  }

  lemma {:induction false} ShowIsClosed(t: Tree)
    requires WellFormed(t)
    ensures Closed(Show(t), 0)
    decreases t
  {
    match t
    case Leaf(text) =>
    case Node(cs) =>
      hide Closed, Print;
      forall i | 0 <= i < |cs| ensures ClosedEntry(ShowAll(cs)[i]) { ShowIsClosed(cs[i].tree); }
      PrintIsClosed(ShowAll(cs));
  }

  /** A nested map is restored with its keys and the texts of its values. */
  lemma NodeRoundTrip(cs: seq<Child>, m: map<string, string>)
    requires WellFormed(Node(cs)) && cs != [] && Enumerates(ShowAll(cs), m)
    ensures Parse(Show(Node(cs)), map[]) == m
  {
    hide Parse, Print, Closed, Show;
    forall i | 0 <= i < |cs| ensures ClosedEntry(ShowAll(cs)[i]) { ShowIsClosed(cs[i].tree); }
    assert HasKey(ShowAll(cs), ShowAll(cs)[0].key);
    MapRoundTrip(ShowAll(cs), m);
    ShowNode(cs);
  }

  lemma ShowNode(cs: seq<Child>)
    ensures Show(Node(cs)) == Print(ShowAll(cs))
  {
  }

  /** The subtree at the end of a path of indices. */
  predicate HasPath(t: Tree, path: seq<nat>) {
    path == [] || (t.Node? && path[0] < |t.children| && HasPath(t.children[path[0]].tree, path[1..]))
  }

  function At(t: Tree, path: seq<nat>): Tree
    requires HasPath(t, path)
  {
    if path == [] then t else At(t.children[path[0]].tree, path[1..])
  }

  function Keys(t: Tree, path: seq<nat>): seq<string>
    requires HasPath(t, path)
  {
    if path == [] then [] else [t.children[path[0]].key] + Keys(t.children[path[0]].tree, path[1..])
  }

  /** Parsing the text, taking the value of the first key, and so on. */
  function Restore(text: string, keys: seq<string>): Option<string>
    decreases |keys|
  {
    if keys == [] then Some(text)
    else
      var m := Parse(text, map[]);
      if keys[0] in m then Restore(m[keys[0]], keys[1..]) else None
  }

  /** At every depth, what was saved is restored. */
  lemma {:induction false} NestedRoundTrip(t: Tree, path: seq<nat>)
    requires WellFormed(t) && HasPath(t, path)
    ensures Restore(Show(t), Keys(t, path)) == Some(Show(At(t, path)))
    decreases |path|
  {
    if path != [] {
      var cs, child := t.children, t.children[path[0]];
      var es := ShowAll(cs);
      var m := AsMap(es);
      hide Parse, Show, Closed;
      AsMapEnumerates(es);
      NodeRoundTrip(cs, m);
      assert es[path[0]] == Entry(child.key, Show(child.tree));
      NestedRoundTrip(child.tree, path[1..]);
      assert Keys(t, path)[1..] == Keys(child.tree, path[1..]);
    }
  }

  function AsMap(es: seq<Entry>): map<string, string> { Update(map[], es) }

  lemma AsMapEnumerates(es: seq<Entry>)
    requires DistinctKeys(es)
    ensures Enumerates(es, AsMap(es))
  {
    var m := AsMap(es);
    forall k ensures k in m <==> HasKey(es, k) { UpdateAt(map[], es, k); }
    forall i | 0 <= i < |es| ensures es[i].key in m && m[es[i].key] == es[i].value {
      UpdateAt(map[], es, es[i].key);
    }
    hide Update, HasKey;
  }
}
