/**
  Header attributes as talk/base/httpcommon.cc parses and quotes them.

  `Attributes` says what a text means; `HttpParseAttributes` computes it in
  place with one moving position.  Quoted attributes read back for every value,
  and `RoundTripIff` says for which names.  `DigestReadsBack` applies this to
  the text that answers a Digest challenge.
*/
module Attributes {
  import opened Prelude

  datatype Attribute = Attribute(name: string, value: string)

  // ---------------------------------------------------------------------
  // What a text means
  // ---------------------------------------------------------------------

  /** A trailing equals sign belongs to the name, as in a base64 token. */
  predicate AtEndOfName(s: string) {
    s == "" || IsSpace(s[0]) || (|s| > 1 && s[0] == '=' && !IsSpace(s[1]) && s[1] != '=')
  }

  function SkipSpaces(s: string): (r: string)
    ensures |r| <= |s| && (r != "" ==> !IsSpace(r[0]))
  {
    if s != "" && IsSpace(s[0]) then SkipSpaces(s[1..]) else s
  }

  function Name(s: string): (r: (string, string))
    ensures s == r.0 + r.1 && AtEndOfName(r.1)
  {
    if AtEndOfName(s) then ("", s)
    else
      var (name, rest) := Name(s[1..]);
      ([s[0]] + name, rest)
  }

  /** The value and the rest, after the opening quotation mark. */
  function Quoted(s: string): (r: (string, string))
    ensures |r.1| <= |s|
  {
    if s == "" then ("", "")
    else if s[0] == '"' then ("", s[1..])
    else if s[0] == '\\' && |s| > 1 then
      var (value, rest) := Quoted(s[2..]);
      ([s[1]] + value, rest)
    else
      var (value, rest) := Quoted(s[1..]);
      ([s[0]] + value, rest)
  }

  function Bare(s: string): (r: (string, string))
    ensures s == r.0 + r.1
  {
    if s == "" || IsSpace(s[0]) || s[0] == ',' then ("", s)
    else
      var (value, rest) := Bare(s[1..]);
      ([s[0]] + value, rest)
  }

  function Value(s: string): (r: (string, string))
    ensures |r.1| <= |s|
  {
    if s == "" || s[0] != '=' then ("", s)
    else if |s| > 1 && s[1] == '"' then Quoted(s[2..])
    else Bare(s[1..])
  }

  function SkipComma(s: string): string { if s != "" && s[0] == ',' then s[1..] else s }

  function Attributes(s: string): seq<Attribute>
    decreases |s|
  {
    var t := SkipSpaces(s);
    if t == "" then []
    else
      var (name, after) := Name(t);
      var (value, rest) := Value(after);
      [Attribute(name, value)] + Attributes(SkipComma(rest))
  }

  // ---------------------------------------------------------------------
  // The parser
  // ---------------------------------------------------------------------

  method IsEndOfAttributeName(pos: nat, data: string) returns (end: bool)
    ensures end <==> pos >= |data| || AtEndOfName(data[pos..])
  {
    if pos >= |data| { return true; }
    if IsSpace(data[pos]) { return true; }
    if pos + 1 < |data| && data[pos] == '=' && !IsSpace(data[pos + 1]) && data[pos + 1] != '=' { return true; }
    return false;
  }

  lemma Moved<T>(xs: seq<T>, x: T, ys: seq<T>)
    ensures xs + ([x] + ys) == xs + [x] + ys
  {
  }

  lemma NameStep(data: string, pos: nat)
    requires pos < |data| && !AtEndOfName(data[pos..])
    ensures Name(data[pos..]).0 == [data[pos]] + Name(data[pos + 1..]).0
    ensures Name(data[pos..]).1 == Name(data[pos + 1..]).1
  {
  }

  lemma NameEnd(s: string)
    requires s == "" || AtEndOfName(s)
    ensures AtEndOfName(s) && Name(s).0 == "" && Name(s).1 == s
  {
  }

  method ParseName(data: string, start: nat) returns (pos: nat)
    requires start <= |data|
    ensures start <= pos <= |data|
    ensures data[start..pos] == Name(data[start..]).0 && data[pos..] == Name(data[start..]).1
  {
    hide Name, AtEndOfName;
    pos := start;
    ghost var all := Name(data[start..]);
    while true
      invariant start <= pos <= |data|
      invariant all.0 == data[start..pos] + Name(data[pos..]).0 && all.1 == Name(data[pos..]).1
      decreases |data| - pos
    {
      var end := IsEndOfAttributeName(pos, data);
      if end {
        NameEnd(data[pos..]);
        return;
      }
      NameStep(data, pos);
      Moved(data[start..pos], data[pos], Name(data[pos + 1..]).0);
      pos := pos + 1;
      assert data[start..pos - 1] + [data[pos - 1]] == data[start..pos];
    }
  }

  lemma QuotedStep(data: string, pos: nat)
    requires pos < |data|
    ensures var (value, rest) := Quoted(data[pos..]);
            if data[pos] == '"' then value == "" && rest == data[pos + 1..]
            else
              var skip := if data[pos] == '\\' && pos + 1 < |data| then pos + 1 else pos;
              value == [data[skip]] + Quoted(data[skip + 1..]).0 && rest == Quoted(data[skip + 1..]).1
  {
  }

  /** From the opening quotation mark. */
  method ParseQuoted(data: string, start: nat) returns (value: string, pos: nat)
    requires start < |data|
    ensures start < pos <= |data|
    ensures value == Quoted(data[start + 1..]).0 && data[pos..] == Quoted(data[start + 1..]).1
  {
    pos := start + 1;
    value := "";
    while pos < |data|
      invariant start < pos <= |data|
      invariant Quoted(data[start + 1..]).0 == value + Quoted(data[pos..]).0
      invariant Quoted(data[start + 1..]).1 == Quoted(data[pos..]).1
    {
      QuotedStep(data, pos);
      hide Quoted;
      if data[pos] == '"' {
        pos := pos + 1;
        return;
      }
      if data[pos] == '\\' && pos + 1 < |data| {
        pos := pos + 1;
      }
      Moved(value, data[pos], Quoted(data[pos + 1..]).0);
      value := value + [data[pos]];
      pos := pos + 1;
    }
  }

  lemma BareStep(data: string, pos: nat)
    requires pos < |data| && !IsSpace(data[pos]) && data[pos] != ','
    ensures Bare(data[pos..]).0 == [data[pos]] + Bare(data[pos + 1..]).0
    ensures Bare(data[pos..]).1 == Bare(data[pos + 1..]).1
  {
  }

  lemma BareEnd(s: string)
    requires s == "" || IsSpace(s[0]) || s[0] == ','
    ensures Bare(s).0 == "" && Bare(s).1 == s
  {
  }

  method ParseBare(data: string, start: nat) returns (value: string, pos: nat)
    requires start <= |data|
    ensures start <= pos <= |data| && value == Bare(data[start..]).0 && data[pos..] == Bare(data[start..]).1
  {
    hide Bare;
    pos := start;
    value := "";
    ghost var all := Bare(data[start..]);
    while pos < |data| && !IsSpace(data[pos]) && data[pos] != ','
      invariant start <= pos <= |data|
      invariant all.0 == value + Bare(data[pos..]).0 && all.1 == Bare(data[pos..]).1
    {
      BareStep(data, pos);
      Moved(value, data[pos], Bare(data[pos + 1..]).0);
      value := value + [data[pos]];
      pos := pos + 1;
    }
    BareEnd(data[pos..]);
  }

  method ParseValue(data: string, start: nat) returns (value: string, pos: nat)
    requires start <= |data|
    ensures start <= pos <= |data| && value == Value(data[start..]).0 && data[pos..] == Value(data[start..]).1
    ensures start < |data| && data[start] == '=' ==> start < pos
  {
    value := "";
    pos := start;
    if pos < |data| && data[pos] == '=' {
      pos := pos + 1;
      assert data[start..][1..] == data[pos..];
      if pos < |data| && data[pos] == '"' {
        assert data[start..][2..] == data[pos + 1..];
        value, pos := ParseQuoted(data, pos);
      } else {
        value, pos := ParseBare(data, pos);
      }
    }
  }

  method SkipSpace(data: string, start: nat) returns (pos: nat)
    requires start <= |data|
    ensures start <= pos <= |data| && data[pos..] == SkipSpaces(data[start..])
  {
    pos := start;
    while pos < |data| && IsSpace(data[pos])
      invariant start <= pos <= |data|
      invariant SkipSpaces(data[start..]) == SkipSpaces(data[pos..])
    {
      assert data[pos..][1..] == data[pos + 1..];
      pos := pos + 1;
    }
  }

  lemma AttributesSkip(s: string)
    ensures Attributes(s) == Attributes(SkipSpaces(s))
  {
  }

  lemma NoAttributes()
    ensures Attributes("") == []
  {
  }

  /** An attribute between start and next, and perhaps a comma. */
  lemma AttributesStep(data: string, start: nat, end: nat, next: nat)
    requires start < |data| && start <= end <= next <= |data| && !IsSpace(data[start])
    requires data[start..end] == Name(data[start..]).0 && data[end..] == Name(data[start..]).1
    requires data[next..] == Value(data[end..]).1
    ensures Attributes(data[start..]) ==
              [Attribute(data[start..end], Value(data[end..]).0)] + Attributes(SkipComma(data[next..]))
  {
  }

  /** The part of the loop behind the leading white space. */
  method ParseAttribute(data: string, start: nat) returns (attribute: Attribute, pos: nat)
    requires start < |data| && !IsSpace(data[start])
    ensures start < pos <= |data|
    ensures Attributes(data[start..]) == [attribute] + Attributes(data[pos..])
  {
    hide Attributes, Name, Value, AtEndOfName, SkipSpaces;
    var end := ParseName(data, start);
    var value, next := ParseValue(data, end);
    AttributesStep(data, start, end, next);
    ParsedSomething(data, start, end, next);
    attribute := Attribute(data[start..end], value);
    pos := next;
    if pos < |data| && data[pos] == ',' {
      pos := pos + 1;
    }
    assert data[pos..] == SkipComma(data[next..]);
  }

  /** The attributes are appended to those already there. */
  method HttpParseAttributes(data: string, before: seq<Attribute>) returns (attributes: seq<Attribute>)
    ensures attributes == before + Attributes(data)
  {
    var pos := 0;
    attributes := before;
    ghost var all := before + Attributes(data);
    assert data[0..] == data;
    hide Attributes, SkipSpaces;
    while true
      invariant pos <= |data|
      invariant all == attributes + Attributes(data[pos..])
      decreases |data| - pos
    {
      AttributesSkip(data[pos..]);
      pos := SkipSpace(data, pos);
      if pos >= |data| {
        NoAttributes();
        return;
      }
      var attribute, next := ParseAttribute(data, pos);
      Moved(attributes, attribute, Attributes(data[next..]));
      attributes := attributes + [attribute];
      pos := next;
    }
  }

  /** Every turn consumes something: the parser ends. */
  lemma ParsedSomething(data: string, start: nat, end: nat, next: nat)
    requires start < |data| && start <= end <= next <= |data| && !IsSpace(data[start])
    requires data[start..end] == Name(data[start..]).0
    requires end < |data| && data[end] == '=' ==> end < next
    ensures start < next
  {
  }

  // ---------------------------------------------------------------------
  // Quoting
  // ---------------------------------------------------------------------

  function Escape(s: string): string {
    if s == "" then ""
    else EscapeOne(s[0]) + Escape(s[1..])
  }

  function EscapeOne(c: char): string { if c == '"' || c == '\\' then ['\\', c] else [c] }

  function Quote(s: string): string { ['"'] + Escape(s) + ['"'] }

  lemma {:induction false} EscapeAppends(s: string, t: string)
    ensures Escape(s + t) == Escape(s) + Escape(t)
  {
    hide EscapeOne;
    if s == "" {
      assert s + t == t;
    } else {
      EscapeAppends(s[1..], t);
      assert (s + t)[1..] == s[1..] + t;
      assert Escape(s + t) == EscapeOne(s[0]) + Escape(s[1..] + t);
      assert Escape(s) == EscapeOne(s[0]) + Escape(s[1..]);
      hide Escape;
    }
  }

  lemma NoEscape()
    ensures Escape("") == ""
  {
  }

  lemma EscapeNext(s: string, i: nat)
    requires i < |s|
    ensures Escape(s[..i + 1]) == Escape(s[..i]) + EscapeOne(s[i])
  {
    EscapeAppends(s[..i], [s[i]]);
    assert s[..i] + [s[i]] == s[..i + 1];
    assert Escape([s[i]]) == EscapeOne(s[i]);
  }

  method quote(str: string) returns (result: string)
    ensures result == Quote(str)
  {
    hide Escape;
    result := ['"'];
    NoEscape();
    for i := 0 to |str|
      invariant result == ['"'] + Escape(str[..i])
    {
      EscapeNext(str, i);
      if str[i] == '"' || str[i] == '\\' {
        result := result + ['\\'];
      }
      result := result + [str[i]];
    }
    assert str[..|str|] == str;
    result := result + ['"'];
  }

  /** Every string is read back from between its quotation marks, whatever follows. */
  lemma {:induction false} QuotedReadsBack(value: string, rest: string)
    ensures Quoted(Escape(value) + ['"'] + rest).0 == value && Quoted(Escape(value) + ['"'] + rest).1 == rest
  {
    var s := Escape(value) + ['"'] + rest;
    if value == "" {
      assert s[1..] == rest;
    } else {
      QuotedReadsBack(value[1..], rest);
      EscapedCharacter(value[0], Escape(value[1..]), rest);
      assert Escape(value) == EscapeOne(value[0]) + Escape(value[1..]);
      hide *;
      assert [value[0]] + value[1..] == value;
    }
  }

  lemma EscapedCharacter(c: char, escaped: string, rest: string)
    ensures var (value, after) := Quoted(escaped + ['"'] + rest);
            Quoted((EscapeOne(c) + escaped) + ['"'] + rest) == ([c] + value, after)
  {
    var special := c == '"' || c == '\\';
    var slash := if special then "\\" else "";
    assert EscapeOne(c) == slash + [c];
    hide Quoted, EscapeOne;
    EscapedFirst(slash, c, escaped, rest);
    QuotedChar(Part(c, special), slash, escaped + ['"'] + rest);
  }

  lemma EscapedFirst(slash: string, c: char, escaped: string, rest: string)
    ensures ((slash + [c]) + escaped) + ['"'] + rest == slash + ([c] + (escaped + ['"'] + rest))
  {
  }

  /** Only quotation marks and backslashes are escaped. */
  lemma {:induction false} QuotePlain(s: string)
    requires '"' !in s && '\\' !in s
    ensures Quote(s) == "\"" + s + "\""
  {
    PlainEscape(s);
  }

  lemma {:induction false} PlainEscape(s: string)
    requires '"' !in s && '\\' !in s
    ensures Escape(s) == s
  {
    if s != "" { PlainEscape(s[1..]); }
  }

  /** A part of what stands between quotation marks: a character, perhaps with a backslash in front. */
  datatype Part = Part(c: char, escaped: bool)

  function Written(parts: seq<Part>): string {
    if parts == [] then ""
    else (if parts[0].escaped then "\\" else "") + ([parts[0].c] + Written(parts[1..]))
  }

  function Meant(parts: seq<Part>): string { if parts == [] then "" else [parts[0].c] + Meant(parts[1..]) }

  /**
    A backslash stands for the character behind it, whatever that is, the first
    mark without one ends the value, and a value without such a mark is the rest
    of the text.
  */
  lemma {:induction false} QuotedMeans(parts: seq<Part>, rest: string)
    requires forall i :: 0 <= i < |parts| && !parts[i].escaped ==> parts[i].c != '"' && parts[i].c != '\\'
    ensures Quoted(Written(parts) + ("\"" + rest)).0 == Meant(parts)
    ensures Quoted(Written(parts) + ("\"" + rest)).1 == rest
    ensures Quoted(Written(parts)) == (Meant(parts), "")
    ensures Quoted(Written(parts) + "\\") == (Meant(parts) + "\\", "")
    decreases |parts|
  {
    var marked := "\"" + rest;
    assert marked[1..] == rest;
    if parts == [] {
      assert "" + marked == marked && "" + "\\" == "\\";
      QuotedEnd(rest);
    } else {
      QuotedMeans(parts[1..], rest);
      QuotedPart(parts, marked);
      QuotedPart(parts, "");
      QuotedPart(parts, "\\");
      assert Written(parts) + "" == Written(parts) && Written(parts[1..]) + "" == Written(parts[1..]);
      hide Quoted, Written;
      assert [parts[0].c] + (Meant(parts[1..]) + "\\") == Meant(parts) + "\\";
    }
  }

  lemma QuotedPart(parts: seq<Part>, end: string)
    requires parts != [] && (!parts[0].escaped ==> parts[0].c != '"' && parts[0].c != '\\')
    ensures var (value, rest) := Quoted(Written(parts[1..]) + end);
            Quoted(Written(parts) + end) == ([parts[0].c] + value, rest)
  {
    var slash, tail := if parts[0].escaped then "\\" else "", Written(parts[1..]) + end;
    assert Written(parts) + end == slash + ([parts[0].c] + tail);
    hide Written;
    QuotedChar(parts[0], slash, tail);
  }

  lemma QuotedChar(part: Part, slash: string, tail: string)
    requires slash == (if part.escaped then "\\" else "") && (part.escaped || (part.c != '"' && part.c != '\\'))
    ensures Quoted(slash + ([part.c] + tail)) == ([part.c] + Quoted(tail).0, Quoted(tail).1)
  {
    var s := slash + ([part.c] + tail);
    if part.escaped {
      assert s[0] == '\\' && s[1] == part.c && s[2..] == tail;
    } else {
      assert s[0] == part.c && s[1..] == tail;
    }
  }

  lemma QuotedEnd(rest: string)
    ensures Quoted("") == ("", "") && Quoted("\"" + rest) == ("", rest) && Quoted("\\") == ("\\", "")
  {
    var slash := "\\";
    assert ("\"" + rest)[1..] == rest && slash[1..] == "" && Quoted(slash[1..]) == ("", "");
    assert [slash[0]] + "" == slash;
  }

  // ---------------------------------------------------------------------
  // Attributes that are written read back
  // ---------------------------------------------------------------------

  /** How an attribute is written: in quotation marks or not. */
  datatype Item = Item(attribute: Attribute, quoted: bool)

  function AfterName(i: Item): string { ['='] + if i.quoted then Quote(i.attribute.value) else i.attribute.value }

  function ItemText(i: Item): string { i.attribute.name + AfterName(i) }

  /** Joined by a comma and a space. */
  function Join(items: seq<Item>): string
    decreases |items|, 0
  {
    if items == [] then "" else ItemText(items[0]) + Tail(items[1..])
  }

  function Tail(items: seq<Item>): (s: string)
    ensures s == "" || s[0] == ','
    ensures SkipComma(s) == if items == [] then "" else " " + Join(items)
    decreases |items|, 1
  {
    if items == [] then "" else ", " + Join(items)
  }

  function AttributesOf(items: seq<Item>): (r: seq<Attribute>)
    ensures |r| == |items| && forall i :: 0 <= i < |r| ==> r[i] == items[i].attribute
  {
    if items == [] then [] else [items[0].attribute] + AttributesOf(items[1..])
  }

  /** No white space, and equals signs only at the end. */
  predicate GoodName(name: string) {
    forall i :: 0 <= i < |name| ==>
      && !IsSpace(name[i])
      && (name[i] == '=' && i + 1 < |name| ==> name[i + 1] == '=')
  }

  /** What can be written without quotation marks. */
  predicate GoodBare(value: string) {
    && value != "" && value[0] != '=' && value[0] != '"'
    && forall i :: 0 <= i < |value| ==> !IsSpace(value[i]) && value[i] != ','
  }

  predicate Good(i: Item) {
    GoodName(i.attribute.name) && (i.quoted || GoodBare(i.attribute.value))
  }

  predicate AllGood(items: seq<Item>) { forall i :: 0 <= i < |items| ==> Good(items[i]) }

  /** A name is read up to where it is written. */
  lemma {:induction false} NameReadsBack(name: string, rest: string)
    requires GoodName(name) && AtEndOfName(rest)
    requires name != "" ==> rest == "" || IsSpace(rest[0]) || rest[0] == '='
    ensures Name(name + rest).0 == name && Name(name + rest).1 == rest
  {
    if name == "" {
      assert name + rest == rest;
    } else {
      var s := name + rest;
      assert s[1..] == name[1..] + rest;
      NameReadsBack(name[1..], rest);
    }
  }

  lemma {:induction false} BareReadsBack(value: string, rest: string)
    requires forall i :: 0 <= i < |value| ==> !IsSpace(value[i]) && value[i] != ','
    requires rest == "" || rest[0] == ',' || IsSpace(rest[0])
    ensures Bare(value + rest).0 == value && Bare(value + rest).1 == rest
  {
    if value == "" {
      assert value + rest == rest;
    } else {
      BareReadsBack(value[1..], rest);
      assert (value + rest)[1..] == value[1..] + rest;
    }
  }

  lemma QuotedValue(value: string, after: string, rest: string)
    requires after == ['='] + Quote(value) + rest
    ensures AtEndOfName(after) && after[0] == '=' && Value(after) == (value, rest)
  {
    QuotedReadsBack(value, rest);
    var inside := Escape(value) + ['"'] + rest;
    hide Quoted, Escape;
    assert after == ['=', '"'] + inside;
    assert after[2..] == inside;
  }

  lemma BareValue(value: string, after: string, rest: string)
    requires GoodBare(value) && (rest == "" || rest[0] == ',' || IsSpace(rest[0]))
    requires after == ['='] + value + rest
    ensures AtEndOfName(after) && after[0] == '=' && Value(after) == (value, rest)
  {
    BareReadsBack(value, rest);
    hide Bare;
    assert after == ['='] + (value + rest);
    assert after[1..] == value + rest && after[1] == value[0];
  }

  /** Behind a quoted value anything may follow, behind a bare one a comma or white space; one comma is skipped. */
  lemma ItemReadsBack(i: Item, rest: string)
    requires Good(i) && (i.quoted || rest == "" || rest[0] == ',' || IsSpace(rest[0]))
    ensures Attributes(ItemText(i) + rest) ==
            [i.attribute] + Attributes(if rest != "" && rest[0] == ',' then rest[1..] else rest)
  {
    var a, text := i.attribute, AfterName(i);
    var after := text + rest;
    if i.quoted { QuotedValue(a.value, after, rest); } else { BareValue(a.value, after, rest); }
    Associate(a.name, text, rest);
    hide AfterName, Value, AtEndOfName, GoodBare, GoodName, Attributes;
    NamedValue(a, after, rest);
  }

  lemma Associate(name: string, text: string, rest: string)
    ensures name + text + rest == name + (text + rest)
  {
  }

  lemma NamedValue(a: Attribute, after: string, rest: string)
    requires GoodName(a.name) && after != "" && after[0] == '=' && AtEndOfName(after)
    requires Value(after) == (a.value, rest)
    ensures Attributes(a.name + after) ==
            [a] + Attributes(if rest != "" && rest[0] == ',' then rest[1..] else rest)
  {
    var s := a.name + after;
    assert s[0] == if a.name == "" then '=' else a.name[0];
    hide Value, AtEndOfName;
    NameReadsBack(a.name, after);
    hide Name;
    FirstAttribute(s, a, after, rest);
  }

  lemma FirstAttribute(s: string, a: Attribute, after: string, rest: string)
    requires s != "" && !IsSpace(s[0]) && Name(s) == (a.name, after) && Value(after) == (a.value, rest)
    ensures Attributes(s) == [a] + Attributes(if rest != "" && rest[0] == ',' then rest[1..] else rest)
  {
    assert SkipSpaces(s) == s;
    hide Name, Value, SkipSpaces;
    assert a == Attribute(a.name, a.value);
  }

  /** Whatever is written is read, after a space or at the start. */
  lemma {:induction false} JoinReadsBack(items: seq<Item>)
    requires AllGood(items)
    ensures Attributes(Join(items)) == AttributesOf(items)
    ensures Attributes(" " + Join(items)) == AttributesOf(items)
  {
    hide Good, ItemText, Attributes;
    if items == [] {
      NoAttributes();
    } else {
      JoinReadsBack(items[1..]);
      NoAttributes();
      ItemReadsBack(items[0], Tail(items[1..]));
      assert Attributes(SkipComma(Tail(items[1..]))) == AttributesOf(items[1..]) by { hide Tail; }
    }
    SpaceFirst(Join(items));
  }

  lemma SpaceFirst(s: string)
    ensures Attributes(" " + s) == Attributes(s)
  {
  }

  function Quotes(attributes: seq<Attribute>): (items: seq<Item>)
    ensures |items| == |attributes|
    ensures forall i :: 0 <= i < |items| ==> items[i] == Item(attributes[i], true)
  {
    if attributes == [] then [] else [Item(attributes[0], true)] + Quotes(attributes[1..])
  }

  /** A parsed name never holds white space, nor an equals sign before another character. */
  lemma {:induction false} ParsedNameIsGood(s: string)
    ensures GoodName(Name(s).0)
  {
    if !AtEndOfName(s) {
      ParsedNameIsGood(s[1..]);
      var name := Name(s).0;
      assert name == [s[0]] + name[1..];
      if |name| > 1 { assert s[1] == name[1]; }
    }
  }

  lemma {:induction false} ParsedNamesAreGood(s: string)
    ensures forall i :: 0 <= i < |Attributes(s)| ==> GoodName(Attributes(s)[i].name)
    decreases |s|
  {
    var t := SkipSpaces(s);
    if t != "" {
      var (name, after) := Name(t);
      var (value, rest) := Value(after);
      ParsedNameIsGood(t);
      ParsedNamesAreGood(SkipComma(rest));
    }
  }

  /** Quoted attributes read back, for all values, exactly if the names are good. */
  lemma RoundTripIff(attributes: seq<Attribute>)
    ensures Attributes(Join(Quotes(attributes))) == attributes
            <==> forall i :: 0 <= i < |attributes| ==> GoodName(attributes[i].name)
  {
    hide Attributes, Join, GoodName;
    var s := Join(Quotes(attributes));
    if forall i :: 0 <= i < |attributes| ==> GoodName(attributes[i].name) {
      JoinReadsBack(Quotes(attributes));
      assert AttributesOf(Quotes(attributes)) == attributes;
    }
    ParsedNamesAreGood(s);
  }

  // ---------------------------------------------------------------------
  // The answer to a Digest challenge
  // ---------------------------------------------------------------------

  datatype Digest = Digest(username: string, realm: string, nonce: string, uri: string,
                           cnonce: Option<string>, response: string, opaq: Option<string>)

  /** As HttpAuthenticate writes it; cnonce is present if the challenge has a qop. */
  function DigestItems(d: Digest): seq<Item> {
    [Item(Attribute("username", d.username), true),
     Item(Attribute("realm", d.realm), true),
     Item(Attribute("nonce", d.nonce), true),
     Item(Attribute("uri", d.uri), true)]
    + (if d.cnonce.None? then [] else
         [Item(Attribute("qop", "auth"), false),
          Item(Attribute("nc", "00000001"), false),
          Item(Attribute("cnonce", d.cnonce.value), true)])
    + [Item(Attribute("response", d.response), true)]
    + (if d.opaq.None? then [] else [Item(Attribute("opaque", d.opaq.value), true)])
  }

  lemma DigestGood(d: Digest)
    ensures AllGood(DigestItems(d))
  {
    assert GoodBare("auth") && GoodBare("00000001");
    hide GoodBare;
    assert GoodName("username") && GoodName("realm") && GoodName("nonce") && GoodName("uri");
    assert GoodName("qop") && GoodName("nc") && GoodName("cnonce") && GoodName("response") && GoodName("opaque");
    hide GoodName;
  }

  lemma SchemeReadsBack(scheme: string, text: string)
    requires scheme != "" && forall i :: 0 <= i < |scheme| ==> !IsSpace(scheme[i]) && scheme[i] != '='
    ensures Attributes(scheme + " " + text) == [Attribute(scheme, "")] + Attributes(text)
  {
    var rest := " " + text;
    var s := scheme + rest;
    assert s == scheme + " " + text;
    SpaceFirst(text);
    NameReadsBack(scheme, rest);
    assert SkipSpaces(s) == s by { hide Name, Value, SkipComma, Attributes; }
    assert Value(rest).0 == "" && Value(rest).1 == rest;
    assert SkipComma(rest) == rest;
    hide Name, Value, SkipSpaces, SkipComma;
  }

  /** The scheme and every attribute can be read back, whatever the user name or realm contains. */
  lemma DigestReadsBack(scheme: string, d: Digest)
    requires scheme != "" && forall i :: 0 <= i < |scheme| ==> !IsSpace(scheme[i]) && scheme[i] != '='
    ensures Attributes(scheme + " " + Join(DigestItems(d))) == [Attribute(scheme, "")] + (
      [Attribute("username", d.username), Attribute("realm", d.realm), Attribute("nonce", d.nonce),
       Attribute("uri", d.uri)]
      + (if d.cnonce.None? then [] else
           [Attribute("qop", "auth"), Attribute("nc", "00000001"), Attribute("cnonce", d.cnonce.value)])
      + [Attribute("response", d.response)]
      + (if d.opaq.None? then [] else [Attribute("opaque", d.opaq.value)]))
  {
    var items := DigestItems(d);
    DigestGood(d);
    DigestAttributes(d);
    hide *;
    SchemeAndItems(scheme, items);
  }

  lemma SchemeAndItems(scheme: string, items: seq<Item>)
    requires scheme != "" && forall i :: 0 <= i < |scheme| ==> !IsSpace(scheme[i]) && scheme[i] != '='
    requires AllGood(items)
    ensures Attributes(scheme + " " + Join(items)) == [Attribute(scheme, "")] + AttributesOf(items)
  {
    hide *;
    JoinReadsBack(items);
    SchemeReadsBack(scheme, Join(items));
  }

  lemma DigestAttributes(d: Digest)
    ensures AttributesOf(DigestItems(d)) ==
      [Attribute("username", d.username), Attribute("realm", d.realm), Attribute("nonce", d.nonce),
       Attribute("uri", d.uri)]
      + (if d.cnonce.None? then [] else
           [Attribute("qop", "auth"), Attribute("nc", "00000001"), Attribute("cnonce", d.cnonce.value)])
      + [Attribute("response", d.response)]
      + (if d.opaq.None? then [] else [Attribute("opaque", d.opaq.value)])
  {
    hide AttributesOf;
  }
}
