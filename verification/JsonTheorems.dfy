// The encoder is undone by the decoder, so equal texts are equal values.
module JsonTheorems {
  import opened Text
  import opened Json

  /* Values that decoding yields */

  predicate IsNumber(literal: string) {
    literal != "" && ScanNumber(Start, literal) == Done(literal, "")
  }

  ghost predicate WellFormed(v: Json) {
    match v
    case Num(literal) => IsNumber(literal)
    case Arr(items) => forall x :: x in items ==> WellFormed(x)
    case Obj(fields) => forall k :: k in fields ==> WellFormed(fields[k])
    case _ => true
  }

  // No more than `depth` arrays and objects inside one another.
  ghost predicate Nests(v: Json, depth: nat) {
    match v
    case Arr(items) => depth > 0 && forall x :: x in items ==> Nests(x, depth - 1)
    case Obj(fields) => depth > 0 && forall k :: k in fields ==> Nests(fields[k], depth - 1)
    case _ => true
  }

  /* Numbers */

  predicate Continues(c: char) {
    IsDigit(c) || c == '-' || c == '+' || c == '.' || c == 'e' || c == 'E'
  }

  // A text no number literal runs on into.
  predicate Stops(rest: string) {
    rest == "" || !Continues(rest[0])
  }

  lemma {:induction false} ScanStops(state: NumberState, literal: string, rest: string)
    requires ScanNumber(state, literal) == Done(literal, "") && Stops(rest)
    ensures ScanNumber(state, literal + rest) == Done(literal, rest)
    decreases |literal|
  {
    if literal == "" {
      assert literal + rest == rest;
    } else {
      var next := Next(state, literal[0]).value;
      assert literal == [literal[0]] + literal[1..];
      assert (literal + rest)[1..] == literal[1..] + rest;
      ScanStops(next, literal[1..], rest);
    }
  }

  lemma {:induction false} ScannedIsComplete(state: NumberState, s: string)
    requires ScanNumber(state, s).Done?
    ensures var literal := ScanNumber(state, s).value; ScanNumber(state, literal) == Done(literal, "")
    decreases |s|
  {
    if s != "" && Next(state, s[0]).Some? {
      ScannedIsComplete(Next(state, s[0]).value, s[1..]);
      var literal := ScanNumber(state, s).value;
      assert literal[1..] == ScanNumber(Next(state, s[0]).value, s[1..]).value;
    }
  }

  /* Strings */

  lemma HexRoundTrip(n: nat)
    requires n < 16
    ensures HexValue(HexDigit(n)) == Some(n)
  {
  }

  lemma FourHexDigits(n: nat)
    requires n < 0x10000
    ensures n / 4096 < 16
    ensures n / 4096 * 4096 + n / 256 % 16 * 256 + n / 16 % 16 * 16 + n % 16 == n
  {
    assert n / 16 == n / 256 * 16 + n / 16 % 16;
    assert n / 256 == n / 4096 * 16 + n / 256 % 16;
  }

  lemma {:induction false} CodeUnitRoundTrip(n: nat, rest: string)
    requires n < 0x10000
    ensures CodeUnit(UnicodeEscape(n) + rest) == Some(n)
  {
    var a, b, c, d := n / 4096, n / 256 % 16, n / 16 % 16, n % 16;
    FourHexDigits(n);
    HexRoundTrip(a);
    HexRoundTrip(b);
    HexRoundTrip(c);
    HexRoundTrip(d);
    var s := UnicodeEscape(n) + rest;
    assert s[0] == '\\' && s[1] == 'u' && s[2] == HexDigit(a) && s[3] == HexDigit(b) && s[4] == HexDigit(c) && s[5] == HexDigit(d);
  }

  lemma {:induction false} UnicodeEscapeRoundTrip(n: nat, rest: string)
    requires n < 0xD800
    ensures UnescapeUnit(UnicodeEscape(n) + rest) == Done(n as char, rest)
  {
    CodeUnitRoundTrip(n, rest);
    assert (UnicodeEscape(n) + rest)[6..] == rest;
  }

  lemma ShortEscapeRoundTrip(c: char, rest: string)
    requires |EscapeChar(c)| <= 2
    ensures UnescapeChar(EscapeChar(c) + rest) == Done(c, rest)
  {
    var s := EscapeChar(c) + rest;
    assert s[|EscapeChar(c)|..] == rest;
  }

  lemma {:induction false} LongEscapeRoundTrip(c: char, rest: string)
    requires |EscapeChar(c)| > 2
    ensures UnescapeChar(EscapeChar(c) + rest) == Done(c, rest)
  {
    var s := UnicodeEscape(c as nat) + rest;
    assert EscapeChar(c) == UnicodeEscape(c as nat);
    UnicodeEscapeRoundTrip(c as nat, rest);
    assert s[0] == '\\' && s[1] == 'u';
  }

  lemma {:induction false} EscapeCharRoundTrip(c: char, rest: string)
    ensures EscapeChar(c) != "" && EscapeChar(c)[0] != '"'
    ensures UnescapeChar(EscapeChar(c) + rest) == Done(c, rest)
  {
    if |EscapeChar(c)| <= 2 {
      ShortEscapeRoundTrip(c, rest);
    } else {
      LongEscapeRoundTrip(c, rest);
    }
  }

  lemma {:induction false} EscapeRoundTrip(s: string, rest: string)
    ensures ParseString(Escape(s) + (['"'] + rest)) == Done(s, rest)
  {
    if s == "" {
      assert "" + (['"'] + rest) == ['"'] + rest;
      TailOfCons('"', rest);
    } else {
      var tail := Escape(s[1..]) + (['"'] + rest);
      AppendIsAssociative(EscapeChar(s[0]), Escape(s[1..]), ['"'] + rest);
      EscapeRoundTrip(s[1..], rest);
      UnescapeFirst(s[0], tail);
      assert s == [s[0]] + s[1..];
    }
  }

  lemma {:induction false} UnescapeFirst(c: char, tail: string)
    requires ParseString(tail).Done?
    ensures ParseString(EscapeChar(c) + tail) == Done([c] + ParseString(tail).value, ParseString(tail).rest)
  {
    EscapeCharRoundTrip(c, tail);
    assert (EscapeChar(c) + tail)[0] == EscapeChar(c)[0];
  }

  lemma {:induction false} QuoteRoundTrip(s: string, rest: string)
    ensures Quote(s) + rest == ['"'] + (Escape(s) + (['"'] + rest))
    ensures ParseString((Quote(s) + rest)[1..]) == Done(s, rest)
  {
    AppendIsAssociative(['"'], Escape(s) + ['"'], rest);
    AppendIsAssociative(Escape(s), ['"'], rest);
    TailOfCons('"', Escape(s) + (['"'] + rest));
    EscapeRoundTrip(s, rest);
  }

  /* Rendered values */

  // The text decodes to the value, whatever follows it.
  ghost predicate Renders(text: string, v: Json, depth: nat) {
    text != "" && !IsSpace(text[0]) && text[0] != ']' && text[0] != '}' &&
    forall rest :: Stops(rest) ==> ParseValue(text + rest, depth) == Done(v, rest)
  }

  lemma StringRenders(s: string, depth: nat)
    ensures Renders(Quote(s), Str(s), depth)
  {
    forall rest | Stops(rest) ensures ParseValue(Quote(s) + rest, depth) == Done(Str(s), rest) {
      QuoteRoundTrip(s, rest);
    }
  }

  lemma NumberRenders(literal: string, depth: nat)
    requires IsNumber(literal)
    ensures Renders(literal, Num(literal), depth)
  {
    assert Next(Start, literal[0]).Some?;
    forall rest | Stops(rest) ensures ParseValue(literal + rest, depth) == Done(Num(literal), rest) {
      ScanStops(Start, literal, rest);
      assert (literal + rest)[0] == literal[0];
    }
  }

  lemma LiteralRenders(literal: string, v: Json, depth: nat)
    requires (literal == "null" && v == Null) || (literal == "true" && v == Bool(true)) || (literal == "false" && v == Bool(false))
    ensures Renders(literal, v, depth)
  {
    forall rest | Stops(rest) ensures ParseValue(literal + rest, depth) == Done(v, rest) {
      assert (literal + rest)[0] == literal[0];
      assert (literal + rest)[..|literal|] == literal && (literal + rest)[|literal|..] == rest;
    }
  }

  ghost predicate AllRender(texts: seq<string>, values: seq<Json>, depth: nat) {
    |texts| == |values| && forall i :: 0 <= i < |texts| ==> Renders(texts[i], values[i], depth)
  }

  // What follows the first of some texts separated by commas, before `end`.
  ghost function After(texts: seq<string>, end: string): string
    requires texts != []
  {
    if |texts| == 1 then end else [','] + (Items(texts[1..]) + end)
  }

  lemma {:induction false} ItemsSplit(texts: seq<string>, end: string)
    requires texts != []
    ensures Items(texts) + end == texts[0] + After(texts, end)
    ensures |texts| > 1 ==> After(texts, end)[1..] == Items(texts[1..]) + end
  {
    if |texts| > 1 {
      AppendIsAssociative(texts[0], [','] + Items(texts[1..]), end);
      AppendIsAssociative([','], Items(texts[1..]), end);
      TailOfCons(',', Items(texts[1..]) + end);
    }
  }

  lemma BracketSplit(open: char, texts: seq<string>, close: char, rest: string)
    ensures Bracket(open, texts, close) + rest == [open] + (Items(texts) + ([close] + rest))
    ensures (Bracket(open, texts, close) + rest)[1..] == Items(texts) + ([close] + rest)
  {
    AppendIsAssociative([open], Items(texts) + [close], rest);
    AppendIsAssociative(Items(texts), [close], rest);
    TailOfCons(open, Items(texts) + ([close] + rest));
  }

  lemma {:induction false} ItemsRender(texts: seq<string>, values: seq<Json>, depth: nat, read: seq<Json>, rest: string)
    requires AllRender(texts, values, depth) && texts != []
    ensures ParseItems(Items(texts) + ([']'] + rest), depth, read) == Done(Arr(read + values), rest)
    decreases |texts|
  {
    hide ParseValue, ParseItems, Renders, Items;
    var tail := After(texts, [']'] + rest);
    ItemsSplit(texts, [']'] + rest);
    ParseItem(texts[0], values[0], depth, tail, read);
    if |texts| == 1 {
      TailOfCons(']', rest);
      assert values == [values[0]];
    } else {
      ItemsRender(texts[1..], values[1..], depth, read + [values[0]], rest);
      AppendIsAssociative(read, [values[0]], values[1..]);
      assert [values[0]] + values[1..] == values;
    }
  }

  lemma ParseItem(text: string, v: Json, depth: nat, tail: string, read: seq<Json>)
    requires Renders(text, v, depth) && tail != "" && (tail[0] == ',' || tail[0] == ']')
    ensures ParseItems(text + tail, depth, read) ==
      if tail[0] == ',' then ParseItems(tail[1..], depth, read + [v]) else Done(Arr(read + [v]), tail[1..])
  {
    assert ParseValue(text + tail, depth) == Done(v, tail);
  }

  lemma ArrayRenders(texts: seq<string>, values: seq<Json>, depth: nat)
    requires AllRender(texts, values, depth)
    ensures Renders(Bracket('[', texts, ']'), Arr(values), depth + 1)
  {
    var text := Bracket('[', texts, ']');
    forall rest | Stops(rest) ensures ParseValue(text + rest, depth + 1) == Done(Arr(values), rest) {
      var inner := Items(texts) + ([']'] + rest);
      BracketSplit('[', texts, ']', rest);
      if texts == [] {
        assert inner == [']'] + rest;
        TailOfCons(']', rest);
      } else {
        ItemsSplit(texts, [']'] + rest);
        assert Renders(texts[0], values[0], depth);
        assert inner[0] == texts[0][0];
        ParseOpened('[', inner, depth);
        ItemsRender(texts, values, depth, [], rest);
        assert [] + values == values;
      }
    }
  }

  lemma ParseOpened(open: char, inner: string, depth: nat)
    requires inner != "" && !IsSpace(inner[0]) && inner[0] != ']' && inner[0] != '}'
    ensures open == '[' ==> ParseValue([open] + inner, depth + 1) == ParseItems(inner, depth, [])
    ensures open == '{' ==> ParseValue([open] + inner, depth + 1) == ParseMembers(inner, depth, map[])
  {
    TailOfCons(open, inner);
  }

  /* Objects: names with texts, read one after the other */

  ghost function Members(names: seq<string>, texts: seq<string>): seq<string>
    requires |names| == |texts|
  {
    seq(|names|, i requires 0 <= i < |names| => Member(names[i], texts[i]))
  }

  ghost function ReadOn(read: map<string, Json>, names: seq<string>, values: seq<Json>): map<string, Json>
    requires |names| == |values|
    decreases |names|
  {
    if names == [] then read else ReadOn(read[names[0] := values[0]], names[1..], values[1..])
  }

  lemma {:induction false} MembersRender(names: seq<string>, texts: seq<string>, values: seq<Json>, depth: nat,
                                         read: map<string, Json>, rest: string)
    requires |names| == |texts| && AllRender(texts, values, depth) && names != []
    ensures ParseMembers(Items(Members(names, texts)) + (['}'] + rest), depth, read) == Done(Obj(ReadOn(read, names, values)), rest)
    decreases |names|
  {
    var members := Members(names, texts);
    var close := After(members, ['}'] + rest);
    ItemsSplit(members, ['}'] + rest);
    ParseMember(names[0], texts[0], values[0], depth, close, read);
    if |names| == 1 {
      TailOfCons('}', rest);
      assert ReadOn(read, names, values) == read[names[0] := values[0]];
    } else {
      assert members[1..] == Members(names[1..], texts[1..]);
      MembersRender(names[1..], texts[1..], values[1..], depth, read[names[0] := values[0]], rest);
    }
  }

  lemma ParseMember(name: string, text: string, v: Json, depth: nat, close: string, read: map<string, Json>)
    requires Renders(text, v, depth) && close != "" && (close[0] == ',' || close[0] == '}')
    ensures ParseMembers(Member(name, text) + close, depth, read) ==
      if close[0] == ',' then ParseMembers(close[1..], depth, read[name := v]) else Done(Obj(read[name := v]), close[1..])
  {
    hide ParseValue, ParseString, Quote;
    var after := [':'] + (text + close);
    AppendIsAssociative(Quote(name), [':'] + text, close);
    AppendIsAssociative([':'], text, close);
    QuoteRoundTrip(name, after);
    TailOfCons(':', text + close);
    assert ParseValue(text + close, depth) == Done(v, close);
  }

  lemma {:induction false} ObjectRenders(names: seq<string>, texts: seq<string>, values: seq<Json>, depth: nat)
    requires |names| == |texts| && AllRender(texts, values, depth)
    ensures Renders(Bracket('{', Members(names, texts), '}'), Obj(ReadOn(map[], names, values)), depth + 1)
  {
    var members := Members(names, texts);
    var text := Bracket('{', members, '}');
    forall rest | Stops(rest) ensures ParseValue(text + rest, depth + 1) == Done(Obj(ReadOn(map[], names, values)), rest) {
      var inner := Items(members) + (['}'] + rest);
      BracketSplit('{', members, '}', rest);
      if names == [] {
        assert inner == ['}'] + rest;
        TailOfCons('}', rest);
      } else {
        ItemsSplit(members, ['}'] + rest);
        assert inner[0] == '"';
        ParseOpened('{', inner, depth);
        MembersRender(names, texts, values, depth, map[], rest);
      }
    }
  }

  /* The encoder renders */

  lemma {:induction false} ReadOnEndsWith(read: map<string, Json>, names: seq<string>, values: seq<Json>)
    requires |names| == |values| && NoDuplicates(names)
    ensures var r := ReadOn(read, names, values);
      r.Keys == read.Keys + Elements(names) &&
      (forall i :: 0 <= i < |names| ==> r[names[i]] == values[i]) &&
      (forall k :: k in read && k !in names ==> r[k] == read[k])
    decreases |names|
  {
    if names != [] {
      var rest := names[1..];
      assert names == [names[0]] + rest;
      assert names[0] !in rest;
      ReadOnEndsWith(read[names[0] := values[0]], rest, values[1..]);
      ElementsOfAppend([names[0]], rest);
      forall i | 0 <= i < |names| ensures ReadOn(read, names, values)[names[i]] == values[i] {
        if i > 0 {
          assert names[i] == rest[i - 1] && values[i] == values[1..][i - 1];
        }
      }
    }
  }

  ghost function FieldTexts(fields: map<string, Json>, keys: seq<string>): seq<string>
    requires forall k :: k in keys ==> k in fields
  {
    seq(|keys|, i requires 0 <= i < |keys| => assert keys[i] in keys; Print(fields[keys[i]]))
  }

  ghost function FieldValues(fields: map<string, Json>, keys: seq<string>): seq<Json>
    requires forall k :: k in keys ==> k in fields
  {
    seq(|keys|, i requires 0 <= i < |keys| => assert keys[i] in keys; fields[keys[i]])
  }

  lemma SortedKeysOf(fields: map<string, Json>)
    ensures var keys := InOrder(PLAIN, fields.Keys);
      NoDuplicates(keys) && Elements(keys) == fields.Keys && forall k :: k in keys <==> k in fields
  {
    InOrderIsSorted(PLAIN, fields.Keys);
    assert forall k :: k in InOrder(PLAIN, fields.Keys) <==> k in Elements(InOrder(PLAIN, fields.Keys));
  }

  lemma PrintObject(fields: map<string, Json>)
    ensures var keys := InOrder(PLAIN, fields.Keys);
      (forall k :: k in keys ==> k in fields) &&
      Print(Obj(fields)) == Bracket('{', Members(keys, FieldTexts(fields, keys)), '}')
  {
    SortedKeysOf(fields);
    var keys := InOrder(PLAIN, fields.Keys);
    var printed := seq(|keys|, i requires 0 <= i < |keys| =>
      if keys[i] in fields then Member(keys[i], Print(fields[keys[i]])) else "");
    forall i | 0 <= i < |keys| ensures printed[i] == Members(keys, FieldTexts(fields, keys))[i] {
      assert keys[i] in keys;
    }
    assert printed == Members(keys, FieldTexts(fields, keys));
  }

  lemma ReadBack(fields: map<string, Json>, keys: seq<string>)
    requires NoDuplicates(keys) && Elements(keys) == fields.Keys && forall k :: k in keys ==> k in fields
    ensures ReadOn(map[], keys, FieldValues(fields, keys)) == fields
  {
    var values := FieldValues(fields, keys);
    var read := ReadOn(map[], keys, values);
    ReadOnEndsWith(map[], keys, values);
    forall k | k in fields ensures k in read && read[k] == fields[k] {
      assert k in Elements(keys);
      var i :| 0 <= i < |keys| && keys[i] == k;
      assert read[keys[i]] == values[i];
    }
  }

  lemma PrintedArrayRenders(items: seq<Json>, depth: nat)
    requires forall x :: x in items ==> Renders(Print(x), x, depth)
    ensures Renders(Print(Arr(items)), Arr(items), depth + 1)
  {
    var texts := seq(|items|, i requires 0 <= i < |items| => Print(items[i]));
    ArrayRenders(texts, items, depth);
  }

  lemma {:induction false} PrintedObjectRenders(fields: map<string, Json>, depth: nat)
    requires forall k :: k in fields ==> Renders(Print(fields[k]), fields[k], depth)
    ensures Renders(Print(Obj(fields)), Obj(fields), depth + 1)
  {
    var keys := InOrder(PLAIN, fields.Keys);
    PrintObject(fields);
    SortedKeysOf(fields);
    ReadBack(fields, keys);
    var texts, values := FieldTexts(fields, keys), FieldValues(fields, keys);
    forall i | 0 <= i < |keys| ensures Renders(texts[i], values[i], depth) {
      assert keys[i] in keys;
    }
    ObjectRenders(keys, texts, values, depth);
  }

  lemma ScalarRenders(v: Json, depth: nat)
    requires WellFormed(v) && !v.Arr? && !v.Obj?
    ensures Renders(Print(v), v, depth)
  {
    match v
    case Null => LiteralRenders("null", v, depth);
    case Bool(truth) => LiteralRenders(if truth then "true" else "false", v, depth);
    case Num(literal) => NumberRenders(literal, depth);
    case Str(text) => StringRenders(text, depth);
  }

  // Whatever a well-formed value is, its encoding decodes to it.
  lemma {:induction false} PrintRenders(v: Json, depth: nat)
    requires WellFormed(v) && Nests(v, depth)
    ensures Renders(Print(v), v, depth)
    decreases v, 1
  {
    if v.Arr? {
      ArrayPrintRenders(v, depth);
    } else if v.Obj? {
      ObjectPrintRenders(v, depth);
    } else {
      ScalarRenders(v, depth);
    }
  }

  lemma {:induction false} ArrayPrintRenders(v: Json, depth: nat)
    requires WellFormed(v) && Nests(v, depth) && v.Arr?
    ensures Renders(Print(v), v, depth)
    decreases v, 0
  {
    forall x | x in v.items ensures Renders(Print(x), x, depth - 1) {
      PrintRenders(x, depth - 1);
    }
    PrintedArrayRenders(v.items, depth - 1);
  }

  lemma {:induction false} ObjectPrintRenders(v: Json, depth: nat)
    requires WellFormed(v) && Nests(v, depth) && v.Obj?
    ensures Renders(Print(v), v, depth)
    decreases v, 0
  {
    forall k | k in v.fields ensures Renders(Print(v.fields[k]), v.fields[k], depth - 1) {
      PrintRenders(v.fields[k], depth - 1);
    }
    PrintedObjectRenders(v.fields, depth - 1);
  }

  /* The decoder yields well-formed values */

  ghost predicate Good(v: Json, depth: nat) {
    WellFormed(v) && Nests(v, depth)
  }

  lemma {:induction false} ParsedIsGood(text: string, depth: nat)
    requires ParseValue(text, depth).Done?
    ensures Good(ParseValue(text, depth).value, depth)
    decreases |text|, 1
  {
    var s := SkipSpace(text);
    if s[0] == '{' {
      var inner := SkipSpace(s[1..]);
      if !(inner != "" && inner[0] == '}') {
        MembersAreGood(inner, depth - 1, map[]);
      }
    } else if s[0] == '[' {
      var inner := SkipSpace(s[1..]);
      if !(inner != "" && inner[0] == ']') {
        ItemsAreGood(inner, depth - 1, []);
      }
    } else if ParseValue(text, depth).value.Num? {
      ScannedIsComplete(Start, s);
    }
  }

  lemma {:induction false} ItemsAreGood(text: string, depth: nat, read: seq<Json>)
    requires ParseItems(text, depth, read).Done? && forall x :: x in read ==> Good(x, depth)
    ensures Good(ParseItems(text, depth, read).value, depth + 1)
    decreases |text|, 2
  {
    ParsedIsGood(text, depth);
    var Done(v, rest) := ParseValue(text, depth);
    var s := SkipSpace(rest);
    if s[0] == ',' {
      ItemsAreGood(s[1..], depth, read + [v]);
    }
  }

  lemma {:induction false} MembersAreGood(text: string, depth: nat, read: map<string, Json>)
    requires ParseMembers(text, depth, read).Done? && forall k :: k in read ==> Good(read[k], depth)
    ensures Good(ParseMembers(text, depth, read).value, depth + 1)
    decreases |text|, 2
  {
    var s := SkipSpace(text);
    var Done(name, rest) := ParseString(s[1..]);
    var colon := SkipSpace(rest);
    ParsedIsGood(colon[1..], depth);
    var Done(v, after) := ParseValue(colon[1..], depth);
    var close := SkipSpace(after);
    if close[0] == ',' {
      MembersAreGood(close[1..], depth, read[name := v]);
    }
  }

  /* Canonical text */

  // canonicalJSON: decode one value, encode it with sorted keys.
  ghost function Canonical(raw: string): Option<string> {
    match ParseSingle(raw)
    case Ok(v) => Some(Print(v))
    case Err(_) => None
  }

  lemma SingleIsGood(raw: string)
    requires ParseSingle(raw).Ok?
    ensures Good(ParseSingle(raw).value, MAX_NESTING)
  {
    ParsedIsGood(raw, MAX_NESTING);
  }

  // Canonical text means the value it was made from, and canonicalizing it again changes nothing.
  lemma CanonicalRoundTrip(raw: string)
    requires ParseSingle(raw).Ok?
    ensures ParseSingle(Canonical(raw).value) == ParseSingle(raw)
    ensures Canonical(Canonical(raw).value) == Canonical(raw)
  {
    var v := ParseSingle(raw).value;
    SingleIsGood(raw);
    PrintRenders(v, MAX_NESTING);
    assert Print(v) + "" == Print(v);
    assert ParseValue(Print(v) + "", MAX_NESTING) == Done(v, "");
  }

  lemma PrintIsInjective(v: Json, w: Json, depth: nat)
    requires Good(v, depth) && Good(w, depth) && Print(v) == Print(w)
    ensures v == w
  {
    PrintRenders(v, depth);
    PrintRenders(w, depth);
    assert ParseValue(Print(v) + "", depth) == Done(v, "");
    assert ParseValue(Print(w) + "", depth) == Done(w, "");
  }
}
