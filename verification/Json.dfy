// JSON payloads as Go's encoding/json reads and writes them: the decoder with opaque number literals
// (RFC 8259, sections 2 to 7) and the encoder with sorted keys that the digest relies on.
module Json {
  import opened Text

  datatype Json =
    | Null
    | Bool(truth: bool)
    | Num(literal: string)
    | Str(text: string)
    | Arr(items: seq<Json>)
    | Obj(fields: map<string, Json>)

  // A decoded value with the text left after it.
  datatype Parsed<+T> = Fail | Done(value: T, rest: string)

  // encoding/json refuses deeper nesting.
  const MAX_NESTING: nat := 10000

  const REPLACEMENT: char := '\U{FFFD}'

  /* Encoding */

  function HexDigit(n: nat): char
    requires n < 16
  {
    "0123456789abcdef"[n]
  }

  function UnicodeEscape(n: nat): string
    requires n < 0x10000
  {
    ['\\', 'u', HexDigit(n / 4096), HexDigit(n / 256 % 16), HexDigit(n / 16 % 16), HexDigit(n % 16)]
  }

  function EscapeChar(c: char): string {
    if c == '"' then ['\\', '"']
    else if c == '\\' then ['\\', '\\']
    else if c == '\U{0008}' then ['\\', 'b']
    else if c == '\U{000C}' then ['\\', 'f']
    else if c == '\n' then ['\\', 'n']
    else if c == '\r' then ['\\', 'r']
    else if c == '\t' then ['\\', 't']
    else if c < ' ' || c == '<' || c == '>' || c == '&' || c == '\U{2028}' || c == '\U{2029}' then UnicodeEscape(c as nat)
    else [c]
  }

  function Escape(s: string): string {
    if s == "" then "" else EscapeChar(s[0]) + Escape(s[1..])
  }

  function Quote(s: string): string {
    ['"'] + (Escape(s) + ['"'])
  }

  // Texts separated by commas.
  function Items(texts: seq<string>): string {
    if texts == [] then ""
    else if |texts| == 1 then texts[0]
    else texts[0] + ([','] + Items(texts[1..]))
  }

  function Bracket(open: char, texts: seq<string>, close: char): string {
    [open] + (Items(texts) + [close])
  }

  function Member(name: string, text: string): string {
    Quote(name) + ([':'] + text)
  }

  ghost function Print(v: Json): string {
    match v
    case Null => "null"
    case Bool(truth) => if truth then "true" else "false"
    case Num(literal) => literal
    case Str(text) => Quote(text)
    case Arr(items) => Bracket('[', seq(|items|, i requires 0 <= i < |items| => Print(items[i])), ']')
    case Obj(fields) =>
      var keys := InOrder(PLAIN, fields.Keys);
      Bracket('{', seq(|keys|, i requires 0 <= i < |keys| =>
        if keys[i] in fields then Member(keys[i], Print(fields[keys[i]])) else ""), '}')
  }

  /* Decoding */

  predicate IsSpace(c: char) {
    c == ' ' || c == '\t' || c == '\r' || c == '\n'
  }

  function SkipSpace(s: string): (r: string)
    ensures |r| <= |s|
  {
    if s != "" && IsSpace(s[0]) then SkipSpace(s[1..]) else s
  }

  predicate IsDigit(c: char) {
    '0' <= c <= '9'
  }

  // The states of the number scanner, by what was read last.
  datatype NumberState = Start | Minus | Zero | Integer | Point | Fraction | Exponent | Sign | Power

  predicate Accepts(state: NumberState) {
    state == Zero || state == Integer || state == Fraction || state == Power
  }

  function Next(state: NumberState, c: char): Option<NumberState> {
    match state
    case Start => if c == '-' then Some(Minus) else if c == '0' then Some(Zero) else if IsDigit(c) then Some(Integer) else None
    case Minus => if c == '0' then Some(Zero) else if IsDigit(c) then Some(Integer) else None
    case Zero => if c == '.' then Some(Point) else if c == 'e' || c == 'E' then Some(Exponent) else None
    case Integer =>
      if IsDigit(c) then Some(Integer) else if c == '.' then Some(Point) else if c == 'e' || c == 'E' then Some(Exponent) else None
    case Point => if IsDigit(c) then Some(Fraction) else None
    case Fraction => if IsDigit(c) then Some(Fraction) else if c == 'e' || c == 'E' then Some(Exponent) else None
    case Exponent => if c == '+' || c == '-' then Some(Sign) else if IsDigit(c) then Some(Power) else None
    case Sign => if IsDigit(c) then Some(Power) else None
    case Power => if IsDigit(c) then Some(Power) else None
  }

  // Reads on as long as the literal can go on; it must then be complete.
  function ScanNumber(state: NumberState, s: string): (r: Parsed<string>)
    ensures r.Done? ==> s == r.value + r.rest
    decreases |s|
  {
    if s != "" && Next(state, s[0]).Some? then
      match ScanNumber(Next(state, s[0]).value, s[1..])
      case Fail => Fail
      case Done(literal, rest) => Done([s[0]] + literal, rest)
    else if Accepts(state) then Done("", s)
    else Fail
  }

  function HexValue(c: char): Option<nat> {
    if '0' <= c <= '9' then Some(c as nat - '0' as nat)
    else if 'a' <= c <= 'f' then Some(c as nat - 'a' as nat + 10)
    else if 'A' <= c <= 'F' then Some(c as nat - 'A' as nat + 10)
    else None
  }

  // The code unit of a \uXXXX escape at the front of s.
  function CodeUnit(s: string): (r: Option<nat>)
    ensures r.Some? ==> r.value < 0x10000 && |s| >= 6
  {
    if |s| >= 6 && s[0] == '\\' && s[1] == 'u' && HexValue(s[2]).Some? && HexValue(s[3]).Some? &&
       HexValue(s[4]).Some? && HexValue(s[5]).Some? then
      Some(HexValue(s[2]).value * 4096 + HexValue(s[3]).value * 256 + HexValue(s[4]).value * 16 + HexValue(s[5]).value)
    else None
  }

  predicate IsHighSurrogate(n: nat) {
    0xD800 <= n < 0xDC00
  }

  predicate IsLowSurrogate(n: nat) {
    0xDC00 <= n < 0xE000
  }

  // A \uXXXX escape: a pair of surrogates is one character, a lone surrogate the replacement character.
  function UnescapeUnit(s: string): (r: Parsed<char>)
    ensures r.Done? ==> |r.rest| < |s|
  {
    match CodeUnit(s)
    case None => Fail
    case Some(unit) =>
      if IsHighSurrogate(unit) || IsLowSurrogate(unit) then
        match CodeUnit(s[6..])
        case Some(second) =>
          if IsHighSurrogate(unit) && IsLowSurrogate(second) then
            Done((0x10000 + (unit - 0xD800) * 0x400 + (second - 0xDC00)) as char, s[12..])
          else Done(REPLACEMENT, s[6..])
        case None => Done(REPLACEMENT, s[6..])
      else Done(unit as char, s[6..])
  }

  // One character of a string: plain, or behind a backslash.
  function UnescapeChar(s: string): (r: Parsed<char>)
    requires s != ""
    ensures r.Done? ==> |r.rest| < |s|
  {
    if s[0] != '\\' then (if s[0] < ' ' then Fail else Done(s[0], s[1..]))
    else if |s| < 2 then Fail
    else if s[1] == '"' || s[1] == '\\' || s[1] == '/' then Done(s[1], s[2..])
    else if s[1] == 'b' then Done('\U{0008}', s[2..])
    else if s[1] == 'f' then Done('\U{000C}', s[2..])
    else if s[1] == 'n' then Done('\n', s[2..])
    else if s[1] == 'r' then Done('\r', s[2..])
    else if s[1] == 't' then Done('\t', s[2..])
    else UnescapeUnit(s)
  }

  // The text of a string whose opening quote is read.
  function ParseString(s: string): (r: Parsed<string>)
    ensures r.Done? ==> |r.rest| < |s|
    decreases |s|
  {
    if s == "" then Fail
    else if s[0] == '"' then Done("", s[1..])
    else
      match UnescapeChar(s)
      case Fail => Fail
      case Done(c, rest) =>
        match ParseString(rest)
        case Fail => Fail
        case Done(text, rest) => Done([c] + text, rest)
  }

  predicate StartsWith(s: string, prefix: string) {
    |s| >= |prefix| && s[..|prefix|] == prefix
  }

  function ParseLiteral(s: string, literal: string, v: Json): (r: Parsed<Json>)
    requires literal != ""
    ensures r.Done? ==> |r.rest| < |s|
  {
    if StartsWith(s, literal) then Done(v, s[|literal|..]) else Fail
  }

  function ParseNumber(s: string): (r: Parsed<Json>)
    ensures r.Done? ==> |r.rest| < |s|
  {
    match ScanNumber(Start, s)
    case Fail => Fail
    case Done(literal, rest) => if literal == "" then Fail else Done(Num(literal), rest)
  }

  // One value, with the nesting still allowed below it.
  function ParseValue(text: string, depth: nat): (r: Parsed<Json>)
    ensures r.Done? ==> |r.rest| < |text|
    decreases |text|, 1
  {
    var s := SkipSpace(text);
    if s == "" then Fail
    else if s[0] == '"' then
      (match ParseString(s[1..])
       case Fail => Fail
       case Done(t, rest) => Done(Str(t), rest))
    else if s[0] == '{' then
      (if depth == 0 then Fail
       else
         var inner := SkipSpace(s[1..]);
         if inner != "" && inner[0] == '}' then Done(Obj(map[]), inner[1..]) else ParseMembers(inner, depth - 1, map[]))
    else if s[0] == '[' then
      (if depth == 0 then Fail
       else
         var inner := SkipSpace(s[1..]);
         if inner != "" && inner[0] == ']' then Done(Arr([]), inner[1..]) else ParseItems(inner, depth - 1, []))
    else if s[0] == 'n' then ParseLiteral(s, "null", Null)
    else if s[0] == 't' then ParseLiteral(s, "true", Bool(true))
    else if s[0] == 'f' then ParseLiteral(s, "false", Bool(false))
    else ParseNumber(s)
  }

  function ParseItems(text: string, depth: nat, read: seq<Json>): (r: Parsed<Json>)
    ensures r.Done? ==> |r.rest| < |text|
    decreases |text|, 2
  {
    match ParseValue(text, depth)
    case Fail => Fail
    case Done(v, rest) =>
      var s := SkipSpace(rest);
      if s != "" && s[0] == ',' then ParseItems(s[1..], depth, read + [v])
      else if s != "" && s[0] == ']' then Done(Arr(read + [v]), s[1..])
      else Fail
  }

  // A later member of the same name replaces an earlier one.
  function ParseMembers(text: string, depth: nat, read: map<string, Json>): (r: Parsed<Json>)
    ensures r.Done? ==> |r.rest| < |text|
    decreases |text|, 2
  {
    var s := SkipSpace(text);
    if s == "" || s[0] != '"' then Fail
    else
      match ParseString(s[1..])
      case Fail => Fail
      case Done(name, rest) =>
        var colon := SkipSpace(rest);
        if colon == "" || colon[0] != ':' then Fail
        else
          match ParseValue(colon[1..], depth)
          case Fail => Fail
          case Done(v, rest) =>
            var s := SkipSpace(rest);
            if s != "" && s[0] == ',' then ParseMembers(s[1..], depth, read[name := v])
            else if s != "" && s[0] == '}' then Done(Obj(read[name := v]), s[1..])
            else Fail
  }

  datatype FailureKind = Empty | Malformed | Trailing

  // Decode once, then expect nothing but space (parseSingleJSON, and the decoding of canonicalJSON).
  function ParseSingle(data: string): Result<Json, FailureKind> {
    if SkipSpace(data) == "" then Err(Empty)
    else
      match ParseValue(data, MAX_NESTING)
      case Fail => Err(Malformed)
      case Done(v, rest) => if SkipSpace(rest) == "" then Ok(v) else Err(Trailing)
  }
}
