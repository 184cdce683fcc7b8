// The COSMIC system-actions rewriter (internal/platform/cachyos/vicinae.go:497-523, 549-667): a byte
// scanner for active Launcher fields, and the splice that replaces one field's value.
module Cosmic {
  import opened Text

  newtype byte = x: int | 0 <= x < 256

  type Bytes = seq<byte>

  const NEWLINE: byte := 10
  const TAB: byte := 9
  const RETURN: byte := 13
  const SPACE: byte := 32
  const QUOTE: byte := 34
  const COMMA: byte := 44
  const SLASH: byte := 47
  const COLON: byte := 58
  const BACKSLASH: byte := 92

  // Launcher
  const LAUNCHER: Bytes := [76, 97, 117, 110, 99, 104, 101, 114]
  // cosmic-launcher
  const STOCK: Bytes := [99, 111, 115, 109, 105, 99, 45, 108, 97, 117, 110, 99, 104, 101, 114]
  // vicinae toggle
  const DESIRED: Bytes := [118, 105, 99, 105, 110, 97, 101, 32, 116, 111, 103, 103, 108, 101]

  datatype Match = Match(value: Bytes, start: nat, end: nat)

  // ---- UTF-8 (RFC 3629, section 4) ----

  predicate IsContinuation(b: byte) { 0x80 <= b <= 0xBF }

  // The length of the encoding the bytes begin with, 0 if they begin with none.
  function RuneLength(s: Bytes): (n: nat)
    ensures n <= |s|
  {
    if s == [] then 0
    else if s[0] < 0x80 then 1
    else if s[0] < 0xC2 || |s| < 2 then 0
    else if s[0] <= 0xDF then (if IsContinuation(s[1]) then 2 else 0)
    else if s[0] <= 0xEF then
      (if |s| < 3 || !IsContinuation(s[1]) || !IsContinuation(s[2]) then 0
       else if s[0] == 0xE0 && s[1] < 0xA0 then 0
       else if s[0] == 0xED && s[1] > 0x9F then 0
       else 3)
    else if s[0] <= 0xF4 then
      (if |s| < 4 || !IsContinuation(s[1]) || !IsContinuation(s[2]) || !IsContinuation(s[3]) then 0
       else if s[0] == 0xF0 && s[1] < 0x90 then 0
       else if s[0] == 0xF4 && s[1] > 0x8F then 0
       else 4)
    else 0
  }

  predicate IsUtf8(s: Bytes) {
    s == [] || (RuneLength(s) > 0 && IsUtf8(s[RuneLength(s)..]))
  }

  // ---- Scanning ----

  predicate IsHorizontalSpace(b: byte) {
    b == SPACE || b == TAB || b == RETURN
  }

  predicate IsIdentifierByte(b: byte) {
    (97 <= b <= 122) || (65 <= b <= 90) || (48 <= b <= 57) || b == 95 || b == 45
  }

  // The identifier stands at the offset, whole and within the line.
  predicate HasBoundary(data: Bytes, offset: nat, end: nat)
    requires offset <= end <= |data|
  {
    && offset + |LAUNCHER| <= end && data[offset..offset + |LAUNCHER|] == LAUNCHER
    && (offset > 0 ==> !IsIdentifierByte(data[offset - 1]))
    && (offset + |LAUNCHER| == end || !IsIdentifierByte(data[offset + |LAUNCHER|]))
  }

  function SkipSpace(data: Bytes, offset: nat, end: nat): (r: nat)
    requires offset <= end <= |data|
    ensures offset <= r <= end
    ensures r < end ==> !IsHorizontalSpace(data[r])
    ensures forall k :: offset <= k < r ==> IsHorizontalSpace(data[k])
    decreases end - offset
  {
    if offset < end && IsHorizontalSpace(data[offset]) then SkipSpace(data, offset + 1, end) else offset
  }

  // Past the closing quote of a string whose inside starts at the offset.
  function SkipString(data: Bytes, offset: nat, end: nat): (r: Option<nat>)
    requires end <= |data|
    ensures r.Some? ==> offset < r.value <= end
    decreases end - offset
  {
    if offset >= end then None
    else if data[offset] == BACKSLASH then (if offset + 1 >= end then None else SkipString(data, offset + 2, end))
    else if data[offset] == QUOTE then Some(offset + 1)
    else SkipString(data, offset + 1, end)
  }

  // The closing quote of a value whose inside starts at the offset; escapes are not accepted.
  function ClosingQuote(data: Bytes, offset: nat, end: nat): (r: Option<nat>)
    requires end <= |data|
    ensures r.Some? ==> offset <= r.value < end && data[r.value] == QUOTE
    ensures r.Some? ==> forall k :: offset <= k < r.value ==> data[k] != QUOTE && data[k] != BACKSLASH
    decreases end - offset
  {
    if offset >= end || data[offset] == BACKSLASH then None
    else if data[offset] == QUOTE then Some(offset)
    else ClosingQuote(data, offset + 1, end)
  }

  // What the scanner does at one position of a line: the rest is a comment, the line is refused, it goes
  // on elsewhere, or it has found a field.
  datatype Step = Comment | Refused | Onward(next: nat) | Field(field: Match, next: nat)

  function StepAt(data: Bytes, i: nat, end: nat): (step: Step)
    requires i < end <= |data|
    ensures step.Onward? || step.Field? ==> i < step.next <= end
    ensures step.Field? ==>
      && i + |LAUNCHER| + 1 < step.field.start <= step.field.end < step.next
      && data[step.field.start - 1] == QUOTE && step.field.value == data[step.field.start..step.field.end]
  {
    if data[i] == SLASH then
      (if i + 1 < end && data[i + 1] == SLASH then Comment else Onward(i + 1))
    else if data[i] == QUOTE then
      (match SkipString(data, i + 1, end)
       case Some(next) => Onward(next)
       case None => Refused)
    else if !HasBoundary(data, i, end) then Onward(i + 1)
    else AfterName(data, i + |LAUNCHER|, end)
  }

  // Past the identifier: without a colon it is no field.
  function AfterName(data: Bytes, offset: nat, end: nat): (step: Step)
    requires offset <= end <= |data|
    ensures step.Onward? ==> step.next == offset
    ensures step.Field? ==>
      && offset + 1 < step.field.start <= step.field.end < step.next <= end
      && data[step.field.start - 1] == QUOTE && step.field.value == data[step.field.start..step.field.end]
  {
    var colon := SkipSpace(data, offset, end);
    if colon >= end || data[colon] != COLON then Onward(offset)
    else FieldAt(data, SkipSpace(data, colon + 1, end), end)
  }

  // The value of a field, from where its opening quote should be to its comma.
  function FieldAt(data: Bytes, quote: nat, end: nat): (step: Step)
    requires quote <= end <= |data|
    ensures step.Refused? || step.Field?
    ensures step.Field? ==>
      && step.field.start == quote + 1 <= step.field.end < step.next <= end
      && data[quote] == QUOTE && step.field.value == data[step.field.start..step.field.end]
  {
    if quote >= end || data[quote] != QUOTE then Refused
    else
      match ClosingQuote(data, quote + 1, end)
      case None => Refused
      case Some(close) =>
        var comma := SkipSpace(data, close + 1, end);
        if comma >= end || data[comma] != COMMA then Refused
        else Field(Match(data[quote + 1..close], quote + 1, close), comma + 1)
  }

  datatype ScanError = InvalidAtLine(line: nat)

  function LineFields(data: Bytes, i: nat, end: nat, line: nat): Result<seq<Match>, ScanError>
    requires i <= end <= |data|
    decreases end - i
  {
    if i == end then Ok([])
    else
      match StepAt(data, i, end)
      case Comment => Ok([])
      case Refused => Err(InvalidAtLine(line))
      case Onward(next) => LineFields(data, next, end, line)
      case Field(field, next) =>
        match LineFields(data, next, end, line)
        case Err(error) => Err(error)
        case Ok(fields) => Ok([field] + fields)
  }

  function LineEnd(data: Bytes, start: nat): (end: nat)
    requires start <= |data|
    ensures start <= end <= |data|
    ensures forall k :: start <= k < end ==> data[k] != NEWLINE
    ensures end < |data| ==> data[end] == NEWLINE
    decreases |data| - start
  {
    if start == |data| || data[start] == NEWLINE then start else LineEnd(data, start + 1)
  }

  function Fields(data: Bytes, start: nat, line: nat): Result<seq<Match>, ScanError>
    requires start <= |data|
    decreases |data| - start
  {
    var end := LineEnd(data, start);
    match LineFields(data, start, end, line)
    case Err(error) => Err(error)
    case Ok(fields) =>
      if end == |data| then Ok(fields)
      else
        match Fields(data, end + 1, line + 1)
        case Err(error) => Err(error)
        case Ok(rest) => Ok(fields + rest)
  }

  // ---- Rewriting ----

  datatype RewriteError = NotUtf8 | Scan(error: ScanError) | NoField | Ambiguous(count: nat) | UnsupportedValue

  function Spliced(data: Bytes, field: Match): Bytes
    requires field.start <= field.end <= |data|
  {
    data[..field.start] + DESIRED + data[field.end..]
  }

  // Fields lie inside the data.
  lemma {:induction false} LineFieldsLieInside(data: Bytes, i: nat, end: nat, line: nat)
    requires i <= end <= |data|
    ensures LineFields(data, i, end, line).Ok? ==>
      forall k :: 0 <= k < |LineFields(data, i, end, line).value| ==>
        var m := LineFields(data, i, end, line).value[k];
        i + |LAUNCHER| + 1 < m.start <= m.end < end && data[m.start - 1] == QUOTE && m.value == data[m.start..m.end]
    decreases end - i
  {
    hide HasBoundary, FieldAt, LAUNCHER;
    if i < end {
      var step := StepAt(data, i, end);
      if step.Onward? || step.Field? { LineFieldsLieInside(data, step.next, end, line); }
    }
  }

  lemma {:induction false} FieldsLieInside(data: Bytes, start: nat, line: nat)
    requires start <= |data|
    ensures Fields(data, start, line).Ok? ==>
      forall k :: 0 <= k < |Fields(data, start, line).value| ==>
        var m := Fields(data, start, line).value[k];
        start < m.start <= m.end < |data| && data[m.start - 1] == QUOTE && m.value == data[m.start..m.end]
    decreases |data| - start
  {
    hide LineFields;
    var end := LineEnd(data, start);
    LineFieldsLieInside(data, start, end, line);
    if end < |data| { FieldsLieInside(data, end + 1, line + 1); }
  }

  function Rewritten(data: Bytes): Result<Bytes, RewriteError> {
    if !IsUtf8(data) then Err(NotUtf8)
    else
      match Fields(data, 0, 1)
      case Err(error) => Err(Scan(error))
      case Ok(fields) =>
        if |fields| == 0 then Err(NoField)
        else if |fields| != 1 then Err(Ambiguous(|fields|))
        else if fields[0].value == DESIRED then Ok(data)
        else if fields[0].value != STOCK then Err(UnsupportedValue)
        else
          FieldsLieInside(data, 0, 1);
          Ok(Spliced(data, fields[0]))
  }

  // ---- The code ----

  method SkipHorizontalSpace(data: Bytes, start: nat, end: nat) returns (offset: nat)
    requires start <= end <= |data|
    ensures offset == SkipSpace(data, start, end)
  {
    offset := start;
    while offset < end && IsHorizontalSpace(data[offset])
      invariant start <= offset <= end
      invariant SkipSpace(data, start, end) == SkipSpace(data, offset, end)
    {
      offset := offset + 1;
    }
  }

  method SkipCosmicString(data: Bytes, quote: nat, end: nat) returns (next: Option<nat>)
    requires end <= |data|
    ensures next == SkipString(data, quote + 1, end)
  {
    var i := quote + 1;
    while i < end
      invariant SkipString(data, quote + 1, end) == SkipString(data, i, end)
      decreases end - i
    {
      if data[i] == BACKSLASH {
        if i + 1 >= end { return None; }
        i := i + 2;
        continue;
      }
      if data[i] == QUOTE { return Some(i + 1); }
      i := i + 1;
    }
    return None;
  }

  method ParseQuotedValue(data: Bytes, quote: nat, end: nat) returns (close: Option<nat>)
    requires end <= |data|
    ensures close == ClosingQuote(data, quote + 1, end)
  {
    var i := quote + 1;
    while i < end
      invariant ClosingQuote(data, quote + 1, end) == ClosingQuote(data, i, end)
    {
      if data[i] == BACKSLASH { return None; }
      if data[i] == QUOTE { return Some(i); }
      i := i + 1;
    }
    return None;
  }

  method ParseField(data: Bytes, quote: nat, end: nat) returns (step: Step)
    requires quote <= end <= |data|
    ensures step == FieldAt(data, quote, end)
  {
    if quote >= end || data[quote] != QUOTE { return Refused; }
    var close := ParseQuotedValue(data, quote, end);
    if close.None? { return Refused; }
    var comma := SkipHorizontalSpace(data, close.value + 1, end);
    if comma >= end || data[comma] != COMMA { return Refused; }
    return Field(Match(data[quote + 1..close.value], quote + 1, close.value), comma + 1);
  }

  // The scanned part of a line, put before what its rest holds.
  function Prepend(fields: seq<Match>, rest: Result<seq<Match>, ScanError>): Result<seq<Match>, ScanError> {
    match rest
    case Ok(more) => Ok(fields + more)
    case Err(error) => Err(error)
  }

  lemma PrependStep(fields: seq<Match>, field: Match, rest: Result<seq<Match>, ScanError>)
    ensures Prepend(fields, Prepend([field], rest)) == Prepend(fields + [field], rest)
    ensures Prepend([], rest) == rest
  {
    if rest.Ok? { assert fields + ([field] + rest.value) == (fields + [field]) + rest.value && [] + rest.value == rest.value; }
  }

  // The body of the loop over a line.
  method ScanAt(data: Bytes, i: nat, end: nat) returns (step: Step)
    requires i < end <= |data|
    ensures step == StepAt(data, i, end)
  {
    hide HasBoundary, FieldAt, LAUNCHER;
    if data[i] == SLASH {
      if i + 1 < end && data[i + 1] == SLASH { return Comment; }
      return Onward(i + 1);
    }
    if data[i] == QUOTE {
      var next := SkipCosmicString(data, i, end);
      return if next.None? then Refused else Onward(next.value);
    }
    if !HasBoundary(data, i, end) { return Onward(i + 1); }
    BoundaryFits(data, i, end);
    var colon := SkipHorizontalSpace(data, i + |LAUNCHER|, end);
    if colon >= end || data[colon] != COLON { return Onward(i + |LAUNCHER|); }
    var quote := SkipHorizontalSpace(data, colon + 1, end);
    step := ParseField(data, quote, end);
  }

  method ParseLine(data: Bytes, start: nat, end: nat, line: nat) returns (result: Result<seq<Match>, ScanError>)
    requires start <= end <= |data|
    ensures result == LineFields(data, start, end, line)
  {
    hide StepAt;
    ghost var all := LineFields(data, start, end, line);
    var matches: seq<Match> := [];
    var i := start;
    if all.Ok? { assert [] + all.value == all.value; }
    while i < end
      invariant start <= i <= end
      invariant all == Prepend(matches, LineFields(data, i, end, line))
      decreases end - i
    {
      var step := ScanAt(data, i, end);
      match step {
        case Comment =>
          assert matches + [] == matches;
          return Ok(matches);
        case Refused =>
          return Err(InvalidAtLine(line));
        case Onward(next) =>
          i := next;
        case Field(field, next) =>
          PrependStep(matches, field, LineFields(data, next, end, line));
          matches := matches + [field];
          i := next;
      }
    }
    assert matches + [] == matches;
    return Ok(matches);
  }

  lemma BoundaryFits(data: Bytes, offset: nat, end: nat)
    requires offset <= end <= |data| && HasBoundary(data, offset, end)
    ensures 0 < |LAUNCHER| && offset + |LAUNCHER| <= end
  {
  }

  method IndexNewline(data: Bytes, start: nat) returns (end: nat)
    requires start <= |data|
    ensures end == LineEnd(data, start)
  {
    end := start;
    while end < |data| && data[end] != NEWLINE
      invariant start <= end <= |data|
      invariant LineEnd(data, start) == LineEnd(data, end)
    {
      end := end + 1;
    }
  }

  method ParseFields(data: Bytes) returns (result: Result<seq<Match>, ScanError>)
    ensures result == Fields(data, 0, 1)
  {
    hide LineFields;
    ghost var all := Fields(data, 0, 1);
    var matches: seq<Match> := [];
    var start, line := 0, 1;
    if all.Ok? { assert [] + all.value == all.value; }
    while true
      invariant start <= |data|
      invariant all == Prepend(matches, Fields(data, start, line))
      decreases |data| - start
    {
      var end := IndexNewline(data, start);
      var fields := ParseLine(data, start, end, line);
      if fields.Err? { return Err(fields.error); }
      if end == |data| { return Ok(matches + fields.value); }
      PrependLine(matches, fields.value, Fields(data, end + 1, line + 1));
      matches := matches + fields.value;
      start, line := end + 1, line + 1;
    }
  }

  lemma PrependLine(matches: seq<Match>, fields: seq<Match>, rest: Result<seq<Match>, ScanError>)
    ensures Prepend(matches, Prepend(fields, rest)) == Prepend(matches + fields, rest)
  {
    if rest.Ok? { assert matches + (fields + rest.value) == (matches + fields) + rest.value; }
  }

  method RewriteSystemActions(data: Bytes) returns (result: Result<Bytes, RewriteError>)
    ensures result == Rewritten(data)
  {
    hide IsUtf8, DESIRED, STOCK;
    if !IsUtf8(data) { return Err(NotUtf8); }
    var matches := ParseFields(data);
    if matches.Err? { return Err(Scan(matches.error)); }
    if |matches.value| == 0 { return Err(NoField); }
    if |matches.value| != 1 { return Err(Ambiguous(|matches.value|)); }
    var found := matches.value[0];
    if found.value == DESIRED { return Ok(data); }
    if found.value != STOCK { return Err(UnsupportedValue); }
    FieldsLieInside(data, 0, 1);
    return Ok(data[..found.start] + DESIRED + data[found.end..]);
  }
}
