// Which Launcher fields are active, told apart byte by byte: those that stand outside strings and
// comments, whole; and what the rewriter does, in these terms
// (internal/platform/cachyos/vicinae.go:497-523, 549-667).
module CosmicActive {
  import opened Text
  import opened Cosmic
  import opened CosmicTheorems

  // ---- Strings and comments, byte by byte ----

  // In code, inside a string, behind a backslash in one, or in a comment.
  datatype Mode = Code | Inside | Escaped | Remark

  // What one byte does; a comment starts with the second of two slashes.
  function After(mode: Mode, before: Option<byte>, b: byte): Mode {
    match mode
    case Code => if b == 34 then Inside else if b == 47 && before == Some(47) then Remark else Code
    case Inside => if b == 92 then Escaped else if b == 34 then Code else Inside
    case Escaped => Inside
    case Remark => Remark
  }

  // The mode in front of position p of a line.
  function ModeAt(data: Bytes, start: nat, p: nat): Mode
    requires start <= p <= |data|
    decreases p - start
  {
    if p == start then Code
    else After(ModeAt(data, start, p - 1), if p - 1 > start then Some(data[p - 2]) else None, data[p - 1])
  }

  predicate IsName(b: byte) {
    (97 <= b <= 122) || (65 <= b <= 90) || (48 <= b <= 57) || b == 95 || b == 45
  }

  ghost predicate Blanks(data: Bytes, from: nat, to: nat) {
    from <= to <= |data| && forall k :: from <= k < to ==> data[k] == 32 || data[k] == 9 || data[k] == 13
  }

  // The identifier Launcher, in code and whole.
  ghost predicate Active(data: Bytes, start: nat, end: nat, p: nat) {
    && start <= p && p + 8 <= end <= |data|
    && ModeAt(data, start, p) == Code
    && data[p] == 76 && data[p + 1] == 97 && data[p + 2] == 117 && data[p + 3] == 110
    && data[p + 4] == 99 && data[p + 5] == 104 && data[p + 6] == 101 && data[p + 7] == 114
    && (p > 0 ==> !IsName(data[p - 1]))
    && (p + 8 < end ==> !IsName(data[p + 8]))
  }

  ghost predicate ColonAt(data: Bytes, end: nat, p: nat, colon: nat) {
    p + 8 <= colon < end <= |data| && Blanks(data, p + 8, colon) && data[colon] == 58
  }

  // : "value" , with blanks between them, the value without quotes or backslashes.
  ghost predicate ValueAt(data: Bytes, end: nat, colon: nat, m: Match, comma: nat) {
    && 0 < m.start && colon < m.start - 1 && m.start <= m.end < comma < end <= |data|
    && Blanks(data, colon + 1, m.start - 1) && data[m.start - 1] == 34
    && (forall k :: m.start <= k < m.end ==> data[k] != 34 && data[k] != 92) && data[m.end] == 34
    && Blanks(data, m.end + 1, comma) && data[comma] == 44
    && m.value == data[m.start..m.end]
  }

  ghost predicate HasColon(data: Bytes, end: nat, p: nat) {
    exists colon :: ColonAt(data, end, p, colon)
  }

  ghost predicate IsFieldAt(data: Bytes, end: nat, p: nat, m: Match) {
    exists colon, comma :: ColonAt(data, end, p, colon) && ValueAt(data, end, colon, m, comma)
  }

  // A field of the line.
  ghost predicate FieldIn(data: Bytes, start: nat, end: nat, m: Match) {
    exists p :: Active(data, start, end, p) && IsFieldAt(data, end, p, m)
  }

  // A string that is not closed, or a field without a proper value.
  ghost predicate Broken(data: Bytes, start: nat, end: nat)
    requires start <= end <= |data|
  {
    || ModeAt(data, start, end) == Inside || ModeAt(data, start, end) == Escaped
    || exists p :: BadField(data, start, end, p)
  }

  ghost predicate BadField(data: Bytes, start: nat, end: nat, p: nat) {
    Active(data, start, end, p) && HasColon(data, end, p) && !exists m :: IsFieldAt(data, end, p, m)
  }

  // ---- The scanner's steps ----

  lemma ModeStep(data: Bytes, start: nat, p: nat)
    requires start <= p < |data|
    ensures ModeAt(data, start, p + 1) == After(ModeAt(data, start, p), if p > start then Some(data[p - 1]) else None, data[p])
  {
  }

  lemma {:induction false} RemarkStays(data: Bytes, start: nat, a: nat, p: nat)
    requires start <= a <= p <= |data| && ModeAt(data, start, a) == Remark
    ensures ModeAt(data, start, p) == Remark
    decreases p - a
  {
    if a < p { RemarkStays(data, start, a, p - 1); }
  }

  // Bytes that are neither quotes nor slashes leave the scanner in code.
  lemma {:induction false} CodeStays(data: Bytes, start: nat, a: nat, p: nat)
    requires start <= a <= p <= |data| && ModeAt(data, start, a) == Code
    requires forall k :: a <= k < p ==> data[k] != 34 && data[k] != 47
    ensures forall k :: a <= k <= p ==> ModeAt(data, start, k) == Code
    decreases p - a
  {
    if a < p {
      CodeStays(data, start, a, p - 1);
      ModeStep(data, start, p - 1);
    }
  }

  lemma {:induction false} InsideStays(data: Bytes, start: nat, a: nat, p: nat)
    requires start <= a <= p <= |data| && ModeAt(data, start, a) == Inside
    requires forall k :: a <= k < p ==> data[k] != 34 && data[k] != 92
    ensures forall k :: a <= k <= p ==> ModeAt(data, start, k) == Inside
    decreases p - a
  {
    if a < p {
      InsideStays(data, start, a, p - 1);
      ModeStep(data, start, p - 1);
    }
  }

  ghost predicate InString(data: Bytes, start: nat, a: nat, b: nat) {
    start <= a &&
    forall k :: a <= k < b && k <= |data| ==> ModeAt(data, start, k) == Inside || ModeAt(data, start, k) == Escaped
  }

  lemma {:induction false} StringIsSkipped(data: Bytes, start: nat, k: nat, end: nat)
    requires start <= k <= end <= |data| && ModeAt(data, start, k) == Inside
    ensures var next := SkipString(data, k, end);
            if next.Some? then ModeAt(data, start, next.value) == Code && InString(data, start, k, next.value) && data[next.value - 1] == 34
            else InString(data, start, k, end + 1)
    decreases end - k
  {
    if k < end {
      ModeStep(data, start, k);
      if data[k] == 92 {
        if k + 1 < end {
          ModeStep(data, start, k + 1);
          StringIsSkipped(data, start, k + 2, end);
        }
      } else if data[k] != 34 {
        StringIsSkipped(data, start, k + 1, end);
      }
    }
  }

  // Where the scanner stands between its steps: in code, and not on the second of two slashes.
  ghost predicate Standing(data: Bytes, start: nat, i: nat, end: nat) {
    && start <= i <= end <= |data| && ModeAt(data, start, i) == Code
    && (i > start && i < end ==> !(data[i - 1] == 47 && data[i] == 47))
  }

  ghost predicate NoneActive(data: Bytes, start: nat, end: nat, a: nat, b: nat) {
    forall p :: a <= p < b ==> !Active(data, start, end, p)
  }

  lemma ActiveIsBoundary(data: Bytes, start: nat, i: nat, end: nat)
    requires start <= i < end <= |data| && ModeAt(data, start, i) == Code
    ensures Active(data, start, end, i) <==> HasBoundary(data, i, end)
  {
    if i + 8 <= end {
      var word := data[i..i + 8];
      assert forall k :: 0 <= k < 8 ==> word[k] == data[i + k];
      if word == LAUNCHER { assert data[i] == word[0] && data[i + 1] == word[1] && data[i + 2] == word[2] && data[i + 3] == word[3]
        && data[i + 4] == word[4] && data[i + 5] == word[5] && data[i + 6] == word[6] && data[i + 7] == word[7]; }
    }
  }

  lemma SlashStep(data: Bytes, start: nat, i: nat, end: nat)
    requires Standing(data, start, i, end) && i < end && data[i] == 47
    ensures StepAt(data, i, end).Comment? ==> ModeAt(data, start, end) == Remark && NoneActive(data, start, end, i, end)
    ensures !StepAt(data, i, end).Comment? ==>
      && StepAt(data, i, end) == Onward(i + 1) && Standing(data, start, i + 1, end) && NoneActive(data, start, end, i, i + 1)
  {
    ModeStep(data, start, i);
    if i + 1 < end && data[i + 1] == 47 {
      ModeStep(data, start, i + 1);
      forall p | i + 2 <= p <= end
        ensures ModeAt(data, start, p) == Remark
      {
        RemarkStays(data, start, i + 2, p);
      }
    }
  }

  lemma StringStep(data: Bytes, start: nat, i: nat, end: nat)
    requires Standing(data, start, i, end) && i < end && data[i] == 34
    ensures StepAt(data, i, end).Refused? ==>
      ModeAt(data, start, end) == Inside || ModeAt(data, start, end) == Escaped
    ensures !StepAt(data, i, end).Refused? ==>
      var step := StepAt(data, i, end);
      step.Onward? && Standing(data, start, step.next, end) && NoneActive(data, start, end, i, step.next)
  {
    hide SkipString, HasBoundary, AfterName;
    ModeStep(data, start, i);
    StringIsSkipped(data, start, i + 1, end);
    NoneInString(data, start, end, i, if SkipString(data, i + 1, end).Some? then SkipString(data, i + 1, end).value else i + 1);
  }

  lemma NoneInString(data: Bytes, start: nat, end: nat, i: nat, next: nat)
    requires i < next <= end <= |data| && data[i] == 34 && InString(data, start, i + 1, next)
    ensures NoneActive(data, start, end, i, next)
  {
    hide ModeAt;
  }

  // Past the name, where there is no colon.
  lemma BareStep(data: Bytes, start: nat, i: nat, end: nat)
    requires Standing(data, start, i, end) && i < end && Active(data, start, end, i)
    ensures ModeAt(data, start, i + 8) == Code && NoneActive(data, start, end, i + 1, i + 8)
    ensures Standing(data, start, i + 8, end)
  {
    CodeStays(data, start, i, i + 8);
  }

  lemma BlanksEnd(data: Bytes, from: nat, end: nat, b: nat)
    requires from <= end <= |data| && from <= b < end && Blanks(data, from, b) && !IsHorizontalSpace(data[b])
    ensures SkipSpace(data, from, end) == b
  {
    assert forall k :: from <= k < b ==> IsHorizontalSpace(data[k]);
  }

  lemma ColonIsFirst(data: Bytes, end: nat, p: nat, colon: nat)
    requires p + 8 <= end <= |data|
    ensures ColonAt(data, end, p, colon) <==>
      colon == SkipSpace(data, p + 8, end) && colon < end && data[colon] == 58
  {
    if ColonAt(data, end, p, colon) { BlanksEnd(data, p + 8, end, colon); }
  }

  lemma {:induction false} PlainCloses(data: Bytes, offset: nat, close: nat, end: nat)
    requires offset <= close < end <= |data| && data[close] == 34
    requires forall k :: offset <= k < close ==> data[k] != 34 && data[k] != 92
    ensures ClosingQuote(data, offset, end) == Some(close)
    decreases close - offset
  {
    if offset < close { PlainCloses(data, offset + 1, close, end); }
  }

  // The value behind a colon is the one the scanner reads.
  lemma ValueIsRead(data: Bytes, end: nat, colon: nat, m: Match, comma: nat)
    requires colon < end <= |data|
    ensures ValueAt(data, end, colon, m, comma) <==> FieldAt(data, SkipSpace(data, colon + 1, end), end) == Field(m, comma + 1)
  {
    hide ValueAt, FieldAt;
    if ValueAt(data, end, colon, m, comma) { ProperValueIsRead(data, end, colon, m, comma); }
    if FieldAt(data, SkipSpace(data, colon + 1, end), end) == Field(m, comma + 1) { ReadValueIsProper(data, end, colon, m, comma); }
  }

  lemma ProperValueIsRead(data: Bytes, end: nat, colon: nat, m: Match, comma: nat)
    requires colon < end <= |data| && ValueAt(data, end, colon, m, comma)
    ensures FieldAt(data, SkipSpace(data, colon + 1, end), end) == Field(m, comma + 1)
  {
    hide SkipSpace, ClosingQuote;
    BlanksEnd(data, colon + 1, end, m.start - 1);
    PlainCloses(data, m.start, m.end, end);
    BlanksEnd(data, m.end + 1, end, comma);
  }

  lemma ReadValueIsProper(data: Bytes, end: nat, colon: nat, m: Match, comma: nat)
    requires colon < end <= |data| && FieldAt(data, SkipSpace(data, colon + 1, end), end) == Field(m, comma + 1)
    ensures ValueAt(data, end, colon, m, comma)
  {
    hide SkipSpace, ClosingQuote;
  }

  // What the scanner does behind a whole name.
  lemma StepIsAfterName(data: Bytes, start: nat, i: nat, end: nat)
    requires Standing(data, start, i, end) && i < end && Active(data, start, end, i)
    ensures i + 8 <= end && StepAt(data, i, end) == AfterName(data, i + 8, end)
  {
    hide AfterName, HasBoundary, ModeAt;
    ActiveIsBoundary(data, start, i, end);
    assert |LAUNCHER| == 8;
  }

  lemma FieldsAreRead(data: Bytes, start: nat, i: nat, end: nat)
    requires Standing(data, start, i, end) && i < end && Active(data, start, end, i)
    ensures StepAt(data, i, end).Onward? <==> !HasColon(data, end, i)
    ensures StepAt(data, i, end).Onward? ==> StepAt(data, i, end).next == i + 8
    ensures !StepAt(data, i, end).Comment?
    ensures forall m :: IsFieldAt(data, end, i, m) <==> StepAt(data, i, end).Field? && m == StepAt(data, i, end).field
  {
    hide FieldAt, StepAt, ValueAt, ColonAt, Active, ModeAt;
    StepIsAfterName(data, start, i, end);
    var colon := SkipSpace(data, i + 8, end);
    forall c: nat
      ensures ColonAt(data, end, i, c) <==> c == colon && colon < end && data[colon] == 58
    {
      ColonIsFirst(data, end, i, c);
    }
    if colon < end && data[colon] == 58 {
      ValuesAreRead(data, end, i, colon);
      assert ColonAt(data, end, i, colon);
    } else {
      assert forall m :: !IsFieldAt(data, end, i, m);
    }
  }

  lemma ValuesAreRead(data: Bytes, end: nat, i: nat, colon: nat)
    requires colon < end <= |data|
    requires forall c: nat :: ColonAt(data, end, i, c) <==> c == colon
    ensures var step := FieldAt(data, SkipSpace(data, colon + 1, end), end);
            forall m :: IsFieldAt(data, end, i, m) <==> step.Field? && m == step.field
  {
    hide FieldAt, ValueAt, ColonAt;
    var step := FieldAt(data, SkipSpace(data, colon + 1, end), end);
    forall m
      ensures IsFieldAt(data, end, i, m) <==> step.Field? && m == step.field
    {
      if step.Field? && m == step.field { ValueIsRead(data, end, colon, m, step.next - 1); }
      if c, comma :| ColonAt(data, end, i, c) && ValueAt(data, end, c, m, comma) { ValueIsRead(data, end, colon, m, comma); }
    }
  }

  lemma FieldStep(data: Bytes, start: nat, i: nat, end: nat)
    requires Standing(data, start, i, end) && i < end && Active(data, start, end, i) && StepAt(data, i, end).Field?
    ensures var step := StepAt(data, i, end);
            Standing(data, start, step.next, end) && NoneActive(data, start, end, i + 1, step.next)
  {
    hide StepAt, Active, ModeAt;
    var step := StepAt(data, i, end);
    FieldsAreRead(data, start, i, end);
    assert IsFieldAt(data, end, i, step.field);
    BareStep(data, start, i, end);
    var colon, comma :| ColonAt(data, end, i, colon) && ValueAt(data, end, colon, step.field, comma);
    NextIsPastComma(data, end, i, start, colon, comma);
    PastValue(data, start, end, i, colon, step.field, comma);
  }

  lemma NextIsPastComma(data: Bytes, end: nat, i: nat, start: nat, colon: nat, comma: nat)
    requires Standing(data, start, i, end) && i < end && Active(data, start, end, i)
    requires StepAt(data, i, end).Field? && ColonAt(data, end, i, colon) && ValueAt(data, end, colon, StepAt(data, i, end).field, comma)
    ensures StepAt(data, i, end).next == comma + 1
  {
    hide FieldAt, StepAt, ValueAt, ColonAt, Active, ModeAt;
    StepIsAfterName(data, start, i, end);
    ColonIsFirst(data, end, i, colon);
    ColonFits(data, end, i, colon);
    ValueIsRead(data, end, colon, StepAt(data, i, end).field, comma);
  }

  lemma ColonFits(data: Bytes, end: nat, i: nat, colon: nat)
    requires ColonAt(data, end, i, colon)
    ensures colon < end <= |data|
  {
  }

  // The modes across a field: in code up to the quote, inside to the other, in code behind it.
  lemma PastValue(data: Bytes, start: nat, end: nat, i: nat, colon: nat, m: Match, comma: nat)
    requires start <= i && i + 8 <= end <= |data| && ModeAt(data, start, i + 8) == Code
    requires ColonAt(data, end, i, colon) && ValueAt(data, end, colon, m, comma)
    requires NoneActive(data, start, end, i + 1, i + 8)
    ensures Standing(data, start, comma + 1, end) && NoneActive(data, start, end, i + 1, comma + 1)
  {
    CodeStays(data, start, i + 8, m.start - 1);
    ModeStep(data, start, m.start - 1);
    InsideStays(data, start, m.start, m.end);
    ModeStep(data, start, m.end);
    CodeStays(data, start, m.end + 1, comma + 1);
  }

  // ---- One line ----

  ghost predicate FieldFrom(data: Bytes, start: nat, end: nat, i: nat, m: Match) {
    exists p :: i <= p && Active(data, start, end, p) && IsFieldAt(data, end, p, m)
  }

  ghost predicate BrokenFrom(data: Bytes, start: nat, end: nat, i: nat)
    requires start <= end <= |data|
  {
    || ModeAt(data, start, end) == Inside || ModeAt(data, start, end) == Escaped
    || exists p :: i <= p && BadField(data, start, end, p)
  }

  ghost predicate InOrder(fields: seq<Match>) {
    forall j, k :: 0 <= j < k < |fields| ==> fields[j].end < fields[k].start
  }

  // What the scan from a position on finds, if it starts with this step.
  ghost predicate Finds(data: Bytes, start: nat, end: nat, i: nat, result: Result<seq<Match>, ScanError>)
    requires start <= end <= |data|
  {
    && (result.Err? <==> BrokenFrom(data, start, end, i))
    && (result.Ok? ==>
          && InOrder(result.value)
          && forall m :: m in result.value <==> FieldFrom(data, start, end, i, m))
  }

  lemma SkipsNothing(data: Bytes, start: nat, end: nat, i: nat, next: nat, result: Result<seq<Match>, ScanError>)
    requires start <= end <= |data| && i <= next && Finds(data, start, end, next, result)
    requires forall p :: i <= p < next ==> !BadField(data, start, end, p)
    requires forall p, m :: i <= p < next && Active(data, start, end, p) ==> !IsFieldAt(data, end, p, m)
    ensures Finds(data, start, end, i, result)
  {
    hide Active, IsFieldAt, BadField;
    forall m
      ensures FieldFrom(data, start, end, i, m) <==> FieldFrom(data, start, end, next, m)
    {
      if p :| i <= p && Active(data, start, end, p) && IsFieldAt(data, end, p, m) { assert next <= p; }
      if p :| next <= p && Active(data, start, end, p) && IsFieldAt(data, end, p, m) { assert i <= p; }
    }
    if p :| i <= p && BadField(data, start, end, p) { assert next <= p; }
    if p :| next <= p && BadField(data, start, end, p) { assert i <= p; }
  }

  lemma {:induction false} LineIsRead(data: Bytes, start: nat, i: nat, end: nat, line: nat)
    requires Standing(data, start, i, end)
    ensures Finds(data, start, end, i, LineFields(data, i, end, line))
    decreases end - i
  {
    hide StepAt, Active, IsFieldAt, BadField, HasColon, Finds, ModeAt;
    if i == end {
      NothingLeft(data, start, end);
    } else if data[i] == 47 {
      SlashStep(data, start, i, end);
      if StepAt(data, i, end).Comment? {
        CommentEnds(data, start, end, i);
      } else {
        LineIsRead(data, start, i + 1, end, line);
        PassesOver(data, start, end, i, i + 1, LineFields(data, i + 1, end, line));
      }
    } else if data[i] == 34 {
      StringStep(data, start, i, end);
      var step := StepAt(data, i, end);
      if step.Refused? {
        OpenString(data, start, end, i, line);
      } else {
        LineIsRead(data, start, step.next, end, line);
        PassesOver(data, start, end, i, step.next, LineFields(data, step.next, end, line));
      }
    } else if !Active(data, start, end, i) {
      PlainStep(data, start, i, end);
      LineIsRead(data, start, i + 1, end, line);
      PassesOver(data, start, end, i, i + 1, LineFields(data, i + 1, end, line));
    } else {
      NameIsRead(data, start, i, end, line);
      var step := StepAt(data, i, end);
      if step.Onward? || step.Field? { LineIsRead(data, start, step.next, end, line); }
      NameIsFound(data, start, i, end, line);
    }
  }

  lemma NothingLeft(data: Bytes, start: nat, end: nat)
    requires Standing(data, start, end, end)
    ensures Finds(data, start, end, end, Ok([]))
  {
  }

  lemma CommentEnds(data: Bytes, start: nat, end: nat, i: nat)
    requires start <= i < end <= |data| && ModeAt(data, start, end) == Remark && NoneActive(data, start, end, i, end)
    ensures Finds(data, start, end, i, Ok([]))
  {
    assert forall p :: i <= p ==> !Active(data, start, end, p);
  }

  lemma OpenString(data: Bytes, start: nat, end: nat, i: nat, line: nat)
    requires start <= i < end <= |data| && (ModeAt(data, start, end) == Inside || ModeAt(data, start, end) == Escaped)
    ensures Finds(data, start, end, i, Err(InvalidAtLine(line)))
  {
  }

  lemma PassesOver(data: Bytes, start: nat, end: nat, i: nat, next: nat, result: Result<seq<Match>, ScanError>)
    requires start <= end <= |data| && i <= next && Finds(data, start, end, next, result) && NoneActive(data, start, end, i, next)
    ensures Finds(data, start, end, i, result)
  {
    hide Active, IsFieldAt, Finds, HasColon;
    SkipsNothing(data, start, end, i, next, result);
  }

  lemma PlainStep(data: Bytes, start: nat, i: nat, end: nat)
    requires Standing(data, start, i, end) && i < end && data[i] != 47 && data[i] != 34 && !Active(data, start, end, i)
    ensures StepAt(data, i, end) == Onward(i + 1) && Standing(data, start, i + 1, end)
    ensures NoneActive(data, start, end, i, i + 1)
  {
    ActiveIsBoundary(data, start, i, end);
    ModeStep(data, start, i);
  }

  lemma NameIsRead(data: Bytes, start: nat, i: nat, end: nat, line: nat)
    requires Standing(data, start, i, end) && i < end && Active(data, start, end, i)
    ensures !StepAt(data, i, end).Comment?
    ensures StepAt(data, i, end).Onward? || StepAt(data, i, end).Field? ==> Standing(data, start, StepAt(data, i, end).next, end)
  {
    hide StepAt, Active, IsFieldAt, HasColon, ModeAt;
    FieldsAreRead(data, start, i, end);
    BareStep(data, start, i, end);
    if StepAt(data, i, end).Field? { FieldStep(data, start, i, end); }
  }

  lemma NameIsFound(data: Bytes, start: nat, i: nat, end: nat, line: nat)
    requires Standing(data, start, i, end) && i < end && Active(data, start, end, i)
    requires var step := StepAt(data, i, end);
             step.Onward? || step.Field? ==> Finds(data, start, end, step.next, LineFields(data, step.next, end, line))
    ensures Finds(data, start, end, i, LineFields(data, i, end, line))
  {
    hide StepAt, Active, IsFieldAt, HasColon, Finds, ModeAt;
    var step := StepAt(data, i, end);
    FieldsAreRead(data, start, i, end);
    BareStep(data, start, i, end);
    if step.Onward? {
      NoFieldHere(data, start, end, i);
      SkipsNothing(data, start, end, i, i + 8, LineFields(data, i + 8, end, line));
    } else if step.Refused? {
      RefusedHere(data, start, end, i, line);
    } else {
      FieldStep(data, start, i, end);
      NextLieBehind(data, step.next, end, line);
      OneMoreField(data, start, end, i, step.next, step.field, LineFields(data, step.next, end, line));
    }
  }

  lemma NoFieldHere(data: Bytes, start: nat, end: nat, i: nat)
    requires start <= end <= |data| && !HasColon(data, end, i) && NoneActive(data, start, end, i + 1, i + 8)
    ensures forall p :: i <= p < i + 8 ==> !BadField(data, start, end, p)
    ensures forall p, m :: i <= p < i + 8 && Active(data, start, end, p) ==> !IsFieldAt(data, end, p, m)
  {
    hide Active;
    forall m
      ensures !IsFieldAt(data, end, i, m)
    {
    }
  }

  lemma RefusedHere(data: Bytes, start: nat, end: nat, i: nat, line: nat)
    requires start <= i < end <= |data| && Active(data, start, end, i) && HasColon(data, end, i)
    requires forall m :: !IsFieldAt(data, end, i, m)
    ensures Finds(data, start, end, i, Err(InvalidAtLine(line)))
  {
    hide Active, IsFieldAt, HasColon;
    assert BadField(data, start, end, i);
  }

  lemma NextLieBehind(data: Bytes, i: nat, end: nat, line: nat)
    requires i <= end <= |data|
    ensures LineFields(data, i, end, line).Ok? ==>
      forall k :: 0 <= k < |LineFields(data, i, end, line).value| ==> i < LineFields(data, i, end, line).value[k].start
  {
    LineFieldsLieInside(data, i, end, line);
  }

  lemma OneMoreField(data: Bytes, start: nat, end: nat, i: nat, next: nat, field: Match, rest: Result<seq<Match>, ScanError>)
    requires start <= end <= |data| && i < next && field.end < next && Finds(data, start, end, next, rest)
    requires Active(data, start, end, i) && NoneActive(data, start, end, i + 1, next)
    requires forall m :: IsFieldAt(data, end, i, m) <==> m == field
    requires rest.Ok? ==> forall k :: 0 <= k < |rest.value| ==> next < rest.value[k].start
    ensures Finds(data, start, end, i, Prepend([field], rest))
  {
    hide Active, IsFieldAt, HasColon;
    assert IsFieldAt(data, end, i, field);
    if p :| i <= p && BadField(data, start, end, p) { assert next <= p; }
    if p :| next <= p && BadField(data, start, end, p) { assert i <= p; }
    if rest.Ok? {
      var all := [field] + rest.value;
      forall m
        ensures m in all <==> FieldFrom(data, start, end, i, m)
      {
        assert m in all <==> m == field || m in rest.value;
        if p :| i <= p && Active(data, start, end, p) && IsFieldAt(data, end, p, m) { assert p == i || next <= p; }
        if p :| next <= p && Active(data, start, end, p) && IsFieldAt(data, end, p, m) { assert i <= p; }
      }
    }
  }

  // A line is refused exactly when it is broken; otherwise its fields are exactly the active ones, in order.
  lemma LineExactly(data: Bytes, start: nat, end: nat, line: nat)
    requires start <= end <= |data|
    ensures LineFields(data, start, end, line).Err? <==> Broken(data, start, end)
    ensures LineFields(data, start, end, line).Ok? ==>
      var fields := LineFields(data, start, end, line).value;
      InOrder(fields) && forall m :: m in fields <==> FieldIn(data, start, end, m)
  {
    hide LineFields, IsFieldAt, HasColon, ModeAt;
    StartIsStanding(data, start, end);
    LineIsRead(data, start, start, end, line);
    FromTheStart(data, start, end);
  }

  lemma FromTheStart(data: Bytes, start: nat, end: nat)
    requires start <= end <= |data|
    ensures BrokenFrom(data, start, end, start) <==> Broken(data, start, end)
    ensures forall m :: FieldFrom(data, start, end, start, m) <==> FieldIn(data, start, end, m)
  {
    hide IsFieldAt, HasColon, ModeAt;
    forall m
      ensures FieldFrom(data, start, end, start, m) <==> FieldIn(data, start, end, m)
    {
      if p :| Active(data, start, end, p) && IsFieldAt(data, end, p, m) { assert start <= p; }
    }
    if p :| BadField(data, start, end, p) { assert start <= p; }
  }

  lemma StartIsStanding(data: Bytes, start: nat, end: nat)
    requires start <= end <= |data|
    ensures Standing(data, start, start, end)
  {
  }

  // ---- All lines ----

  ghost predicate IsLine(data: Bytes, start: nat, end: nat) {
    && start <= end <= |data|
    && (start == 0 || data[start - 1] == 10)
    && (end == |data| || data[end] == 10)
    && forall k :: start <= k < end ==> data[k] != 10
  }

  // A Launcher field outside strings and comments, on some line of the file.
  ghost predicate ActiveField(data: Bytes, m: Match) {
    exists start, end :: IsLine(data, start, end) && FieldIn(data, start, end, m)
  }

  ghost predicate Unreadable(data: Bytes) {
    exists start, end :: IsLine(data, start, end) && Broken(data, start, end)
  }

  ghost predicate ActiveFrom(data: Bytes, from: nat, m: Match) {
    exists start, end :: from <= start && IsLine(data, start, end) && FieldIn(data, start, end, m)
  }

  ghost predicate UnreadableFrom(data: Bytes, from: nat) {
    exists start, end :: from <= start && IsLine(data, start, end) && Broken(data, start, end)
  }

  lemma LinesFrom(data: Bytes, from: nat, end: nat, s: nat, e: nat)
    requires IsLine(data, from, end) && IsLine(data, s, e) && from <= s
    ensures (s == from && e == end) || (end < |data| && end + 1 <= s)
  {
  }

  ghost predicate Reads(data: Bytes, from: nat, result: Result<seq<Match>, ScanError>) {
    && (result.Err? <==> UnreadableFrom(data, from))
    && (result.Ok? ==>
          && InOrder(result.value)
          && forall m :: m in result.value <==> ActiveFrom(data, from, m))
  }

  lemma {:induction false} FieldsAreActive(data: Bytes, from: nat, line: nat)
    requires from <= |data| && (from == 0 || data[from - 1] == 10)
    ensures Reads(data, from, Fields(data, from, line))
    decreases |data| - from
  {
    hide LineFields, FieldIn, Broken, IsLine, Reads, InOrder;
    var end := LineEnd(data, from);
    LineIsLine(data, from, end);
    LineExactly(data, from, end, line);
    var first := LineFields(data, from, end, line);
    if end == |data| {
      LastLineIsRead(data, from, first);
    } else {
      FieldsAreActive(data, end + 1, line + 1);
      FieldsLieBetween(data, from, end, line);
      NextLineIsRead(data, from, end, first, Fields(data, end + 1, line + 1));
    }
  }

  lemma LineIsLine(data: Bytes, from: nat, end: nat)
    requires from <= |data| && (from == 0 || data[from - 1] == 10) && end == LineEnd(data, from)
    ensures IsLine(data, from, end)
  {
  }

  lemma LastLineIsRead(data: Bytes, from: nat, result: Result<seq<Match>, ScanError>)
    requires IsLine(data, from, |data|)
    requires result.Err? <==> Broken(data, from, |data|)
    requires result.Ok? ==> InOrder(result.value) && forall m :: m in result.value <==> FieldIn(data, from, |data|, m)
    ensures Reads(data, from, result)
  {
    hide FieldIn, Broken, IsLine, InOrder;
    forall s: nat, e: nat | from <= s && IsLine(data, s, e)
      ensures s == from && e == |data|
    {
      LinesFrom(data, from, |data|, s, e);
    }
    OnlyLine(data, from, |data|);
  }

  lemma OnlyLine(data: Bytes, from: nat, end: nat)
    requires IsLine(data, from, end) && forall s: nat, e: nat :: from <= s && IsLine(data, s, e) ==> s == from && e == end
    ensures UnreadableFrom(data, from) <==> Broken(data, from, end)
    ensures forall m :: ActiveFrom(data, from, m) <==> FieldIn(data, from, end, m)
  {
    hide FieldIn, Broken, IsLine;
  }

  lemma FieldsLieBetween(data: Bytes, from: nat, end: nat, line: nat)
    requires from <= end < |data|
    ensures LineFields(data, from, end, line).Ok? ==>
      forall k :: 0 <= k < |LineFields(data, from, end, line).value| ==> LineFields(data, from, end, line).value[k].end < end
    ensures var rest := Fields(data, end + 1, line + 1);
            rest.Ok? ==> forall k :: 0 <= k < |rest.value| ==> end < rest.value[k].start
  {
    LineFieldsLieInside(data, from, end, line);
    FieldsLieInside(data, end + 1, line + 1);
  }

  lemma NextLineIsRead(data: Bytes, from: nat, end: nat, first: Result<seq<Match>, ScanError>, rest: Result<seq<Match>, ScanError>)
    requires IsLine(data, from, end) && end < |data| && Reads(data, end + 1, rest)
    requires first.Err? <==> Broken(data, from, end)
    requires first.Ok? ==> InOrder(first.value) && forall m :: m in first.value <==> FieldIn(data, from, end, m)
    requires first.Ok? ==> forall k :: 0 <= k < |first.value| ==> first.value[k].end < end
    requires rest.Ok? ==> forall k :: 0 <= k < |rest.value| ==> end < rest.value[k].start
    ensures Reads(data, from, if first.Err? then first else Prepend(first.value, rest))
  {
    hide FieldIn, Broken, IsLine;
    FirstOrLater(data, from, end);
    if first.Ok? && rest.Ok? {
      var all := first.value + rest.value;
      assert forall m :: m in all <==> m in first.value || m in rest.value;
      assert forall j :: |first.value| <= j < |all| ==> all[j] == rest.value[j - |first.value|];
    }
  }

  lemma FirstOrLater(data: Bytes, from: nat, end: nat)
    requires IsLine(data, from, end) && end < |data|
    ensures UnreadableFrom(data, from) <==> Broken(data, from, end) || UnreadableFrom(data, end + 1)
    ensures forall m :: ActiveFrom(data, from, m) <==> FieldIn(data, from, end, m) || ActiveFrom(data, end + 1, m)
  {
    hide FieldIn, Broken, IsLine;
    forall s: nat, e: nat | from <= s && IsLine(data, s, e)
      ensures (s == from && e == end) || end + 1 <= s
    {
      LinesFrom(data, from, end, s, e);
    }
    LineFits(data, from, end);
  }

  lemma LineFits(data: Bytes, from: nat, end: nat)
    requires IsLine(data, from, end)
    ensures from <= end <= |data|
  {
  }

  // A file is refused exactly when one of its lines is broken; otherwise the fields found are exactly the
  // active ones, in the order they stand in.
  lemma FieldsExactly(data: Bytes)
    ensures Fields(data, 0, 1).Err? <==> Unreadable(data)
    ensures Fields(data, 0, 1).Ok? ==>
      InOrder(Fields(data, 0, 1).value) && forall m :: m in Fields(data, 0, 1).value <==> ActiveField(data, m)
  {
    hide FieldIn, Broken, IsLine, Fields, InOrder;
    FieldsAreActive(data, 0, 1);
    FromTheTop(data);
  }

  lemma FromTheTop(data: Bytes)
    ensures UnreadableFrom(data, 0) <==> Unreadable(data)
    ensures forall m :: ActiveFrom(data, 0, m) <==> ActiveField(data, m)
  {
    hide FieldIn, Broken;
    if start, end :| IsLine(data, start, end) && Broken(data, start, end) { assert UnreadableFrom(data, 0); }
    forall m
      ensures ActiveFrom(data, 0, m) <==> ActiveField(data, m)
    {
      if start, end :| IsLine(data, start, end) && FieldIn(data, start, end, m) { assert ActiveFrom(data, 0, m); }
    }
  }

  // ---- The rewriter ----

  ghost predicate OnlyActive(data: Bytes, m: Match) {
    ActiveField(data, m) && forall n :: ActiveField(data, n) ==> n == m
  }

  // cosmic-launcher, vicinae toggle
  const OLD_VALUE: Bytes := [99, 111, 115, 109, 105, 99, 45, 108, 97, 117, 110, 99, 104, 101, 114]
  const NEW_VALUE: Bytes := [118, 105, 99, 105, 110, 97, 101, 32, 116, 111, 103, 103, 108, 101]

  // Which files are accepted, what becomes of them, and which error each other file gets.
  lemma RewriteExactlyWhen(data: Bytes)
    ensures Rewritten(data).Ok? <==>
      && IsUtf8(data) && !Unreadable(data)
      && exists m :: OnlyActive(data, m) && (m.value == OLD_VALUE || m.value == NEW_VALUE)
    ensures forall m :: Rewritten(data).Ok? && OnlyActive(data, m) ==>
      m.start <= m.end <= |data| && Rewritten(data).value == data[..m.start] + NEW_VALUE + data[m.end..]
    ensures Rewritten(data) == Err(NotUtf8) <==> !IsUtf8(data)
    ensures Rewritten(data) == Err(NoField) <==> IsUtf8(data) && !Unreadable(data) && !exists m :: ActiveField(data, m)
    ensures (Rewritten(data).Err? && Rewritten(data).error.Scan?) <==> IsUtf8(data) && Unreadable(data)
    ensures (Rewritten(data).Err? && Rewritten(data).error.Ambiguous?) <==>
      IsUtf8(data) && !Unreadable(data) && exists m, n :: ActiveField(data, m) && ActiveField(data, n) && m != n
  {
    hide Fields, IsUtf8, Unreadable, ActiveField, OLD_VALUE, NEW_VALUE, STOCK, DESIRED;
    FieldsExactly(data);
    SameValues();
    if Fields(data, 0, 1).Ok? {
      var fields := Fields(data, 0, 1).value;
      if |fields| == 0 {
        assert forall m :: m !in fields;
      } else if |fields| == 1 {
        assert fields == [fields[0]];
        assert OnlyActive(data, fields[0]);
        SplicedIs(data, fields[0]);
      } else {
        assert fields[0] in fields && fields[1] in fields && fields[0] != fields[1] by {
          FieldsLieInside(data, 0, 1);
          DifferentFields(fields);
        }
      }
    }
  }

  lemma DifferentFields(fields: seq<Match>)
    requires InOrder(fields) && |fields| > 1 && fields[0].start <= fields[0].end
    ensures fields[0] != fields[1]
  {
  }

  lemma SplicedIs(data: Bytes, m: Match)
    requires Fields(data, 0, 1) == Ok([m])
    ensures m.start <= m.end <= |data| && m.value == data[m.start..m.end]
    ensures Spliced(data, m) == data[..m.start] + NEW_VALUE + data[m.end..]
    ensures m.value == NEW_VALUE ==> data == data[..m.start] + NEW_VALUE + data[m.end..]
  {
    hide Fields, NEW_VALUE, DESIRED;
    FieldsLieInside(data, 0, 1);
    assert [m][0] == m;
    SameValues();
    AroundValue(data, m.start, m.end);
  }

  lemma SameValues()
    ensures NEW_VALUE == DESIRED && OLD_VALUE == STOCK
  {
  }

  lemma AroundValue(data: Bytes, a: nat, b: nat)
    requires a <= b <= |data|
    ensures data == data[..a] + data[a..b] + data[b..]
  {
  }

  // ---- A comment in front ----

  lemma {:induction false} NumberingIsFree(data: Bytes, start: nat, line: nat, other: nat)
    requires start <= |data|
    ensures Fields(data, start, line).Ok? <==> Fields(data, start, other).Ok?
    ensures Fields(data, start, line).Ok? ==> Fields(data, start, line) == Fields(data, start, other)
    decreases |data| - start
  {
    hide LineFields;
    var end := LineEnd(data, start);
    LineNumberingIsFree(data, start, end, line, other);
    if end < |data| { NumberingIsFree(data, end + 1, line + 1, other + 1); }
  }

  lemma {:induction false} LineNumberingIsFree(data: Bytes, i: nat, end: nat, line: nat, other: nat)
    requires i <= end <= |data|
    ensures LineFields(data, i, end, line).Ok? <==> LineFields(data, i, end, other).Ok?
    ensures LineFields(data, i, end, line).Ok? ==> LineFields(data, i, end, line) == LineFields(data, i, end, other)
    decreases end - i
  {
    hide StepAt;
    if i < end {
      var step := StepAt(data, i, end);
      if step.Onward? || step.Field? { LineNumberingIsFree(data, step.next, end, line, other); }
    }
  }

  function Commented(c: Bytes, data: Bytes): Bytes {
    [47, 47] + c + [10] + data
  }

  lemma CommentedFields(c: Bytes, data: Bytes)
    requires forall k :: 0 <= k < |c| ==> c[k] != 10
    ensures Fields(Commented(c, data), 0, 1) == MovedAll(Fields(data, 0, 2), |c| + 3)
  {
    hide LineFields, MovedAll;
    var all, s := Commented(c, data), |c| + 3;
    assert all[0] == 47 && all[1] == 47 && all[s - 1] == 10;
    forall k | 0 <= k < s - 1
      ensures all[k] != 10
    {
      if k >= 2 { assert all[k] == c[k - 2]; }
    }
    LineEndIs(all, 0, s - 1);
    CommentHasNoFields(all, s - 1);
    assert all[s..] == data;
    FieldsMove(all, s, 0, 2);
    var moved := MovedAll(Fields(data, 0, 2), s);
    if moved.Ok? { assert [] + moved.value == moved.value; }
  }

  lemma CommentHasNoFields(data: Bytes, end: nat)
    requires 2 <= end <= |data| && data[0] == 47 && data[1] == 47
    ensures LineFields(data, 0, end, 1) == Ok([])
  {
  }

  // A comment line in front changes nothing but where things stand: the file is accepted exactly when it
  // was without the comment, and what it becomes has the comment in front.
  lemma CommentLineIsInert(c: Bytes, data: Bytes)
    requires IsUtf8(c) && forall k :: 0 <= k < |c| ==> c[k] != 10
    ensures Rewritten([47, 47] + c + [10] + data).Ok? <==> Rewritten(data).Ok?
    ensures Rewritten(data).Ok? ==> Rewritten([47, 47] + c + [10] + data).value == [47, 47] + c + [10] + Rewritten(data).value
  {
    hide Fields, IsUtf8, DESIRED, STOCK;
    var all := Commented(c, data);
    CommentedFields(c, data);
    NumberingIsFree(data, 0, 1, 2);
    CommentIsUtf8(c, data);
    var fields := Fields(data, 0, 1);
    if fields.Ok? && |fields.value| == 1 {
      FieldsLieInside(data, 0, 1);
      SplicedBehind(c, data, fields.value[0]);
      assert MovedAll(fields, |c| + 3).value == [Moved(fields.value[0], |c| + 3)];
    }
  }

  lemma SplicedBehind(c: Bytes, data: Bytes, m: Match)
    requires m.start <= m.end <= |data|
    ensures var n := Moved(m, |c| + 3);
            n.end <= |Commented(c, data)| && Spliced(Commented(c, data), n) == Commented(c, Spliced(data, m))
  {
    var front, n := [47, 47] + c + [10], Moved(m, |c| + 3);
    var all := front + data;
    assert all[..n.start] == front + data[..m.start] && all[n.end..] == data[m.end..];
    AppendIsAssociative(front, data[..m.start], DESIRED);
    AppendIsAssociative(front, data[..m.start] + DESIRED, data[m.end..]);
  }

  lemma CommentIsUtf8(c: Bytes, data: Bytes)
    requires IsUtf8(c)
    ensures IsUtf8(Commented(c, data)) <==> IsUtf8(data)
  {
    hide IsUtf8;
    AsciiBlockSplits([], [47, 47], c + [10] + data);
    AsciiBlockSplits(c, [10], data);
    EmptyIsUtf8();
    assert [] + [47, 47] + (c + [10] + data) == Commented(c, data);
  }

  lemma EmptyIsUtf8()
    ensures IsUtf8([])
  {
  }
}
