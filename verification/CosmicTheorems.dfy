// Rewriting one value leaves the scanner's reading of everything else as it was
// (internal/platform/cachyos/vicinae.go:497-523, 549-667).
module CosmicTheorems {
  import opened Text
  import opened Cosmic

  // ---- UTF-8 around ASCII ----

  ghost predicate IsAscii(s: Bytes) {
    forall k :: 0 <= k < |s| ==> s[k] < 0x80
  }

  // An ASCII byte always begins an encoding of its own.
  lemma {:induction false} AsciiSplits(x: Bytes, a: byte, y: Bytes)
    requires a < 0x80
    ensures IsUtf8(x + [a] + y) <==> IsUtf8(x) && IsUtf8(y)
  {
    var s := x + [a] + y;
    if x == [] {
      assert s[1..] == y;
    } else {
      RuneBeforeAscii(x, a, y);
      var n := RuneLength(s);
      if n > 0 {
        assert s[n..] == x[n..] + [a] + y;
        AsciiSplits(x[n..], a, y);
      }
    }
  }

  lemma RuneBeforeAscii(x: Bytes, a: byte, y: Bytes)
    requires x != [] && a < 0x80
    ensures RuneLength(x + [a] + y) == RuneLength(x)
  {
    var s := x + [a] + y;
    assert s[0] == x[0];
    assert |x| == 1 ==> s[1] == a;
    assert |x| == 2 ==> s[1] == x[1] && s[2] == a;
    assert |x| == 3 ==> s[1] == x[1] && s[2] == x[2] && s[3] == a;
    assert |x| > 3 ==> s[1] == x[1] && s[2] == x[2] && s[3] == x[3];
  }

  lemma {:induction false} AsciiBlockSplits(x: Bytes, block: Bytes, y: Bytes)
    requires block != [] && IsAscii(block)
    ensures IsUtf8(x + block + y) <==> IsUtf8(x) && IsUtf8(y)
    decreases |block|
  {
    if |block| == 1 {
      assert block == [block[0]];
      AsciiSplits(x, block[0], y);
    } else {
      var rest := block[1..];
      assert x + block + y == x + [block[0]] + (rest + y);
      AsciiSplits(x, block[0], rest + y);
      AsciiBlockSplits([], rest, y);
      assert [] + rest + y == rest + y;
    }
  }

  // ---- The scanner looks no further than the line's end ----

  lemma {:induction false} SkipSpaceInPrefix(d: Bytes, offset: nat, end: nat)
    requires offset <= end <= |d|
    ensures SkipSpace(d[..end], offset, end) == SkipSpace(d, offset, end)
    decreases end - offset
  {
    if offset < end && IsHorizontalSpace(d[offset]) { SkipSpaceInPrefix(d, offset + 1, end); }
  }

  lemma {:induction false} SkipStringInPrefix(d: Bytes, offset: nat, end: nat)
    requires end <= |d|
    ensures SkipString(d[..end], offset, end) == SkipString(d, offset, end)
    decreases end - offset
  {
    if offset < end {
      if d[offset] != BACKSLASH { SkipStringInPrefix(d, offset + 1, end); }
      else if offset + 1 < end { SkipStringInPrefix(d, offset + 2, end); }
    }
  }

  lemma {:induction false} ClosingQuoteInPrefix(d: Bytes, offset: nat, end: nat)
    requires end <= |d|
    ensures ClosingQuote(d[..end], offset, end) == ClosingQuote(d, offset, end)
    decreases end - offset
  {
    if offset < end { ClosingQuoteInPrefix(d, offset + 1, end); }
  }

  lemma BoundaryInPrefix(d: Bytes, offset: nat, end: nat)
    requires offset <= end <= |d|
    ensures HasBoundary(d[..end], offset, end) == HasBoundary(d, offset, end)
  {
    if offset + |LAUNCHER| <= end {
      assert d[..end][offset..offset + |LAUNCHER|] == d[offset..offset + |LAUNCHER|];
    }
  }

  lemma FieldAtInPrefix(d: Bytes, quote: nat, end: nat)
    requires quote <= end <= |d|
    ensures FieldAt(d[..end], quote, end) == FieldAt(d, quote, end)
  {
    if quote < end && d[quote] == QUOTE {
      ClosingQuoteInPrefix(d, quote + 1, end);
      var close := ClosingQuote(d, quote + 1, end);
      if close.Some? {
        SkipSpaceInPrefix(d, close.value + 1, end);
        assert d[..end][quote + 1..close.value] == d[quote + 1..close.value];
      }
    }
  }

  lemma AfterNameInPrefix(d: Bytes, offset: nat, end: nat)
    requires offset <= end <= |d|
    ensures AfterName(d[..end], offset, end) == AfterName(d, offset, end)
  {
    hide FieldAt, SkipSpace;
    SkipSpaceInPrefix(d, offset, end);
    var colon := SkipSpace(d, offset, end);
    if colon < end {
      SkipSpaceInPrefix(d, colon + 1, end);
      FieldAtInPrefix(d, SkipSpace(d, colon + 1, end), end);
    }
  }

  lemma StepInPrefix(d: Bytes, i: nat, end: nat)
    requires i < end <= |d|
    ensures StepAt(d[..end], i, end) == StepAt(d, i, end)
  {
    hide HasBoundary, AfterName, SkipString, LAUNCHER;
    SkipStringInPrefix(d, i + 1, end);
    BoundaryInPrefix(d, i, end);
    if HasBoundary(d, i, end) {
      BoundaryFits(d, i, end);
      AfterNameInPrefix(d, i + |LAUNCHER|, end);
    }
  }

  lemma {:induction false} LineInPrefix(d: Bytes, i: nat, end: nat, line: nat)
    requires i <= end <= |d|
    ensures LineFields(d[..end], i, end, line) == LineFields(d, i, end, line)
    decreases end - i
  {
    hide StepAt;
    if i < end {
      StepInPrefix(d, i, end);
      var step := StepAt(d, i, end);
      if step.Onward? || step.Field? { LineInPrefix(d, step.next, end, line); }
    }
  }

  // ---- Moving what is scanned moves the result ----

  function MovedStep(step: Step, shift: nat): Step {
    match step
    case Onward(next) => Onward(next + shift)
    case Field(field, next) => Field(Moved(field, shift), next + shift)
    case _ => step
  }

  function Moved(field: Match, shift: nat): Match {
    field.(start := field.start + shift, end := field.end + shift)
  }

  function MovedAll(fields: Result<seq<Match>, ScanError>, shift: nat): Result<seq<Match>, ScanError> {
    match fields
    case Ok(value) => Ok(seq(|value|, k requires 0 <= k < |value| => Moved(value[k], shift)))
    case Err(error) => Err(error)
  }

  lemma {:induction false} SkipSpaceMoves(d: Bytes, s: nat, a: nat, b: nat)
    requires a <= b <= |d| - s
    ensures SkipSpace(d, s + a, s + b) == s + SkipSpace(d[s..], a, b)
    decreases b - a
  {
    if a < b && IsHorizontalSpace(d[s + a]) { SkipSpaceMoves(d, s, a + 1, b); }
  }

  function MovedOffset(offset: Option<nat>, shift: nat): Option<nat> {
    if offset.None? then None else Some(offset.value + shift)
  }

  lemma {:induction false} SkipStringMoves(d: Bytes, s: nat, a: nat, b: nat)
    requires b <= |d| - s
    ensures SkipString(d, s + a, s + b) == MovedOffset(SkipString(d[s..], a, b), s)
    decreases b - a
  {
    if a < b {
      if d[s + a] != BACKSLASH { SkipStringMoves(d, s, a + 1, b); }
      else if a + 1 < b { SkipStringMoves(d, s, a + 2, b); }
    }
  }

  lemma {:induction false} ClosingQuoteMoves(d: Bytes, s: nat, a: nat, b: nat)
    requires b <= |d| - s
    ensures ClosingQuote(d, s + a, s + b) == MovedOffset(ClosingQuote(d[s..], a, b), s)
    decreases b - a
  {
    if a < b { ClosingQuoteMoves(d, s, a + 1, b); }
  }

  lemma BoundaryMoves(d: Bytes, s: nat, a: nat, b: nat)
    requires s <= |d| && a <= b <= |d| - s && (0 < a || s == 0 || !IsIdentifierByte(d[s - 1]))
    ensures HasBoundary(d, s + a, s + b) == HasBoundary(d[s..], a, b)
  {
    if a + |LAUNCHER| <= b {
      assert d[s..][a..a + |LAUNCHER|] == d[s + a..s + a + |LAUNCHER|];
    }
  }

  lemma FieldAtMoves(d: Bytes, s: nat, a: nat, b: nat)
    requires a <= b <= |d| - s
    ensures FieldAt(d, s + a, s + b) == MovedStep(FieldAt(d[s..], a, b), s)
  {
    hide SkipSpace, ClosingQuote;
    if a < b && d[s + a] == QUOTE {
      ClosingQuoteMoves(d, s, a + 1, b);
      var close := ClosingQuote(d[s..], a + 1, b);
      if close.Some? {
        SkipSpaceMoves(d, s, close.value + 1, b);
        assert d[s..][a + 1..close.value] == d[s + a + 1..s + close.value];
      }
    }
  }

  lemma AfterNameMoves(d: Bytes, s: nat, a: nat, b: nat)
    requires a <= b <= |d| - s
    ensures AfterName(d, s + a, s + b) == MovedStep(AfterName(d[s..], a, b), s)
  {
    hide FieldAt, SkipSpace;
    SkipSpaceMoves(d, s, a, b);
    var colon := SkipSpace(d[s..], a, b);
    if colon < b {
      assert d[s..][colon] == d[s + colon];
      SkipSpaceMoves(d, s, colon + 1, b);
      FieldAtMoves(d, s, SkipSpace(d[s..], colon + 1, b), b);
    }
  }

  lemma StepMoves(d: Bytes, s: nat, a: nat, b: nat)
    requires s <= |d| && a < b <= |d| - s && (0 < a || s == 0 || !IsIdentifierByte(d[s - 1]))
    ensures StepAt(d, s + a, s + b) == MovedStep(StepAt(d[s..], a, b), s)
  {
    hide HasBoundary, AfterName, SkipString, LAUNCHER;
    assert d[s..][a] == d[s + a];
    if d[s + a] == QUOTE {
      SkipStringMoves(d, s, a + 1, b);
    } else if d[s + a] != SLASH {
      BoundaryMoves(d, s, a, b);
      if HasBoundary(d[s..], a, b) {
        BoundaryFits(d[s..], a, b);
        AfterNameMoves(d, s, a + |LAUNCHER|, b);
      }
    } else if a + 1 < b {
      assert d[s..][a + 1] == d[s + a + 1];
    }
  }

  lemma MovedBehind(field: Match, rest: Result<seq<Match>, ScanError>, shift: nat)
    ensures MovedAll(Prepend([field], rest), shift) == Prepend([Moved(field, shift)], MovedAll(rest, shift))
  {
    if rest.Ok? {
      assert MovedAll(Prepend([field], rest), shift).value == [Moved(field, shift)] + MovedAll(rest, shift).value;
    }
  }

  lemma MovedError(line: nat, shift: nat)
    ensures MovedAll(Err(InvalidAtLine(line)), shift) == Err(InvalidAtLine(line))
  {
  }

  lemma MovedAppend(a: seq<Match>, b: seq<Match>, shift: nat)
    ensures MovedAll(Ok(a + b), shift).value == MovedAll(Ok(a), shift).value + MovedAll(Ok(b), shift).value
  {
  }

  lemma MovedAfter(fields: Result<seq<Match>, ScanError>, rest: Result<seq<Match>, ScanError>, shift: nat)
    ensures MovedAll(if fields.Err? then fields else Prepend(fields.value, rest), shift)
         == if fields.Err? then fields else Prepend(MovedAll(fields, shift).value, MovedAll(rest, shift))
    ensures MovedAll(fields, shift).Ok? <==> fields.Ok?
    ensures MovedAll(rest, shift).Ok? <==> rest.Ok?
    ensures fields.Err? ==> MovedAll(fields, shift) == fields
  {
    if fields.Ok? && rest.Ok? { MovedAppend(fields.value, rest.value, shift); }
  }

  lemma MovedNone(fields: Result<seq<Match>, ScanError>, shift: nat, other: nat)
    ensures MovedAll(Ok([]), shift) == Ok([])
    ensures MovedAll(fields, shift) == Ok([]) ==> MovedAll(fields, other) == Ok([])
    ensures fields == Ok([]) <==> MovedAll(fields, shift) == Ok([])
  {
    assert MovedAll(Ok([]), shift).value == [];
    if MovedAll(fields, shift) == Ok([]) {
      assert |fields.value| == |MovedAll(fields, shift).value|;
      assert MovedAll(fields, other).value == [];
    }
  }

  lemma {:induction false} LineMoves(d: Bytes, s: nat, a: nat, b: nat, line: nat)
    requires s <= |d| && a <= b <= |d| - s && (0 < a || s == 0 || !IsIdentifierByte(d[s - 1]))
    ensures LineFields(d, s + a, s + b, line) == MovedAll(LineFields(d[s..], a, b, line), s)
    decreases b - a
  {
    hide StepAt, MovedAll;
    MovedNone(Ok([]), s, s);
    MovedError(line, s);
    if a < b {
      StepMoves(d, s, a, b);
      var step := StepAt(d[s..], a, b);
      if step.Onward? || step.Field? {
        LineMoves(d, s, step.next, b, line);
        var rest := LineFields(d[s..], step.next, b, line);
        if step.Field? { MovedBehind(step.field, rest, s); }
      }
    }
  }

  lemma {:induction false} LineEndIs(d: Bytes, start: nat, end: nat)
    requires start <= end <= |d|
    requires forall k :: start <= k < end ==> d[k] != NEWLINE
    requires end == |d| || d[end] == NEWLINE
    ensures LineEnd(d, start) == end
    decreases end - start
  {
    if start < end { LineEndIs(d, start + 1, end); }
  }

  lemma {:induction false} FieldsMove(d: Bytes, s: nat, a: nat, line: nat)
    requires s <= |d| && a <= |d| - s && (0 < a || s == 0 || !IsIdentifierByte(d[s - 1]))
    ensures Fields(d, s + a, line) == MovedAll(Fields(d[s..], a, line), s)
    decreases |d| - s - a
  {
    hide LineFields, MovedAll, IsIdentifierByte;
    MovedNone(Ok([]), s, s);
    var end := LineEnd(d[s..], a);
    forall k | s + a <= k < s + end
      ensures d[k] != NEWLINE
    {
      assert d[k] == d[s..][k - s];
    }
    LineEndIs(d, s + a, s + end);
    LineMoves(d, s, a, end, line);
    if s + end < |d| {
      FieldsMove(d, s, end + 1, line + 1);
      var fields, rest := LineFields(d[s..], a, end, line), Fields(d[s..], end + 1, line + 1);
      MovedAfter(fields, rest, s);
    }
  }

  // ---- Up to the value ----

  // Scanning stops at a quote, so what is found before it depends only on what is before it.

  lemma {:induction false} SpaceStopsAtQuote(c: Bytes, d: Bytes, q: nat, offset: nat, ends: (nat, nat))
    requires q < ends.0 <= |c| && q < ends.1 <= |d| && c[..q + 1] == d[..q + 1] && c[q] == QUOTE
    requires offset <= q
    ensures SkipSpace(c, offset, ends.0) == SkipSpace(d, offset, ends.1) <= q
    decreases q - offset
  {
    assert c[offset] == c[..q + 1][offset] == d[offset];
    if IsHorizontalSpace(c[offset]) { SpaceStopsAtQuote(c, d, q, offset + 1, ends); }
  }

  lemma {:induction false} StringClosesBefore(c: Bytes, d: Bytes, q: nat, offset: nat, ends: (nat, nat))
    requires q < ends.0 <= |c| && q < ends.1 <= |d| && c[..q + 1] == d[..q + 1]
    requires SkipString(c, offset, ends.0).Some? && SkipString(c, offset, ends.0).value <= q
    ensures SkipString(d, offset, ends.1) == SkipString(c, offset, ends.0)
    decreases ends.0 - offset
  {
    assert offset <= q;
    assert c[offset] == c[..q + 1][offset] == d[offset];
    if c[offset] == BACKSLASH {
      StringClosesBefore(c, d, q, offset + 2, ends);
    } else if c[offset] != QUOTE {
      StringClosesBefore(c, d, q, offset + 1, ends);
    }
  }

  lemma BoundaryBeforeQuote(c: Bytes, d: Bytes, q: nat, offset: nat, ends: (nat, nat))
    requires q < ends.0 <= |c| && q < ends.1 <= |d| && c[..q + 1] == d[..q + 1] && c[q] == QUOTE
    requires offset <= q
    ensures HasBoundary(c, offset, ends.0) == HasBoundary(d, offset, ends.1)
    ensures HasBoundary(c, offset, ends.0) ==> offset + |LAUNCHER| <= q
  {
    assert forall k :: 0 <= k <= q ==> c[k] == c[..q + 1][k] == d[k];
    if offset + |LAUNCHER| <= q {
      assert c[offset..offset + |LAUNCHER|] == c[..q + 1][offset..offset + |LAUNCHER|] == d[offset..offset + |LAUNCHER|];
    } else {
      NotLauncher(c, offset, q, ends.0);
      NotLauncher(d, offset, q, ends.1);
    }
  }

  lemma NotLauncher(d: Bytes, offset: nat, q: nat, end: nat)
    requires offset <= q < end <= |d| && d[q] == QUOTE && q < offset + |LAUNCHER|
    ensures !HasBoundary(d, offset, end)
  {
    if offset + |LAUNCHER| <= end {
      assert d[offset..offset + |LAUNCHER|][q - offset] == QUOTE;
      LauncherHasNoQuote(q - offset);
    }
  }

  lemma LauncherHasNoQuote(k: nat)
    requires k < |LAUNCHER|
    ensures LAUNCHER[k] != QUOTE
  {
    assert k == 0 || k == 1 || k == 2 || k == 3 || k == 4 || k == 5 || k == 6 || k == 7;
  }

  lemma NoFieldBefore(c: Bytes, d: Bytes, q: nat, offset: nat, ends: (nat, nat))
    requires q < ends.0 <= |c| && q < ends.1 <= |d| && c[..q + 1] == d[..q + 1] && c[q] == QUOTE
    requires offset <= q && AfterName(c, offset, ends.0).Onward?
    ensures AfterName(d, offset, ends.1) == AfterName(c, offset, ends.0)
  {
    hide FieldAt, SkipSpace;
    SpaceStopsAtQuote(c, d, q, offset, ends);
    var colon := SkipSpace(c, offset, ends.0);
    assert c[colon] == c[..q + 1][colon] == d[colon];
  }

  lemma StepBeforeValue(c: Bytes, d: Bytes, q: nat, i: nat, ends: (nat, nat))
    requires q < ends.0 <= |c| && q < ends.1 <= |d| && c[..q + 1] == d[..q + 1] && c[q] == QUOTE
    requires i < q && StepAt(c, i, ends.0).Onward? && StepAt(c, i, ends.0).next <= q
    ensures StepAt(d, i, ends.1) == StepAt(c, i, ends.0)
  {
    hide HasBoundary, AfterName, SkipString, LAUNCHER;
    assert c[i] == c[..q + 1][i] == d[i] && c[i + 1] == c[..q + 1][i + 1] == d[i + 1];
    if c[i] == QUOTE {
      StringClosesBefore(c, d, q, i + 1, ends);
    } else if c[i] != SLASH {
      BoundaryBeforeQuote(c, d, q, i, ends);
      if HasBoundary(c, i, ends.0) {
        BoundaryFits(c, i, ends.0);
        NoFieldBefore(c, d, q, i + |LAUNCHER|, ends);
      }
    }
  }

  // ---- The value itself ----

  ghost predicate IsPlain(value: Bytes) {
    forall k :: 0 <= k < |value| ==> value[k] != QUOTE && value[k] != BACKSLASH && value[k] != NEWLINE
  }

  lemma {:induction false} PlainValueCloses(d: Bytes, offset: nat, close: nat, end: nat)
    requires offset <= close < end <= |d| && d[close] == QUOTE
    requires forall k :: offset <= k < close ==> d[k] != QUOTE && d[k] != BACKSLASH
    ensures ClosingQuote(d, offset, end) == Some(close)
    decreases close - offset
  {
    if offset < close { PlainValueCloses(d, offset + 1, close, end); }
  }

  // The field with the value v between x and y reads like the one with w, moved past the value.
  lemma FieldAroundValue(x: Bytes, v: Bytes, y: Bytes, k: nat)
    requires x != [] && x[|x| - 1] == QUOTE && IsPlain(v) && 0 < k <= |y| && y[0] == QUOTE
    ensures var comma := SkipSpace(y, 1, k);
            FieldAt(x + v + y, |x| - 1, |x| + |v| + k) ==
              (if comma < k && y[comma] == COMMA then Field(Match(v, |x|, |x| + |v|), |x| + |v| + comma + 1) else Refused)
  {
    hide FieldAt, SkipSpace, ClosingQuote;
    var d, close := x + v + y, |x| + |v|;
    assert d[|x| - 1] == QUOTE && d[close] == y[0];
    assert d[close..] == y && d[|x|..close] == v;
    FieldBeforeRest(d, |x| - 1, close, k, y);
  }

  lemma FieldBeforeRest(d: Bytes, quote: nat, close: nat, k: nat, y: Bytes)
    requires quote < close < |d| && d[quote] == QUOTE == d[close] && IsPlain(d[quote + 1..close])
    requires d[close..] == y && 0 < k <= |y|
    ensures var comma := SkipSpace(y, 1, k);
            FieldAt(d, quote, close + k) ==
              (if comma < k && y[comma] == COMMA then Field(Match(d[quote + 1..close], quote + 1, close), close + comma + 1)
               else Refused)
  {
    hide FieldAt, SkipSpace, ClosingQuote;
    forall j | quote < j < close
      ensures d[j] != QUOTE && d[j] != BACKSLASH
    {
      assert d[j] == d[quote + 1..close][j - quote - 1];
    }
    PlainValueCloses(d, quote + 1, close, close + k);
    SkipSpaceMoves(d, close, 1, k);
    ClosedField(d, quote, close, close + k);
  }

  lemma ClosedField(d: Bytes, quote: nat, close: nat, end: nat)
    requires quote < close < end <= |d| && d[quote] == QUOTE
    requires ClosingQuote(d, quote + 1, end) == Some(close)
    ensures var comma := SkipSpace(d, close + 1, end);
            FieldAt(d, quote, end) ==
              (if comma < end && d[comma] == COMMA then Field(Match(d[quote + 1..close], quote + 1, close), comma + 1)
               else Refused)
  {
  }

  // ---- One line, then all ----

  lemma PrefixOfSplice(x: Bytes, v: Bytes, w: Bytes, y: Bytes)
    requires x != []
    ensures (x + v + y)[..|x|] == x == (x + w + y)[..|x|]
    ensures (x + v + y)[|x| + |v|..] == y && (x + w + y)[|x| + |w|..] == y
    ensures (x + v + y)[|x| - 1] == x[|x| - 1]
  {
  }

  lemma RestOfLine(x: Bytes, v: Bytes, w: Bytes, y: Bytes, a: nat, k: nat, line: nat)
    requires x != [] && 0 < a <= k <= |y|
    requires LineFields(x + v + y, |x| + |v| + a, |x| + |v| + k, line) == Ok([])
    ensures LineFields(x + w + y, |x| + |w| + a, |x| + |w| + k, line) == Ok([])
  {
    hide LineFields, MovedAll;
    PrefixOfSplice(x, v, w, y);
    LineMoves(x + v + y, |x| + |v|, a, k, line);
    LineMoves(x + w + y, |x| + |w|, a, k, line);
    MovedNone(LineFields(y, a, k, line), |x| + |v|, |x| + |w|);
  }

  lemma RestOfLines(x: Bytes, v: Bytes, w: Bytes, y: Bytes, a: nat, line: nat)
    requires x != [] && 0 < a <= |y|
    requires Fields(x + v + y, |x| + |v| + a, line) == Ok([])
    ensures Fields(x + w + y, |x| + |w| + a, line) == Ok([])
  {
    hide Fields, MovedAll;
    PrefixOfSplice(x, v, w, y);
    FieldsMove(x + v + y, |x| + |v|, a, line);
    FieldsMove(x + w + y, |x| + |w|, a, line);
    MovedNone(Fields(y, a, line), |x| + |v|, |x| + |w|);
  }

  lemma {:induction false} LineWithOtherValue(x: Bytes, v: Bytes, w: Bytes, y: Bytes, i: nat, k: nat, line: nat)
    requires i < |x| && x[|x| - 1] == QUOTE && IsPlain(v) && IsPlain(w) && 0 < k <= |y| && y[0] == QUOTE
    requires LineFields(x + v + y, i, |x| + |v| + k, line) == Ok([Match(v, |x|, |x| + |v|)])
    ensures LineFields(x + w + y, i, |x| + |w| + k, line) == Ok([Match(w, |x|, |x| + |w|)])
    decreases |x| - i
  {
    hide StepAt;
    var c, d := x + v + y, x + w + y;
    var ends := (|x| + |v| + k, |x| + |w| + k);
    PrefixOfSplice(x, v, w, y);
    var step := StepAt(c, i, ends.0);
    match step {
      case Onward(next) =>
        NextBeforeValue(x, v, y, i, next, k, line);
        StepBeforeValue(c, d, |x| - 1, i, ends);
        LineWithOtherValue(x, v, w, y, next, k, line);
      case Field(field, next) =>
        OnlyField(x, v, y, i, k, line, field, next);
        FieldWithOtherValue(x, v, w, y, i, k, field, next);
        RestOfLine(x, v, w, y, next - |x| - |v|, k, line);
        assert [Match(w, |x|, |x| + |w|)] + [] == [Match(w, |x|, |x| + |w|)];
      case Comment =>
      case Refused =>
    }
  }

  // The scan is still in front of the quote before the value.
  lemma NextBeforeValue(x: Bytes, v: Bytes, y: Bytes, i: nat, next: nat, k: nat, line: nat)
    requires i < |x| && 0 < k <= |y|
    requires StepAt(x + v + y, i, |x| + |v| + k) == Onward(next)
    requires LineFields(x + v + y, i, |x| + |v| + k, line) == Ok([Match(v, |x|, |x| + |v|)])
    ensures i < next < |x| - 1
    ensures LineFields(x + v + y, next, |x| + |v| + k, line) == Ok([Match(v, |x|, |x| + |v|)])
  {
    hide StepAt;
    LineFieldsLieInside(x + v + y, next, |x| + |v| + k, line);
    var m := LineFields(x + v + y, next, |x| + |v| + k, line).value[0];
    assert m.start == |x|;
  }

  lemma OnlyField(x: Bytes, v: Bytes, y: Bytes, i: nat, k: nat, line: nat, field: Match, next: nat)
    requires i < |x| && 0 < k <= |y|
    requires StepAt(x + v + y, i, |x| + |v| + k) == Field(field, next)
    requires LineFields(x + v + y, i, |x| + |v| + k, line) == Ok([Match(v, |x|, |x| + |v|)])
    ensures field == Match(v, |x|, |x| + |v|)
    ensures LineFields(x + v + y, next, |x| + |v| + k, line) == Ok([])
  {
    hide StepAt;
    OnlyOne([field], LineFields(x + v + y, next, |x| + |v| + k, line).value, Match(v, |x|, |x| + |v|));
    assert [field][0] == field && [Match(v, |x|, |x| + |v|)][0] == Match(v, |x|, |x| + |v|);
  }

  lemma {:induction false} FieldWithOtherValue(x: Bytes, v: Bytes, w: Bytes, y: Bytes, i: nat, k: nat, field: Match, next: nat)
    requires i < |x| && x[|x| - 1] == QUOTE && IsPlain(v) && IsPlain(w) && 0 < k <= |y| && y[0] == QUOTE
    requires StepAt(x + v + y, i, |x| + |v| + k) == Field(field, next) && field.start == |x|
    ensures |x| + |v| < next <= |x| + |v| + k
    ensures StepAt(x + w + y, i, |x| + |w| + k) == Field(Match(w, |x|, |x| + |w|), next - |v| + |w|)
  {
    hide HasBoundary, AfterName, SkipString, LAUNCHER;
    var c, d, q := x + v + y, x + w + y, |x| - 1;
    var ends := (|x| + |v| + k, |x| + |w| + k);
    PrefixOfSplice(x, v, w, y);
    assert c[i] == x[i] == d[i] && c[..q + 1] == x == d[..q + 1];
    BoundaryBeforeQuote(c, d, q, i, ends);
    BoundaryFits(c, i, ends.0);
    ValueAfterName(x, v, w, y, i + |LAUNCHER|, k, field, next);
  }

  lemma ValueAfterName(x: Bytes, v: Bytes, w: Bytes, y: Bytes, offset: nat, k: nat, field: Match, next: nat)
    requires offset < |x| && x[|x| - 1] == QUOTE && IsPlain(v) && IsPlain(w) && 0 < k <= |y| && y[0] == QUOTE
    requires AfterName(x + v + y, offset, |x| + |v| + k) == Field(field, next) && field.start == |x|
    ensures |x| + |v| < next <= |x| + |v| + k
    ensures AfterName(x + w + y, offset, |x| + |w| + k) == Field(Match(w, |x|, |x| + |w|), next - |v| + |w|)
  {
    hide FieldAt, AfterName, IsPlain;
    var c, d, q := x + v + y, x + w + y, |x| - 1;
    var ends := (|x| + |v| + k, |x| + |w| + k);
    PrefixOfSplice(x, v, w, y);
    assert c[..q + 1] == x == d[..q + 1];
    SameQuote(c, d, q, offset, ends);
    OtherValueThere(x, v, w, y, k, field, next);
  }

  // With a field whose value starts behind the quote at q, the name leads to that quote in both.
  lemma SameQuote(c: Bytes, d: Bytes, q: nat, offset: nat, ends: (nat, nat))
    requires q < ends.0 <= |c| && q < ends.1 <= |d| && c[..q + 1] == d[..q + 1] && c[q] == QUOTE
    requires offset <= q
    requires AfterName(c, offset, ends.0).Field? && AfterName(c, offset, ends.0).field.start == q + 1
    ensures AfterName(c, offset, ends.0) == FieldAt(c, q, ends.0)
    ensures AfterName(d, offset, ends.1) == FieldAt(d, q, ends.1)
  {
    hide FieldAt, SkipSpace;
    SpaceStopsAtQuote(c, d, q, offset, ends);
    var colon := SkipSpace(c, offset, ends.0);
    assert c[colon] == c[..q + 1][colon] == d[colon];
    SpaceStopsAtQuote(c, d, q, colon + 1, ends);
    QuoteOfField(c, SkipSpace(c, colon + 1, ends.0), ends.0);
  }

  lemma OtherValueThere(x: Bytes, v: Bytes, w: Bytes, y: Bytes, k: nat, field: Match, next: nat)
    requires x != [] && x[|x| - 1] == QUOTE && IsPlain(v) && IsPlain(w) && 0 < k <= |y| && y[0] == QUOTE
    requires FieldAt(x + v + y, |x| - 1, |x| + |v| + k) == Field(field, next)
    ensures |x| + |v| < next <= |x| + |v| + k
    ensures FieldAt(x + w + y, |x| - 1, |x| + |w| + k) == Field(Match(w, |x|, |x| + |w|), next - |v| + |w|)
  {
    hide FieldAt, SkipSpace, IsPlain;
    FieldAroundValue(x, v, y, k);
    FieldAroundValue(x, w, y, k);
  }

  lemma QuoteOfField(d: Bytes, quote: nat, end: nat)
    requires quote <= end <= |d| && FieldAt(d, quote, end).Field?
    ensures FieldAt(d, quote, end).field.start == quote + 1
  {
  }

  // One field in all: it is on this line, or after it.
  lemma OneFieldSplits(d: Bytes, start: nat, line: nat, m: Match)
    requires start <= |d| && Fields(d, start, line) == Ok([m])
    ensures var end := LineEnd(d, start);
            var here := LineFields(d, start, end, line);
            || (here == Ok([]) && end < |d| && Fields(d, end + 1, line + 1) == Ok([m]) && end + 1 < m.start)
            || (here == Ok([m]) && (end < |d| ==> Fields(d, end + 1, line + 1) == Ok([])) && start < m.start <= m.end < end)
  {
    hide LineFields, LineEnd;
    var end := LineEnd(d, start);
    var here := LineFields(d, start, end, line).value;
    LineFieldsLieInside(d, start, end, line);
    var rest := if end == |d| then [] else Fields(d, end + 1, line + 1).value;
    assert here + rest == [m];
    if here == [] {
      assert [] + rest == rest;
      FieldsLieInside(d, end + 1, line + 1);
      assert rest[0] == m;
    } else {
      OnlyOne(here, rest, m);
      assert here[0] == m;
    }
  }

  lemma LineThenRest(d: Bytes, start: nat, line: nat, fields: seq<Match>, rest: seq<Match>)
    requires start <= |d|
    requires LineFields(d, start, LineEnd(d, start), line) == Ok(fields)
    requires if LineEnd(d, start) == |d| then rest == [] else Fields(d, LineEnd(d, start) + 1, line + 1) == Ok(rest)
    ensures Fields(d, start, line) == Ok(fields + rest)
  {
    hide LineFields, LineEnd;
    assert fields + [] == fields;
  }

  lemma {:induction false} FieldsWithOtherValue(x: Bytes, v: Bytes, w: Bytes, y: Bytes, start: nat, line: nat)
    requires start < |x| && x[|x| - 1] == QUOTE && IsPlain(v) && IsPlain(w) && y != [] && y[0] == QUOTE
    requires Fields(x + v + y, start, line) == Ok([Match(v, |x|, |x| + |v|)])
    ensures Fields(x + w + y, start, line) == Ok([Match(w, |x|, |x| + |w|)])
    decreases |x| - start
  {
    hide LineFields, IsPlain, LineEnd, Fields;
    var c, m, n := x + v + y, Match(v, |x|, |x| + |v|), Match(w, |x|, |x| + |w|);
    var end := LineEnd(c, start);
    OneFieldSplits(c, start, line, m);
    if LineFields(c, start, end, line) == Ok([]) {
      EarlierLine(x, v, w, y, start, end, line);
      FieldsWithOtherValue(x, v, w, y, end + 1, line + 1);
      LineThenRest(x + w + y, start, line, [], [n]);
      assert [] + [n] == [n];
    } else {
      LastLine(x, v, w, y, start, end - |x| - |v|, line);
    }
  }

  lemma EarlierLine(x: Bytes, v: Bytes, w: Bytes, y: Bytes, start: nat, end: nat, line: nat)
    requires start <= end < |x| && LineEnd(x + v + y, start) == end
    ensures LineEnd(x + w + y, start) == end
    ensures LineFields(x + w + y, start, end, line) == LineFields(x + v + y, start, end, line)
  {
    hide LineFields;
    var c, d := x + v + y, x + w + y;
    assert forall j :: 0 <= j < |x| ==> c[j] == x[j] == d[j];
    LineEndIs(d, start, end);
    LineInPrefix(c, start, end, line);
    LineInPrefix(d, start, end, line);
    assert c[..end] == x[..end] == d[..end];
  }

  lemma LastLine(x: Bytes, v: Bytes, w: Bytes, y: Bytes, start: nat, k: nat, line: nat)
    requires start < |x| && x[|x| - 1] == QUOTE && IsPlain(v) && IsPlain(w) && 0 < k <= |y| && y[0] == QUOTE
    requires LineEnd(x + v + y, start) == |x| + |v| + k
    requires LineFields(x + v + y, start, |x| + |v| + k, line) == Ok([Match(v, |x|, |x| + |v|)])
    requires k < |y| ==> Fields(x + v + y, |x| + |v| + k + 1, line + 1) == Ok([])
    ensures Fields(x + w + y, start, line) == Ok([Match(w, |x|, |x| + |w|)])
  {
    hide LineFields, IsPlain, LineEnd, Fields;
    LineEndWithOtherValue(x, v, w, y, start, k);
    LineWithOtherValue(x, v, w, y, start, k, line);
    if k < |y| { RestOfLines(x, v, w, y, k + 1, line + 1); }
    LineThenRest(x + w + y, start, line, [Match(w, |x|, |x| + |w|)], []);
    assert [Match(w, |x|, |x| + |w|)] + [] == [Match(w, |x|, |x| + |w|)];
  }

  lemma OnlyOne(a: seq<Match>, b: seq<Match>, m: Match)
    requires a != [] && (a + b == [m] || (b == [] && a == [m]))
    ensures a == [m] && b == []
  {
    if a + b == [m] { assert |a| + |b| == 1 && (a + b)[0] == a[0]; }
  }

  lemma {:induction false} LineEndWithOtherValue(x: Bytes, v: Bytes, w: Bytes, y: Bytes, start: nat, k: nat)
    requires start < |x| && IsPlain(w) && 0 < k <= |y|
    requires LineEnd(x + v + y, start) == |x| + |v| + k
    ensures LineEnd(x + w + y, start) == |x| + |w| + k
  {
    var c, d := x + v + y, x + w + y;
    forall j | start <= j < |x| + |w| + k
      ensures d[j] != NEWLINE
    {
      if j < |x| {
        assert d[j] == c[j];
      } else if j < |x| + |w| {
        assert d[j] == w[j - |x|];
      } else {
        assert d[j] == c[j - |w| + |v|];
      }
    }
    if k < |y| { assert d[|x| + |w| + k] == y[k] == c[|x| + |v| + k]; }
    LineEndIs(d, start, |x| + |w| + k);
  }

  // ---- Main results ----

  lemma ValuesArePlain()
    ensures IsPlain(STOCK) && IsPlain(DESIRED) && IsAscii(STOCK) && IsAscii(DESIRED)
    ensures STOCK != DESIRED && STOCK != [] && DESIRED != []
  {
    assert |STOCK| == 15 && |DESIRED| == 14;
  }

  ghost predicate OneField(data: Bytes, field: Match) {
    Fields(data, 0, 1) == Ok([field])
  }

  lemma FieldIsBetweenQuotes(data: Bytes, field: Match)
    requires OneField(data, field)
    ensures 0 < field.start <= field.end < |data| && data[field.start - 1] == QUOTE == data[field.end]
    ensures field.value == data[field.start..field.end] && IsPlain(field.value)
  {
    hide LineFields;
    FieldsLieInside(data, 0, 1);
    assert [field][0] == field;
    FieldsEndInQuotes(data, 0, 1);
  }

  lemma {:induction false} FieldsEndInQuotes(data: Bytes, start: nat, line: nat)
    requires start <= |data|
    ensures Fields(data, start, line).Ok? ==>
      forall k :: 0 <= k < |Fields(data, start, line).value| ==> Closed(data, Fields(data, start, line).value[k])
    decreases |data| - start
  {
    hide LineFields, Closed;
    var end := LineEnd(data, start);
    LineFieldsAreClosed(data, start, end, line, start);
    if end < |data| { FieldsEndInQuotes(data, end + 1, line + 1); }
  }

  ghost predicate Closed(data: Bytes, field: Match) {
    field.start <= field.end < |data| && data[field.end] == QUOTE && IsPlain(data[field.start..field.end])
  }

  lemma {:induction false} LineFieldsAreClosed(data: Bytes, i: nat, end: nat, line: nat, start: nat)
    requires start <= i <= end <= |data| && forall k :: start <= k < end ==> data[k] != NEWLINE
    ensures LineFields(data, i, end, line).Ok? ==>
      forall k :: 0 <= k < |LineFields(data, i, end, line).value| ==> Closed(data, LineFields(data, i, end, line).value[k])
    decreases end - i
  {
    hide StepAt, Closed;
    if i < end {
      var step := StepAt(data, i, end);
      if step.Field? { FieldIsClosed(data, i, end, start); }
      if step.Onward? || step.Field? { LineFieldsAreClosed(data, step.next, end, line, start); }
    }
  }

  lemma FieldIsClosed(data: Bytes, i: nat, end: nat, start: nat)
    requires start <= i < end <= |data| && forall k :: start <= k < end ==> data[k] != NEWLINE
    requires StepAt(data, i, end).Field?
    ensures Closed(data, StepAt(data, i, end).field)
  {
    hide HasBoundary, LAUNCHER;
    BoundaryFits(data, i, end);
    var quote := SkipSpace(data, SkipSpace(data, i + |LAUNCHER|, end) + 1, end);
    assert StepAt(data, i, end) == FieldAt(data, quote, end);
  }

  // An accepted input keeps every byte outside the one value, and the output, read again, has exactly one
  // Launcher field, in the same place, with the desired value.
  lemma RewriteChangesOneValue(data: Bytes, field: Match)
    requires Rewritten(data).Ok? && OneField(data, field)
    ensures field.start <= field.end <= |data| && Rewritten(data).value == Spliced(data, field)
    ensures OneField(Spliced(data, field), Match(DESIRED, field.start, field.start + |DESIRED|))
    ensures IsUtf8(Spliced(data, field))
  {
    hide Fields, IsUtf8, STOCK, DESIRED, IsPlain, IsAscii;
    ValuesArePlain();
    FieldIsBetweenQuotes(data, field);
    var x, y := data[..field.start], data[field.end..];
    assert data == x + field.value + y;
    assert [field][0] == field;
    if field.value == DESIRED {
      assert Spliced(data, field) == data;
    } else {
      FieldsWithOtherValue(x, STOCK, DESIRED, y, 0, 1);
      AsciiBlockSplits(x, STOCK, y);
      AsciiBlockSplits(x, DESIRED, y);
    }
  }

  // Rewriting what was rewritten changes nothing.
  lemma RewriteIsIdempotent(data: Bytes)
    requires Rewritten(data).Ok?
    ensures Rewritten(Rewritten(data).value) == Rewritten(data)
  {
    hide Fields, IsUtf8, STOCK, DESIRED;
    var fields := Fields(data, 0, 1).value;
    assert fields == [fields[0]];
    RewriteChangesOneValue(data, fields[0]);
  }
}
