// The marked block in a shell startup file (internal/platform/cachyos/devtools.go:177-199).
module Marker {
  import opened Text

  const BEGIN := "# >>> alex-cachyos/devtools >>>"
  const END := "# <<< alex-cachyos/devtools <<<"

  // ---- strings.Index, strings.Count, strings.Trim ----

  predicate IsAt(text: string, mark: string, i: nat) {
    i + |mark| <= |text| && text[i..i + |mark|] == mark
  }

  function IndexFrom(text: string, mark: string, i: nat): (r: Option<nat>)
    requires i <= |text|
    ensures r.Some? ==> i <= r.value && IsAt(text, mark, r.value) && forall k :: i <= k < r.value ==> !IsAt(text, mark, k)
    ensures r.None? ==> forall k :: i <= k <= |text| ==> !IsAt(text, mark, k)
    decreases |text| - i
  {
    if IsAt(text, mark, i) then Some(i)
    else if i == |text| then None
    else IndexFrom(text, mark, i + 1)
  }

  function Index(text: string, mark: string): Option<nat> {
    IndexFrom(text, mark, 0)
  }

  // Occurrences that do not overlap, from the left.
  function CountFrom(text: string, mark: string, i: nat): nat
    requires i <= |text| && mark != ""
    decreases |text| - i
  {
    match IndexFrom(text, mark, i)
    case None => 0
    case Some(k) => 1 + CountFrom(text, mark, k + |mark|)
  }

  function Count(text: string, mark: string): nat
    requires mark != ""
  {
    CountFrom(text, mark, 0)
  }

  function TrimRight(s: string): (r: string)
    ensures r <= s
    ensures r != "" ==> r[|r| - 1] != '\n'
    ensures forall k :: |r| <= k < |s| ==> s[k] == '\n'
  {
    if s != "" && s[|s| - 1] == '\n' then TrimRight(s[..|s| - 1]) else s
  }

  function TrimLeft(s: string): (r: string)
    ensures |r| <= |s| && r == s[|s| - |r|..]
    ensures r != "" ==> r[0] != '\n'
    ensures forall k :: 0 <= k < |s| - |r| ==> s[k] == '\n'
  {
    if s != "" && s[0] == '\n' then TrimLeft(s[1..]) else s
  }

  // unicode.IsSpace
  predicate IsSpace(c: char) {
    || '\t' <= c <= '\r' || c == ' ' || c == '\U{85}' || c == '\U{A0}' || c == '\U{1680}'
    || '\U{2000}' <= c <= '\U{200A}' || c == '\U{2028}' || c == '\U{2029}' || c == '\U{202F}'
    || c == '\U{205F}' || c == '\U{3000}'
  }

  function TrimSpaceRight(s: string): (r: string)
    ensures r <= s
    ensures r == "" <==> forall k :: 0 <= k < |s| ==> IsSpace(s[k])
  {
    if s != "" && IsSpace(s[|s| - 1]) then TrimSpaceRight(s[..|s| - 1]) else s
  }

  function TrimSpaceLeft(s: string): (r: string)
    ensures |r| <= |s| && r == s[|s| - |r|..]
    ensures r == "" <==> forall k :: 0 <= k < |s| ==> IsSpace(s[k])
  {
    if s != "" && IsSpace(s[0]) then TrimSpaceLeft(s[1..]) else s
  }

  function TrimSpace(s: string): string {
    TrimSpaceRight(TrimSpaceLeft(s))
  }

  // ---- The upsert ----

  datatype UpsertError = Duplicate | Incomplete

  function Block(body: string): string {
    BEGIN + ("\n" + (TrimSpace(body) + ("\n" + (END + "\n"))))
  }

  // The text outside the block, its two halves joined.
  function Outside(text: string, begin: nat, end: nat): string
    requires begin <= end && end + |END| <= |text|
  {
    TrimRight(text[..begin]) + TrimLeft(text[end + |END|..])
  }

  function Rest(text: string): Result<string, UpsertError> {
    if Count(text, BEGIN) > 1 || Count(text, END) > 1 then Err(Duplicate)
    else
      var begin, end := Index(text, BEGIN), Index(text, END);
      if begin.Some? != end.Some? || (begin.Some? && end.value < begin.value) then Err(Incomplete)
      else if begin.Some? then Ok(Outside(text, begin.value, end.value))
      else Ok(text)
  }

  function WithBlock(rest: string, body: string): string {
    if TrimSpace(rest) == "" then Block(body) else TrimRight(rest) + ("\n\n" + Block(body))
  }

  function Upsert(text: string, body: string): Result<string, UpsertError> {
    match Rest(text)
    case Err(error) => Err(error)
    case Ok(rest) => Ok(WithBlock(rest, body))
  }

  // ---- Where markers can be ----

  ghost predicate Lacks(text: string, mark: string) {
    forall i: nat :: !IsAt(text, mark, i)
  }

  ghost predicate MarkerFree(text: string) {
    Lacks(text, BEGIN) && Lacks(text, END)
  }

  ghost predicate OneLine(mark: string) {
    mark != "" && '\n' !in mark
  }

  lemma MarksAreLines()
    ensures OneLine(BEGIN) && OneLine(END) && |BEGIN| == |END| && BEGIN != END
  {
    assert BEGIN[2] == '>' && END[2] == '<';
  }

  lemma PartOfPart(text: string, a: nat, b: nat, i: nat, n: nat)
    requires a <= b <= |text| && i + n <= b - a
    ensures text[a..b][i..i + n] == text[a + i..a + i + n]
  {
    var part := text[a..b];
    assert forall k :: i <= k < i + n ==> part[k] == text[a + k];
  }

  // Part of a text without a mark has none.
  lemma PartLacks(text: string, a: nat, b: nat, mark: string)
    requires a <= b <= |text| && Lacks(text, mark)
    ensures Lacks(text[a..b], mark)
  {
    forall i: nat
      ensures !IsAt(text[a..b], mark, i)
    {
      if i + |mark| <= b - a {
        PartOfPart(text, a, b, i, |mark|);
        assert !IsAt(text, mark, a + i);
      }
    }
  }

  // A mark does not reach across the end of a line.
  lemma NoMarkAcross(a: string, b: string, mark: string)
    requires OneLine(mark) && Lacks(a, mark) && Lacks(b, mark)
    ensures Lacks(a + ("\n" + b), mark)
  {
    var text := a + ("\n" + b);
    forall i: nat
      ensures !IsAt(text, mark, i)
    {
      if i + |mark| <= |text| {
        var part := text[i..i + |mark|];
        if i + |mark| <= |a| {
          assert part == a[i..i + |mark|] && !IsAt(a, mark, i);
        } else if i <= |a| {
          assert part[|a| - i] == '\n' && mark[|a| - i] in mark;
        } else {
          var k := i - |a| - 1;
          assert part == b[k..k + |mark|] && !IsAt(b, mark, k);
        }
      }
    }
  }

  lemma OtherMarkLacks(a: string, b: string)
    requires |a| == |b| && a != b && a != ""
    ensures Lacks(a, b)
  {
    forall i: nat
      ensures !IsAt(a, b, i)
    {
      if i == 0 { assert a[0..|a|] == a; }
    }
  }

  // A mark on a line of its own, in text that has no other, is found there and counted once.
  lemma FoundOnce(pre: string, mark: string, post: string)
    requires OneLine(mark) && Lacks(pre, mark) && Lacks(post, mark)
    requires pre != "" ==> pre[|pre| - 1] == '\n'
    requires post != "" ==> post[0] == '\n'
    ensures Index(pre + (mark + post), mark) == Some(|pre|)
    ensures Count(pre + (mark + post), mark) == 1
  {
    var text := pre + (mark + post);
    assert text[|pre|..|pre| + |mark|] == mark;
    forall i: nat
      ensures IsAt(text, mark, i) ==> i == |pre|
    {
      if i != |pre| && i + |mark| <= |text| {
        var part := text[i..i + |mark|];
        if i + |mark| <= |pre| {
          assert part == pre[i..i + |mark|] && !IsAt(pre, mark, i);
        } else if i < |pre| {
          assert part[|pre| - 1 - i] == '\n' && mark[|pre| - 1 - i] in mark;
        } else if i < |pre| + |mark| {
          var k := |pre| + |mark| - i;
          assert part[k] == post[0] && mark[k] in mark;
        } else {
          var k := i - |pre| - |mark|;
          assert part == post[k..k + |mark|] && !IsAt(post, mark, k);
        }
      }
    }
    assert IsAt(text, mark, |pre|);
    assert IndexFrom(text, mark, 0) == Some(|pre|);
    assert IndexFrom(text, mark, |pre| + |mark|) == None;
    assert CountFrom(text, mark, |pre| + |mark|) == 0;
  }

  lemma AbsentIsNotCounted(text: string, mark: string)
    requires mark != "" && Lacks(text, mark)
    ensures Index(text, mark) == None && Count(text, mark) == 0
  {
  }

  // ---- Reading back what was written ----

  // Nothing, or text without markers that ends in a newline.
  ghost predicate Leads(pre: string) {
    MarkerFree(pre) && (pre != "" ==> pre[|pre| - 1] == '\n')
  }

  lemma TrimmedLacks(s: string, mark: string)
    requires Lacks(s, mark)
    ensures Lacks(TrimRight(s), mark) && Lacks(TrimLeft(s), mark) && Lacks(TrimSpace(s), mark)
  {
    hide IsAt, Lacks, TrimRight, TrimLeft, TrimSpaceLeft, TrimSpaceRight;
    PrefixLacks(s, TrimRight(s), mark);
    SuffixLacks(s, TrimLeft(s), mark);
    SuffixLacks(s, TrimSpaceLeft(s), mark);
    PrefixLacks(TrimSpaceLeft(s), TrimSpace(s), mark);
  }

  lemma PrefixLacks(s: string, r: string, mark: string)
    requires r <= s && Lacks(s, mark)
    ensures Lacks(r, mark)
  {
    hide Lacks;
    PartLacks(s, 0, |r|, mark);
    assert s[0..|r|] == r;
  }

  lemma SuffixLacks(s: string, r: string, mark: string)
    requires |r| <= |s| && r == s[|s| - |r|..] && Lacks(s, mark)
    ensures Lacks(r, mark)
  {
    hide Lacks;
    PartLacks(s, |s| - |r|, |s|, mark);
    assert s[|s| - |r|..|s|] == r;
  }

  lemma EmptyLacks(mark: string)
    requires mark != ""
    ensures Lacks("", mark)
  {
  }

  // Each marker occurs once in the text, the first behind this part and the second before that.
  ghost predicate MarkedBetween(text: string, before: string, behind: string) {
    && |before| + |END| + |behind| <= |text| && before <= text && text[|text| - |behind|..] == behind
    && Count(text, BEGIN) == 1 && Index(text, BEGIN) == Some(|before|)
    && Count(text, END) == 1 && Index(text, END) == Some(|text| - |behind| - |END|)
  }

  // A block between text without markers and lines without markers: each of its markers is found, once.
  lemma MarkersAreFound(pre: string, body: string, last: string)
    requires Leads(pre) && MarkerFree(body) && MarkerFree(last) && last != "" && last[0] == '\n'
    ensures MarkedBetween(pre + (BEGIN + ("\n" + (TrimSpace(body) + ("\n" + (END + last))))), pre, last)
  {
    hide BEGIN, END, TrimSpace, Index, Count, Lacks;
    MarksAreLines();
    var inner := TrimSpace(body);
    TrimmedLacks(body, BEGIN);
    TrimmedLacks(body, END);
    TailLacks(inner, last);
    HeadLacks(pre, inner);
    BlockSplits(pre, BEGIN, inner, END, last);
    MarkersSplit(pre, "\n" + (inner + ("\n" + (END + last))), pre + (BEGIN + ("\n" + (inner + "\n"))), last);
  }

  lemma MarkersSplit(pre: string, tail: string, head: string, last: string)
    requires pre + (BEGIN + tail) == head + (END + last) && |pre| <= |head|
    requires Leads(pre) && Lacks(tail, BEGIN) && tail != "" && tail[0] == '\n'
    requires Lacks(head, END) && head != "" && head[|head| - 1] == '\n'
    requires Lacks(last, END) && last != "" && last[0] == '\n'
    ensures MarkedBetween(pre + (BEGIN + tail), pre, last)
  {
    hide BEGIN, END, Index, Count, Lacks;
    MarksAreLines();
    FoundOnce(pre, BEGIN, tail);
    FoundOnce(head, END, last);
  }

  lemma RestOfMarked(text: string, before: string, behind: string)
    requires MarkedBetween(text, before, behind)
    ensures Rest(text) == Ok(TrimRight(before) + TrimLeft(behind))
  {
    hide BEGIN, END, Index, Count, TrimRight, TrimLeft;
    assert text[..|before|] == before;
  }

  // Where the parts of a block are.
  lemma BlockSplits(pre: string, begin: string, inner: string, end: string, last: string)
    ensures var text := pre + (begin + ("\n" + (inner + ("\n" + (end + last)))));
            var head := pre + (begin + ("\n" + (inner + "\n")));
            && text == head + (end + last) && |pre| <= |head| && head[|head| - 1] == '\n'
  {
    var text := pre + (begin + ("\n" + (inner + ("\n" + (end + last)))));
    var head := pre + (begin + ("\n" + (inner + "\n")));
    assert text == head + (end + last);
  }

  lemma TailLacks(inner: string, last: string)
    requires Lacks(inner, BEGIN) && Lacks(last, BEGIN) && last != "" && last[0] == '\n'
    ensures Lacks("\n" + (inner + ("\n" + (END + last))), BEGIN)
  {
    hide BEGIN, END, Lacks;
    MarksAreLines();
    OtherMarkLacks(END, BEGIN);
    EmptyLacks(BEGIN);
    PartLacks(last, 1, |last|, BEGIN);
    assert "\n" + last[1..|last|] == last;
    NoMarkAcross(END, last[1..|last|], BEGIN);
    NoMarkAcross(inner, END + last, BEGIN);
    NoMarkAcross("", inner + ("\n" + (END + last)), BEGIN);
    var tail := "\n" + (inner + ("\n" + (END + last)));
    assert "" + tail == tail;
  }

  lemma HeadLacks(pre: string, inner: string)
    requires Leads(pre) && Lacks(inner, END)
    ensures Lacks(pre + (BEGIN + ("\n" + (inner + "\n"))), END)
  {
    hide BEGIN, END, Lacks;
    MarksAreLines();
    OtherMarkLacks(BEGIN, END);
    EmptyLacks(END);
    NoMarkAcross(inner, "", END);
    assert inner + ("\n" + "") == inner + "\n";
    NoMarkAcross(BEGIN, inner + "\n", END);
    LeadLacks(pre, BEGIN + ("\n" + (inner + "\n")), END);
  }

  lemma NewlineLacks(mark: string)
    requires OneLine(mark)
    ensures Lacks("\n", mark)
  {
    EmptyLacks(mark);
    NoMarkAcross("", "", mark);
    assert "" + ("\n" + "") == "\n";
  }

  // A block behind text without markers: its markers are found, and what is outside it is that text.
  lemma BlockIsFound(pre: string, body: string)
    requires Leads(pre) && MarkerFree(body)
    ensures Rest(pre + Block(body)) == Ok(TrimRight(pre))
  {
    hide BEGIN, END, TrimSpace, Rest, TrimRight, TrimLeft, MarkedBetween;
    MarksAreLines();
    NewlineLacks(BEGIN);
    NewlineLacks(END);
    MarkersAreFound(pre, body, "\n");
    RestOfMarked(pre + Block(body), pre, "\n");
    NewlineIsTrimmed();
    assert TrimRight(pre) + "" == TrimRight(pre);
  }

  lemma NewlineIsTrimmed()
    ensures TrimLeft("\n") == ""
  {
  }

  lemma LeadLacks(pre: string, post: string, mark: string)
    requires OneLine(mark) && Lacks(pre, mark) && Lacks(post, mark)
    requires pre != "" ==> pre[|pre| - 1] == '\n'
    ensures Lacks(pre + post, mark)
  {
    if pre == "" {
      assert pre + post == post;
    } else {
      PartLacks(pre, 0, |pre| - 1, mark);
      NoMarkAcross(pre[..|pre| - 1], post, mark);
      assert pre[..|pre| - 1] + ("\n" + post) == pre + post;
    }
  }

  // ---- Main results ----

  lemma {:induction false} TrimRightOf(s: string, k: nat)
    requires s == "" || s[|s| - 1] != '\n'
    ensures TrimRight(s + seq(k, _ => '\n')) == s
  {
    var t := s + seq(k, _ => '\n');
    if k == 0 {
      assert t == s;
    } else {
      assert t[..|t| - 1] == s + seq(k - 1, _ => '\n');
      TrimRightOf(s, k - 1);
    }
  }

  lemma TrimTwoNewlines(s: string)
    ensures TrimRight(TrimRight(s) + "\n\n") == TrimRight(s)
    ensures TrimRight(TrimRight(s)) == TrimRight(s)
  {
    TrimRightOf(TrimRight(s), 2);
    assert seq(2, _ => '\n') == "\n\n";
    TrimRightOf(TrimRight(s), 0);
    assert TrimRight(s) + seq(0, _ => '\n') == TrimRight(s);
  }

  lemma BlankIsBlank(s: string)
    ensures TrimSpace(s) == "" <==> forall k :: 0 <= k < |s| ==> IsSpace(s[k])
  {
    var left := TrimSpaceLeft(s);
    if TrimSpace(s) == "" {
      assert forall k :: 0 <= k < |left| ==> IsSpace(left[k]);
      if left != "" { LeftStartsSolid(s); }
    }
  }

  lemma {:induction false} LeftStartsSolid(s: string)
    requires TrimSpaceLeft(s) != ""
    ensures !IsSpace(TrimSpaceLeft(s)[0])
  {
    if s != "" && IsSpace(s[0]) { LeftStartsSolid(s[1..]); }
  }

  lemma {:induction false} TrimRightKeepsBlankness(s: string)
    ensures TrimSpace(TrimRight(s)) == "" <==> TrimSpace(s) == ""
  {
    hide TrimSpace;
    var r := TrimRight(s);
    BlankIsBlank(s);
    BlankIsBlank(r);
    assert forall k :: 0 <= k < |r| ==> s[k] == r[k];
    assert forall k :: |r| <= k < |s| ==> IsSpace(s[k]);
  }

  // What is written before a block when the rest is this text.
  function Lead(rest: string): string {
    if TrimSpace(rest) == "" then "" else TrimRight(rest) + "\n\n"
  }

  lemma {:induction false} WithBlockIsLead(rest: string, body: string)
    ensures WithBlock(rest, body) == Lead(rest) + Block(body)
  {
    hide Block, TrimSpace;
    if TrimSpace(rest) == "" { assert "" + Block(body) == Block(body); }
  }

  lemma {:induction false} LeadLeads(rest: string)
    requires MarkerFree(rest)
    ensures Leads(Lead(rest))
    ensures forall body :: WithBlock(TrimRight(Lead(rest)), body) == WithBlock(rest, body)
  {
    hide BEGIN, END, TrimSpace, Block;
    MarksAreLines();
    EmptyLacks(BEGIN);
    EmptyLacks(END);
    if TrimSpace(rest) == "" {
      assert TrimRight("") == "";
      BlankIsBlank("");
    } else {
      var r := TrimRight(rest);
      TrimmedLacks(rest, BEGIN);
      TrimmedLacks(rest, END);
      TrimTwoNewlines(rest);
      TrimRightKeepsBlankness(rest);
      assert r + ("\n" + ("" + ("\n" + ""))) == r + "\n\n";
      NoMarkAcross("", "", BEGIN);
      NoMarkAcross("", "", END);
      NoMarkAcross(r, "" + ("\n" + ""), BEGIN);
      NoMarkAcross(r, "" + ("\n" + ""), END);
    }
  }

  lemma FreeTextIsItsRest(text: string)
    requires MarkerFree(text)
    ensures Rest(text) == Ok(text)
  {
    hide BEGIN, END, Index, Count;
    MarksAreLines();
    AbsentIsNotCounted(text, BEGIN);
    AbsentIsNotCounted(text, END);
  }

  // What a rest without markers becomes is read back as that rest, up to what the next write ignores.
  lemma {:induction false} WrittenIsReadBack(rest: string, first: string, second: string)
    requires MarkerFree(rest) && MarkerFree(first)
    ensures Upsert(WithBlock(rest, first), second) == Ok(WithBlock(rest, second))
  {
    hide BEGIN, END, TrimSpace, Block, Rest, WithBlock, Lead;
    WithBlockIsLead(rest, first);
    LeadLeads(rest);
    BlockIsFound(Lead(rest), first);
  }

  // A later upsert absorbs an earlier one; so the output of an upsert is a fixed point of it.
  lemma UpsertAbsorbs(text: string, first: string, second: string)
    requires MarkerFree(text) && MarkerFree(first)
    ensures Upsert(text, first).Ok?
    ensures Upsert(Upsert(text, first).value, second) == Upsert(text, second)
  {
    hide Rest, WithBlock;
    FreeTextIsItsRest(text);
    WrittenIsReadBack(text, first, second);
  }

  // The text before the block survives, up to trailing newlines, unless all there is is blank.
  lemma {:induction false} TextBeforeSurvives(text: string, body: string)
    requires Rest(text).Ok? && TrimSpace(Rest(text).value) != ""
    ensures Index(text, BEGIN).Some? ==> TrimRight(text[..Index(text, BEGIN).value]) <= Upsert(text, body).value
    ensures Index(text, BEGIN).None? ==> TrimRight(text) <= Upsert(text, body).value
  {
    hide TrimSpace, Block, Count, IndexFrom, BEGIN, END, TrimRight, TrimLeft;
    var rest := Rest(text).value;
    assert Upsert(text, body).value == TrimRight(rest) + ("\n\n" + Block(body));
    if Index(text, BEGIN).Some? {
      var before := TrimRight(text[..Index(text, BEGIN).value]);
      assert before <= rest;
      TrimRightKeepsPrefix(rest, before);
    }
  }

  lemma TrimRightKeepsPrefix(s: string, prefix: string)
    requires prefix <= s && (prefix != "" ==> prefix[|prefix| - 1] != '\n')
    ensures prefix <= TrimRight(s)
  {
    var r := TrimRight(s);
    assert prefix != "" ==> s[|prefix| - 1] == prefix[|prefix| - 1];
    assert r == s[..|r|];
  }

  // ---- Text behind the block ----

  lemma ExtraMarkIsCounted(pre: string, mark: string, i: nat, post: string)
    requires OneLine(mark) && IsAt(pre, mark, i)
    ensures Count(pre + (mark + post), mark) > 1
  {
    var text := pre + (mark + post);
    assert text[i..i + |mark|] == pre[i..i + |mark|];
    assert text[|pre|..|pre| + |mark|] == mark;
    TwiceIsCounted(text, mark, i, |pre|);
  }

  lemma TwiceIsCounted(text: string, mark: string, i: nat, j: nat)
    requires mark != "" && IsAt(text, mark, i) && IsAt(text, mark, j) && i + |mark| <= j
    ensures Count(text, mark) > 1
  {
    hide IndexFrom;
    var k := IndexFrom(text, mark, 0);
    assert k.Some? && k.value <= i;
    var m := IndexFrom(text, mark, k.value + |mark|);
    assert m.Some?;
    assert CountFrom(text, mark, k.value + |mark|) == 1 + CountFrom(text, mark, m.value + |mark|);
  }

  // When joining the halves around the block makes up a marker, the next upsert refuses the file.
  lemma {:induction false} FusedMarkerIsRefused(rest: string, first: string, second: string)
    requires !MarkerFree(TrimRight(rest)) && TrimSpace(rest) != ""
    ensures Upsert(WithBlock(rest, first), second) == Err(Duplicate)
  {
    hide BEGIN, END, TrimSpace, TrimRight, Count;
    MarksAreLines();
    var r, inner := TrimRight(rest), TrimSpace(first);
    var text := WithBlock(rest, first);
    if i: nat :| IsAt(r, BEGIN, i) {
      var post := "\n" + (inner + ("\n" + (END + "\n")));
      assert text == (r + "\n\n") + (BEGIN + post);
      LongerHasMark(r, "\n\n", BEGIN, i);
      ExtraMarkIsCounted(r + "\n\n", BEGIN, i, post);
    } else {
      var i: nat :| IsAt(r, END, i);
      var pre := r + ("\n\n" + (BEGIN + ("\n" + (inner + "\n"))));
      assert text == pre + (END + "\n");
      LongerHasMark(r, "\n\n" + (BEGIN + ("\n" + (inner + "\n"))), END, i);
      ExtraMarkIsCounted(pre, END, i, "\n");
    }
  }

  lemma LongerHasMark(s: string, more: string, mark: string, i: nat)
    requires IsAt(s, mark, i)
    ensures IsAt(s + more, mark, i)
  {
    assert (s + more)[i..i + |mark|] == s[i..i + |mark|];
  }

  // For every file that is accepted: upserting its own output again changes nothing exactly when the text
  // outside the block, joined, has no marker in it; otherwise the file is refused from then on.
  lemma {:induction false} FixedPointExactlyWhen(text: string, body: string)
    requires Rest(text).Ok? && MarkerFree(body)
    ensures var out := Upsert(text, body).value;
            && (Upsert(out, body) == Ok(out) <==> MarkerFree(TrimRight(Rest(text).value)))
            && (!MarkerFree(TrimRight(Rest(text).value)) ==> Upsert(out, body) == Err(Duplicate))
  {
    hide Rest, TrimSpace, Block, BEGIN, END;
    var rest := Rest(text).value;
    if MarkerFree(TrimRight(rest)) {
      TrimRightLosesNothing(rest, body);
      WrittenIsReadBack(TrimRight(rest), body, body);
    } else {
      SolidWithMark(rest);
      FusedMarkerIsRefused(rest, body, body);
    }
  }

  lemma {:induction false} TrimRightLosesNothing(rest: string, body: string)
    ensures WithBlock(TrimRight(rest), body) == WithBlock(rest, body)
  {
    hide TrimSpace, Block;
    TrimRightKeepsBlankness(rest);
    TrimTwoNewlines(rest);
  }

  lemma SolidWithMark(rest: string)
    requires !MarkerFree(TrimRight(rest))
    ensures TrimSpace(rest) != ""
  {
    hide TrimSpace;
    BlankIsBlank(rest);
    assert BEGIN[0] == '#' && END[0] == '#';
    var r := TrimRight(rest);
    if i: nat :| IsAt(r, BEGIN, i) {
      assert r[i] == r[i..i + |BEGIN|][0] == '#' && rest[i] == '#';
    } else {
      var i: nat :| IsAt(r, END, i);
      assert r[i] == r[i..i + |END|][0] == '#' && rest[i] == '#';
    }
  }

  // With the block last there is nothing to join, so the output is a fixed point.
  lemma {:induction false} BlockLastIsFixed(text: string, body: string)
    requires Rest(text).Ok? && MarkerFree(body)
    requires Index(text, BEGIN).Some? ==> TrimLeft(text[Index(text, END).value + |END|..]) == ""
    ensures Upsert(Upsert(text, body).value, body) == Upsert(text, body)
  {
    hide TrimSpace, Block, BEGIN, END;
    MarksAreLines();
    var begin, end := Index(text, BEGIN), Index(text, END);
    FixedPointExactlyWhen(text, body);
    if begin.Some? {
      var before := text[..begin.value];
      BeforeIsFree(text, begin.value, BEGIN);
      BeforeIsFree(text, begin.value, END);
      TrimmedLacks(before, BEGIN);
      TrimmedLacks(before, END);
      TrimTwoNewlines(before);
      assert TrimRight(before) + "" == TrimRight(before);
    } else {
      TrimmedLacks(text, BEGIN);
      TrimmedLacks(text, END);
    }
  }

  lemma BeforeIsFree(text: string, k: nat, mark: string)
    requires k <= |text| && mark != "" && forall i :: 0 <= i < k ==> !IsAt(text, mark, i)
    ensures Lacks(text[..k], mark)
  {
    forall i: nat
      ensures !IsAt(text[..k], mark, i)
    {
      if IsAt(text[..k], mark, i) {
        assert text[..k][i..i + |mark|] == text[i..i + |mark|];
        assert IsAt(text, mark, i);
      }
    }
  }

  // Text behind the block is joined to the line before it.
  lemma {:induction false} LinesAreFused(before: string, behind: string, first: string, second: string)
    requires MarkerFree(before) && MarkerFree(first)
    requires MarkerFree("\n" + behind)
    requires before != "" && before[|before| - 1] != '\n' && !IsSpace(before[0])
    requires behind != "" && behind[0] != '\n' && behind[|behind| - 1] != '\n'
    ensures Upsert((before + "\n") + (Block(first) + behind), second) == Ok(before + (behind + ("\n\n" + Block(second))))
  {
    hide TrimSpace, Block, Rest, BEGIN, END;
    BlockIsFoundBefore(before, first, behind);
    var rest := before + behind;
    BlankIsBlank(rest);
    assert !IsSpace(rest[0]);
    TrimRightKeepsPrefix(rest, rest);
    assert TrimRight(rest) == rest;
    AppendIsAssociative(before, behind, "\n\n" + Block(second));
  }

  lemma BlockIsFoundBefore(before: string, body: string, behind: string)
    requires MarkerFree(before) && MarkerFree(body) && MarkerFree("\n" + behind)
    requires before != "" && before[|before| - 1] != '\n' && behind != "" && behind[0] != '\n'
    ensures Rest((before + "\n") + (Block(body) + behind)) == Ok(before + behind)
  {
    hide BEGIN, END, TrimSpace, Rest, TrimRight, TrimLeft, MarkedBetween;
    MarksAreLines();
    LineLeads(before);
    MarkersAreFound(before + "\n", body, "\n" + behind);
    SameBehind(before + "\n", TrimSpace(body), behind);
    RestOfMarked((before + "\n") + (Block(body) + behind), before + "\n", "\n" + behind);
    TrimRightOf(before, 1);
    assert seq(1, _ => '\n') == "\n";
    LeadingNewlineIsTrimmed(behind);
  }

  lemma LineLeads(line: string)
    requires MarkerFree(line)
    ensures Leads(line + "\n")
  {
    hide BEGIN, END, Lacks;
    MarksAreLines();
    EmptyLacks(BEGIN);
    EmptyLacks(END);
    NoMarkAcross(line, "", BEGIN);
    NoMarkAcross(line, "", END);
    assert line + ("\n" + "") == line + "\n";
  }

  lemma SameBehind(pre: string, inner: string, behind: string)
    ensures pre + ((BEGIN + ("\n" + (inner + ("\n" + (END + "\n"))))) + behind)
         == pre + (BEGIN + ("\n" + (inner + ("\n" + (END + ("\n" + behind))))))
  {
  }

  lemma LeadingNewlineIsTrimmed(behind: string)
    requires behind != "" && behind[0] != '\n'
    ensures TrimLeft("\n" + behind) == behind
  {
    assert ("\n" + behind)[1..] == behind;
  }

  // A marker torn apart by a block is put together again when the block is taken out: a file that is read
  // without error, whose next upsert succeeds, and which every upsert after that refuses.
  lemma TornMarkerIsFused(mark: string, cut: nat, first: string, second: string)
    requires mark == BEGIN || mark == END
    requires 0 < cut < |mark| && MarkerFree(first)
    ensures var text := (mark[..cut] + "\n") + (Block(first) + mark[cut..]);
            && Rest(text) == Ok(mark) && !MarkerFree(TrimRight(mark))
            && Upsert(text, second) == Ok(WithBlock(mark, second))
            && Upsert(WithBlock(mark, second), second) == Err(Duplicate)
  {
    hide BEGIN, END, Block, Rest, WithBlock, TrimSpace;
    MarksAreLines();
    var before, behind := mark[..cut], mark[cut..];
    assert before + behind == mark;
    NoNewlineIn(mark);
    ShortLacks(before, BEGIN);
    ShortLacks(before, END);
    NewLineLacks(behind, BEGIN);
    NewLineLacks(behind, END);
    BlockIsFoundBefore(before, first, behind);
    assert IsAt(TrimRight(mark), mark, 0);
    SolidWithMark(mark);
    FusedMarkerIsRefused(mark, second, second);
  }

  lemma NoNewlineIn(mark: string)
    requires OneLine(mark)
    ensures TrimRight(mark) == mark && forall k :: 0 <= k < |mark| ==> mark[k] != '\n'
  {
    assert mark[|mark| - 1] in mark;
  }

  lemma NewLineLacks(s: string, mark: string)
    requires OneLine(mark) && |s| < |mark|
    ensures Lacks("\n" + s, mark)
  {
    ShortLacks(s, mark);
    ShortLacks("", mark);
    NoMarkAcross("", s, mark);
    assert "" + ("\n" + s) == "\n" + s;
  }

  lemma ShortLacks(s: string, mark: string)
    requires |s| < |mark|
    ensures Lacks(s, mark)
  {
  }
}
