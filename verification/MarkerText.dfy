// Which shell files are accepted and what is written for them, character by character
// (internal/platform/cachyos/devtools.go:177-199).
module MarkerText {
  import opened Text
  import opened Marker

  const OPENING := "# >>> alex-cachyos/devtools >>>"
  const CLOSING := "# <<< alex-cachyos/devtools <<<"

  lemma SameMarks()
    ensures OPENING == BEGIN && CLOSING == END
  {
  }

  // ---- Which files are accepted ----

  ghost predicate OccursAt(text: string, mark: string, i: nat) {
    i + |mark| <= |text| && forall k :: 0 <= k < |mark| ==> text[i + k] == mark[k]
  }

  ghost predicate OccursTwice(text: string, mark: string) {
    exists i: nat, j: nat :: i < j && OccursAt(text, mark, i) && OccursAt(text, mark, j)
  }

  ghost predicate Occurs(text: string, mark: string) {
    exists i: nat :: OccursAt(text, mark, i)
  }

  lemma OccursIsAt(text: string, mark: string, i: nat)
    ensures OccursAt(text, mark, i) <==> IsAt(text, mark, i)
  {
    if IsAt(text, mark, i) {
      forall k | 0 <= k < |mark|
        ensures text[i + k] == mark[k]
      {
        assert text[i..i + |mark|][k] == text[i + k];
      }
    }
  }

  // The first character of a marker is nowhere else in it, so that two of them do not overlap.
  ghost predicate StartsOnce(mark: string) {
    mark != "" && forall k :: 0 < k < |mark| ==> mark[k] != mark[0]
  }

  lemma MarksStartOnce()
    ensures StartsOnce(BEGIN) && StartsOnce(END)
  {
    assert BEGIN[0] == '#' && END[0] == '#';
    assert forall k :: 0 < k < |BEGIN| ==> BEGIN[k] in " >alex-cachyos/devtools";
    assert forall k :: 0 < k < |END| ==> END[k] in " <alex-cachyos/devtools";
  }

  lemma Apart(text: string, mark: string, i: nat, j: nat)
    requires StartsOnce(mark) && i < j && OccursAt(text, mark, i) && OccursAt(text, mark, j)
    ensures i + |mark| <= j
  {
    assert text[j + 0] == mark[0];
    var k := if j - i < |mark| then j - i else 0;
    assert text[i + k] == mark[k];
  }

  lemma CountedTwiceExactlyWhen(text: string, mark: string)
    requires StartsOnce(mark)
    ensures Count(text, mark) > 1 <==> OccursTwice(text, mark)
    ensures Index(text, mark).Some? <==> Occurs(text, mark)
    ensures Index(text, mark).Some? ==> OccursAt(text, mark, Index(text, mark).value)
  {
    hide IsAt, OccursAt;
    forall i: nat ensures OccursAt(text, mark, i) <==> IsAt(text, mark, i) { OccursIsAt(text, mark, i); }
    var first := IndexFrom(text, mark, 0);
    if i: nat, j: nat :| i < j && OccursAt(text, mark, i) && OccursAt(text, mark, j) {
      Apart(text, mark, i, j);
      TwiceIsCounted(text, mark, i, j);
    }
    if Occurs(text, mark) {
      var i: nat :| OccursAt(text, mark, i);
      AtFits(text, mark, i);
    }
    if Count(text, mark) > 1 {
      AtFits(text, mark, first.value);
      var second := IndexFrom(text, mark, first.value + |mark|);
      assert CountFrom(text, mark, 0) == 1 + CountFrom(text, mark, first.value + |mark|);
      assert second.Some? && first.value < second.value;
    }
  }

  lemma AtFits(text: string, mark: string, i: nat)
    requires IsAt(text, mark, i)
    ensures i + |mark| <= |text|
  {
  }

  // The marker stands here and nowhere else.
  ghost predicate OnlyAt(text: string, mark: string, p: nat) {
    OccursAt(text, mark, p) && forall i: nat :: OccursAt(text, mark, i) ==> i == p
  }

  // Between these two positions stand the block and the newlines in front of it and behind it.
  ghost predicate Around(text: string, p: nat, q: nat, k: nat, l: nat) {
    && k <= p <= |text| && q + |CLOSING| <= l <= |text|
    && (forall i :: k <= i < p ==> text[i] == '\n') && (k > 0 ==> text[k - 1] != '\n')
    && (forall i :: q + |CLOSING| <= i < l ==> text[i] == '\n') && (l < |text| ==> text[l] != '\n')
  }

  ghost predicate IsOutside(text: string, p: nat, q: nat, outside: string) {
    exists k: nat, l: nat :: Around(text, p, q, k, l) && outside == text[..k] + text[l..]
  }

  // A file is refused for a marker that it has twice, or for one without the other or in front of it.
  lemma RefusedExactlyWhen(text: string)
    ensures Rest(text) == Err(Duplicate) <==> OccursTwice(text, OPENING) || OccursTwice(text, CLOSING)
    ensures Rest(text).Ok? <==>
      || (!Occurs(text, OPENING) && !Occurs(text, CLOSING))
      || exists p: nat, q: nat :: OnlyAt(text, OPENING, p) && OnlyAt(text, CLOSING, q) && p < q
  {
    hide Count, Index, OccursAt, Outside, BEGIN, END, OPENING, CLOSING;
    SameMarks();
    MarksStartOnce();
    CountedTwiceExactlyWhen(text, BEGIN);
    CountedTwiceExactlyWhen(text, END);
    if begin, end: nat :| Index(text, BEGIN) == Some(begin) && Index(text, END) == Some(end) {
      NotSamePlace(text, begin, end);
    }
    if Rest(text).Ok? && Index(text, BEGIN).Some? {
      OnceIsOnly(text, BEGIN, Index(text, BEGIN).value);
      OnceIsOnly(text, END, Index(text, END).value);
    }
    if p: nat, q: nat :| OnlyAt(text, OPENING, p) && OnlyAt(text, CLOSING, q) && p < q {
      OnlyIsOnce(text, OPENING, p);
      OnlyIsOnce(text, CLOSING, q);
    }
  }

  lemma NotSamePlace(text: string, p: nat, q: nat)
    requires OccursAt(text, BEGIN, p) && OccursAt(text, END, q)
    ensures p != q
  {
    assert BEGIN[2] == '>' && END[2] == '<';
    assert text[p + 2] == '>' && text[q + 2] == '<';
  }

  lemma OnceIsOnly(text: string, mark: string, p: nat)
    requires !OccursTwice(text, mark) && OccursAt(text, mark, p)
    ensures OnlyAt(text, mark, p)
  {
    hide OccursAt;
    forall i: nat | OccursAt(text, mark, i)
      ensures i == p
    {
      assert !(i < p) && !(p < i);
    }
  }

  lemma OnlyIsOnce(text: string, mark: string, p: nat)
    requires OnlyAt(text, mark, p)
    ensures Occurs(text, mark) && !OccursTwice(text, mark)
  {
    hide OccursAt;
  }

  // What an accepted file has outside its block: all of it if there is none, else what stands around it.
  lemma OutsideExactlyWhen(text: string, outside: string)
    ensures Rest(text) == Ok(outside) <==>
      || (!Occurs(text, OPENING) && !Occurs(text, CLOSING) && outside == text)
      || exists p: nat, q: nat :: OnlyAt(text, OPENING, p) && OnlyAt(text, CLOSING, q) && p < q && IsOutside(text, p, q, outside)
  {
    hide Count, Index, OccursAt, Outside, BEGIN, END, OPENING, CLOSING, IsOutside, TrimRight, TrimLeft;
    SameMarks();
    MarksStartOnce();
    RefusedExactlyWhen(text);
    CountedTwiceExactlyWhen(text, BEGIN);
    CountedTwiceExactlyWhen(text, END);
    if Rest(text).Ok? && Index(text, BEGIN).Some? {
      var p, q := Index(text, BEGIN).value, Index(text, END).value;
      NotSamePlace(text, p, q);
      OnceIsOnly(text, BEGIN, p);
      OnceIsOnly(text, END, q);
      ClosingFits(text, q);
      OutsideIs(text, p, q, outside);
    }
  }

  lemma ClosingFits(text: string, q: nat)
    requires OccursAt(text, CLOSING, q)
    ensures q + |CLOSING| <= |text|
  {
  }

  lemma OutsideIs(text: string, p: nat, q: nat, outside: string)
    requires p <= q && q + |END| <= |text|
    ensures IsOutside(text, p, q, outside) <==> outside == Outside(text, p, q)
  {
    hide BEGIN, END, OPENING, CLOSING, TrimRight, TrimLeft;
    SameMarks();
    var front, back := text[..p], text[q + |END|..];
    var k, l := |TrimRight(front)|, |text| - |TrimLeft(back)|;
    assert TrimRight(front) == text[..k] && TrimLeft(back) == text[l..];
    assert forall i :: k <= i < p ==> text[i] == front[i];
    assert forall i :: q + |END| <= i < l ==> text[i] == back[i - q - |END|];
    assert k > 0 ==> text[k - 1] == TrimRight(front)[k - 1];
    assert l < |text| ==> text[l] == TrimLeft(back)[0];
    assert Around(text, p, q, k, l);
    if IsOutside(text, p, q, outside) {
      var k': nat, l': nat :| Around(text, p, q, k', l') && outside == text[..k'] + text[l'..];
      AroundIsUnique(text, p, q, k, l, k', l');
    }
  }

  lemma AroundIsUnique(text: string, p: nat, q: nat, k: nat, l: nat, k': nat, l': nat)
    requires Around(text, p, q, k, l) && Around(text, p, q, k', l')
    ensures k == k' && l == l'
  {
    hide CLOSING;
    assert (k > 0 ==> text[k - 1] != '\n') && (k' > 0 ==> text[k' - 1] != '\n');
    assert (l < |text| ==> text[l] != '\n') && (l' < |text| ==> text[l'] != '\n');
  }

  // ---- What is written ----

  // The property White_Space of the Unicode standard.
  ghost predicate White(c: char) {
    c as int in {9, 10, 11, 12, 13, 0x20, 0x85, 0xA0, 0x1680, 0x2028, 0x2029, 0x202F, 0x205F, 0x3000} || 0x2000 <= c as int <= 0x200A
  }

  lemma WhiteIsSpace()
    ensures forall c :: White(c) <==> IsSpace(c)
  {
  }

  ghost predicate AllWhite(s: string) {
    forall i :: 0 <= i < |s| ==> White(s[i])
  }

  lemma {:induction false} RightIsTrimmed(s: string, after: string)
    requires AllWhite(after) && (s != "" ==> !White(s[|s| - 1]))
    ensures TrimSpaceRight(s + after) == s
    decreases |after|
  {
    hide White, IsSpace;
    WhiteIsSpace();
    if after == "" {
      assert s + after == s;
    } else {
      var text := s + after;
      assert text[|text| - 1] == after[|after| - 1];
      assert text[..|text| - 1] == s + after[..|after| - 1];
      RightIsTrimmed(s, after[..|after| - 1]);
    }
  }

  lemma {:induction false} LeftIsTrimmed(before: string, s: string)
    requires AllWhite(before) && (s != "" ==> !White(s[0]))
    ensures TrimSpaceLeft(before + s) == s
    decreases |before|
  {
    hide White, IsSpace;
    WhiteIsSpace();
    if before == "" {
      assert before + s == s;
    } else {
      assert (before + s)[0] == before[0] && (before + s)[1..] == before[1..] + s;
      LeftIsTrimmed(before[1..], s);
    }
  }

  lemma BodyIsTrimmed(before: string, inner: string, after: string)
    requires AllWhite(before) && AllWhite(after)
    requires inner != "" ==> !White(inner[0]) && !White(inner[|inner| - 1])
    ensures TrimSpace(before + (inner + after)) == inner
  {
    hide White, TrimSpaceLeft, TrimSpaceRight;
    if inner == "" {
      assert before + (inner + after) == (before + after) + "";
      assert AllWhite(before + after);
      LeftIsTrimmed(before + after, "");
    } else {
      assert (inner + after)[0] == inner[0];
      LeftIsTrimmed(before, inner + after);
      RightIsTrimmed(inner, after);
    }
  }

  lemma NewlinesAreTrimmed(s: string, k: nat)
    requires k <= |s| && (forall i :: k <= i < |s| ==> s[i] == '\n') && (k > 0 ==> s[k - 1] != '\n')
    ensures TrimRight(s) == s[..k]
  {
    var r := TrimRight(s);
    assert r == s[..|r|];
    assert r != "" ==> s[|r| - 1] == r[|r| - 1];
    assert k > 0 ==> s[k - 1] != '\n';
  }

  // The block is written behind the text outside, without the newlines that ends in, and an empty line; or
  // alone where there is only space. White space around the body is dropped.
  lemma UpsertWrites(text: string, outside: string, k: nat, before: string, inner: string, after: string)
    requires Rest(text) == Ok(outside)
    requires k <= |outside| && (forall i :: k <= i < |outside| ==> outside[i] == '\n') && (k > 0 ==> outside[k - 1] != '\n')
    requires AllWhite(before) && AllWhite(after)
    requires inner != "" ==> !White(inner[0]) && !White(inner[|inner| - 1])
    ensures var block := "# >>> alex-cachyos/devtools >>>\n" + (inner + "\n# <<< alex-cachyos/devtools <<<\n");
            Upsert(text, before + (inner + after)) == Ok(if AllWhite(outside) then block else outside[..k] + ("\n\n" + block))
  {
    hide TrimSpace, TrimRight, Rest, Block, BEGIN, END, White, IsSpace;
    BodyIsTrimmed(before, inner, after);
    BlankIsBlank(outside);
    WhiteIsSpace();
    NewlinesAreTrimmed(outside, k);
    BlockIs(before + (inner + after), inner);
  }

  lemma BlockIs(body: string, inner: string)
    requires TrimSpace(body) == inner
    ensures Block(body) == "# >>> alex-cachyos/devtools >>>\n" + (inner + "\n# <<< alex-cachyos/devtools <<<\n")
  {
    hide TrimSpace;
    LinesAddUp(BEGIN, inner, END);
    assert BEGIN + "\n" == "# >>> alex-cachyos/devtools >>>\n";
    assert "\n" + (END + "\n") == "\n# <<< alex-cachyos/devtools <<<\n";
  }

  lemma LinesAddUp(begin: string, inner: string, end: string)
    ensures begin + ("\n" + (inner + ("\n" + (end + "\n")))) == (begin + "\n") + (inner + ("\n" + (end + "\n")))
  {
  }
}
