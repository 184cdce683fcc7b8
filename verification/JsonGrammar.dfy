// The texts the decoder accepts, and what they mean, by the grammar of RFC 8259 (sections 2 to 7)
// alone: the decoder and the grammar agree on every text.
module JsonGrammar {
  import opened Text
  import opened Json
  import opened JsonTheorems
  import opened JsonValue

  // ---- The grammar ----

  ghost predicate Blank(s: string) {
    forall i :: 0 <= i < |s| ==> s[i] == ' ' || s[i] == '\t' || s[i] == '\n' || s[i] == '\r'
  }

  ghost predicate Digits(s: string) {
    s != "" && forall i :: 0 <= i < |s| ==> s[i] in "0123456789"
  }

  // Section 6: a minus, an integer without leading zeros, a fraction, an exponent.
  datatype Scale = Scale(letter: char, sign: string, digits: string)

  datatype Numeral = Numeral(minus: bool, whole: string, fraction: Option<string>, scale: Option<Scale>)

  ghost predicate IsScale(scale: Scale) {
    (scale.letter == 'e' || scale.letter == 'E') && (scale.sign == "" || scale.sign == "+" || scale.sign == "-") && Digits(scale.digits)
  }

  ghost predicate IsNumeral(n: Numeral) {
    && Digits(n.whole) && (n.whole[0] == '0' ==> |n.whole| == 1)
    && (n.fraction.Some? ==> Digits(n.fraction.value))
    && (n.scale.Some? ==> IsScale(n.scale.value))
  }

  function ScaleText(scale: Option<Scale>, rest: string): string {
    match scale
    case None => rest
    case Some(Scale(letter, sign, digits)) => [letter] + (sign + (digits + rest))
  }

  function FractionText(fraction: Option<string>, rest: string): string {
    match fraction
    case None => rest
    case Some(digits) => ['.'] + (digits + rest)
  }

  // The text of a number, with what follows it.
  function NumeralText(n: Numeral, rest: string): string {
    (if n.minus then "-" else "") + (n.whole + FractionText(n.fraction, ScaleText(n.scale, rest)))
  }

  // Section 7: a plain character, a short escape, or a code unit in four hexadecimal digits.
  datatype Piece = Plain(c: char) | Short(letter: char) | Unit(digits: string, values: seq<nat>)

  const LOWER := "0123456789abcdef"
  const UPPER := "0123456789ABCDEF"

  ghost predicate IsPiece(p: Piece) {
    match p
    case Plain(c) => c >= '\U{0020}' && c != '"' && c != '\\'
    case Short(letter) => letter in SHORT
    case Unit(digits, values) =>
      |digits| == 4 == |values| && forall i :: 0 <= i < 4 ==> values[i] < 16 && (digits[i] == LOWER[values[i]] || digits[i] == UPPER[values[i]])
  }

  const SHORT: map<char, char> := map[
    '"' := '"', '\\' := '\\', '/' := '/', 'b' := '\U{0008}', 'f' := '\U{000C}', 'n' := '\U{000A}', 'r' := '\U{000D}', 't' := '\U{0009}']

  ghost predicate ArePieces(pieces: seq<Piece>) {
    forall i :: 0 <= i < |pieces| ==> IsPiece(pieces[i])
  }

  function PieceText(p: Piece, rest: string): string {
    match p
    case Plain(c) => [c] + rest
    case Short(letter) => ['\\', letter] + rest
    case Unit(digits, _) => ['\\', 'u'] + (digits + rest)
  }

  function PiecesText(pieces: seq<Piece>, rest: string): string {
    if pieces == [] then rest else PieceText(pieces[0], PiecesText(pieces[1..], rest))
  }

  function UnitOf(p: Piece): nat
    requires p.Unit? && |p.values| == 4
  {
    p.values[0] * 4096 + p.values[1] * 256 + p.values[2] * 16 + p.values[3]
  }

  predicate IsUnitIn(p: Piece, low: nat, high: nat) {
    p.Unit? && |p.values| == 4 && low <= UnitOf(p) < high
  }

  // Two surrogates, a high and a low one, are one character; any other surrogate is the replacement character.
  ghost function Meant(pieces: seq<Piece>): string
    requires ArePieces(pieces)
  {
    if pieces == [] then ""
    else if |pieces| > 1 && IsUnitIn(pieces[0], 0xD800, 0xDC00) && IsUnitIn(pieces[1], 0xDC00, 0xE000) then
      [(0x10000 + (UnitOf(pieces[0]) - 0xD800) * 0x400 + (UnitOf(pieces[1]) - 0xDC00)) as char] + Meant(pieces[2..])
    else [PieceMeaning(pieces[0])] + Meant(pieces[1..])
  }

  ghost function PieceMeaning(p: Piece): char
    requires IsPiece(p)
  {
    match p
    case Plain(c) => c
    case Short(letter) => SHORT[letter]
    case Unit(_, _) =>
      UnitIsSmall(p);
      if 0xD800 <= UnitOf(p) < 0xE000 then '\U{FFFD}' else UnitOf(p) as char
  }

  lemma UnitIsSmall(p: Piece)
    requires p.Unit? && IsPiece(p)
    ensures UnitOf(p) < 0x10000
  {
    var a, b, c, d := p.values[0], p.values[1], p.values[2], p.values[3];
    assert a < 16 && b < 16 && c < 16 && d < 16;
  }

  // Sections 2 to 5: values, with blanks wherever they may be.
  datatype Tree =
    | Word(word: string)
    | Number(numeral: Numeral)
    | Chars(pieces: seq<Piece>)
    | NoItems(blank: string)
    | Array(blank: string, items: ItemList)
    | NoMembers(blank: string)
    | Object(blank: string, members: MemberList)

  datatype ItemList =
    | LastItem(before: string, value: Tree, after: string)
    | MoreItems(before: string, value: Tree, after: string, rest: ItemList)

  datatype MemberList =
    | LastMember(before: string, name: seq<Piece>, colon: (string, string), value: Tree, after: string)
    | MoreMembers(before: string, name: seq<Piece>, colon: (string, string), value: Tree, after: string, rest: MemberList)

  // Nesting no deeper than `depth`.
  ghost predicate IsTree(t: Tree, depth: nat) {
    match t
    case Word(word) => word == "null" || word == "true" || word == "false"
    case Number(numeral) => IsNumeral(numeral)
    case Chars(pieces) => ArePieces(pieces)
    case NoItems(blank) => depth > 0 && Blank(blank)
    case Array(blank, items) => depth > 0 && Blank(blank) && AreItems(items, depth - 1)
    case NoMembers(blank) => depth > 0 && Blank(blank)
    case Object(blank, members) => depth > 0 && Blank(blank) && AreMembers(members, depth - 1)
  }

  ghost predicate AreItems(items: ItemList, depth: nat) {
    && Blank(items.before) && Blank(items.after) && IsTree(items.value, depth)
    && (items.MoreItems? ==> AreItems(items.rest, depth))
  }

  ghost predicate AreMembers(members: MemberList, depth: nat) {
    && Blank(members.before) && Blank(members.after) && Blank(members.colon.0) && Blank(members.colon.1)
    && ArePieces(members.name) && IsTree(members.value, depth)
    && (members.MoreMembers? ==> AreMembers(members.rest, depth))
  }

  // The text of a value, with what follows it.
  function TreeText(t: Tree, rest: string): string {
    match t
    case Word(word) => word + rest
    case Number(numeral) => NumeralText(numeral, rest)
    case Chars(pieces) => ['"'] + PiecesText(pieces, ['"'] + rest)
    case NoItems(blank) => ['['] + (blank + ([']'] + rest))
    case Array(blank, items) => ['['] + (blank + ItemsText(items, rest))
    case NoMembers(blank) => ['{'] + (blank + (['}'] + rest))
    case Object(blank, members) => ['{'] + (blank + MembersText(members, rest))
  }

  function ItemsText(items: ItemList, rest: string): string {
    match items
    case LastItem(before, value, after) => before + TreeText(value, after + ([']'] + rest))
    case MoreItems(before, value, after, more) => before + TreeText(value, after + ([','] + ItemsText(more, rest)))
  }

  function MembersText(members: MemberList, rest: string): string {
    members.before + (['"'] + PiecesText(members.name, ['"'] + (members.colon.0 + ([':'] + (members.colon.1 +
      TreeText(members.value, members.after + (match members
        case LastMember(_, _, _, _, _) => ['}'] + rest
        case MoreMembers(_, _, _, _, _, more) => [','] + MembersText(more, rest))))))))
  }

  ghost function TreeMeaning(t: Tree, depth: nat): Json
    requires IsTree(t, depth)
  {
    match t
    case Word(word) => if word == "null" then Null else Bool(word == "true")
    case Number(numeral) => Num(NumeralText(numeral, ""))
    case Chars(pieces) => Str(Meant(pieces))
    case NoItems(_) => Arr([])
    case Array(_, items) => Arr(ItemsMeaning(items, depth - 1))
    case NoMembers(_) => Obj(map[])
    case Object(_, members) => Obj(MembersMeaning(members, depth - 1, map[]))
  }

  ghost function ItemsMeaning(items: ItemList, depth: nat): seq<Json>
    requires AreItems(items, depth)
  {
    [TreeMeaning(items.value, depth)] + (if items.MoreItems? then ItemsMeaning(items.rest, depth) else [])
  }

  // Of members with one name the last counts.
  ghost function MembersMeaning(members: MemberList, depth: nat, before: map<string, Json>): map<string, Json>
    requires AreMembers(members, depth)
  {
    var read := before[Meant(members.name) := TreeMeaning(members.value, depth)];
    if members.MoreMembers? then MembersMeaning(members.rest, depth, read) else read
  }

  // ---- Blanks ----

  lemma {:induction false} SkipBlank(u: string, s: string)
    requires Blank(u)
    ensures SkipSpace(u + s) == SkipSpace(s)
  {
    if u == "" {
      assert u + s == s;
    } else {
      assert (u + s)[0] == u[0] && (u + s)[1..] == u[1..] + s;
      SkipBlank(u[1..], s);
    }
  }

  lemma {:induction false} SkippedIsBlank(s: string) returns (u: string)
    ensures Blank(u) && s == u + SkipSpace(s)
    ensures SkipSpace(s) != "" ==> !IsSpace(SkipSpace(s)[0])
  {
    if s != "" && IsSpace(s[0]) {
      var v := SkippedIsBlank(s[1..]);
      u := [s[0]] + v;
      assert s == [s[0]] + s[1..];
    } else {
      u := "";
    }
  }

  lemma SkipTwice(s: string)
    ensures SkipSpace(SkipSpace(s)) == SkipSpace(s)
  {
    var u := SkippedIsBlank(s);
  }

  lemma BlankExactlyWhen(s: string)
    ensures SkipSpace(s) == "" <==> Blank(s)
  {
    var u := SkippedIsBlank(s);
    if Blank(s) {
      SkipBlank(s, "");
      assert s + "" == s;
    }
    if SkipSpace(s) == "" { assert s == u; }
  }

  // ---- Strings ----

  lemma HexAgrees(c: char, n: nat)
    ensures HexValue(c) == Some(n) <==> n < 16 && (c == LOWER[n] || c == UPPER[n])
  {
    assert LOWER[..10] == "0123456789" == UPPER[..10];
    if n < 10 {
      assert LOWER[n] == LOWER[..10][n] && UPPER[n] == UPPER[..10][n];
    }
  }

  lemma UnitIsRead(p: Piece, rest: string)
    requires p.Unit? && IsPiece(p)
    ensures CodeUnit(PieceText(p, rest)) == Some(UnitOf(p))
    ensures PieceText(p, rest)[6..] == rest
  {
    hide HexValue;
    var s := PieceText(p, rest);
    assert s[0] == '\\' && s[1] == 'u' && s[2] == p.digits[0] && s[3] == p.digits[1] && s[4] == p.digits[2] && s[5] == p.digits[3];
    HexAgrees(p.digits[0], p.values[0]);
    HexAgrees(p.digits[1], p.values[1]);
    HexAgrees(p.digits[2], p.values[2]);
    HexAgrees(p.digits[3], p.values[3]);
  }

  lemma UnitIsWritten(s: string) returns (p: Piece)
    requires CodeUnit(s).Some?
    ensures p.Unit? && IsPiece(p) && UnitOf(p) == CodeUnit(s).value && s == PieceText(p, s[6..])
  {
    var a, b, c, d := HexValue(s[2]).value, HexValue(s[3]).value, HexValue(s[4]).value, HexValue(s[5]).value;
    HexAgrees(s[2], a);
    HexAgrees(s[3], b);
    HexAgrees(s[4], c);
    HexAgrees(s[5], d);
    p := Unit(s[2..6], [a, b, c, d]);
    assert p.digits[0] == s[2] && p.digits[1] == s[3] && p.digits[2] == s[4] && p.digits[3] == s[5];
    assert s == ['\\', 'u'] + (s[2..6] + s[6..]);
  }

  lemma OnlyUnitsAreUnits(pieces: seq<Piece>, rest: string)
    requires ArePieces(pieces) && rest != "" && rest[0] == '"'
    ensures CodeUnit(PiecesText(pieces, rest)).Some? <==> pieces != [] && pieces[0].Unit?
    ensures pieces != [] && pieces[0].Unit? ==> CodeUnit(PiecesText(pieces, rest)) == Some(UnitOf(pieces[0]))
  {
    if pieces != [] {
      var more := PiecesText(pieces[1..], rest);
      match pieces[0]
      case Plain(c) => assert PieceText(pieces[0], more)[0] == c;
      case Short(letter) => assert PieceText(pieces[0], more)[1] == letter; assert 'u' !in SHORT;
      case Unit(_, _) => UnitIsRead(pieces[0], more);
    }
  }

  lemma {:induction false} StringIsRead(pieces: seq<Piece>, rest: string)
    requires ArePieces(pieces)
    ensures ParseString(PiecesText(pieces, ['"'] + rest)) == Done(Meant(pieces), rest)
    decreases |pieces|
  {
    var end := ['"'] + rest;
    if pieces == [] {
      assert end[1..] == rest;
    } else {
      var s, tail := PiecesText(pieces, end), pieces[1..];
      StringIsRead(tail, rest);
      if |pieces| > 1 && IsUnitIn(pieces[0], 0xD800, 0xDC00) && IsUnitIn(pieces[1], 0xDC00, 0xE000) {
        StringIsRead(pieces[2..], rest);
        PairIsRead(pieces, end);
      } else {
        PieceIsRead(pieces, end);
      }
    }
  }

  lemma PairIsRead(pieces: seq<Piece>, end: string)
    requires ArePieces(pieces) && |pieces| > 1
    requires IsUnitIn(pieces[0], 0xD800, 0xDC00) && IsUnitIn(pieces[1], 0xDC00, 0xE000)
    ensures var s := PiecesText(pieces, end);
            && s != "" && s[0] == '\\'
            && UnescapeChar(s) == Done(Meant(pieces)[0], PiecesText(pieces[2..], end))
            && Meant(pieces) == [Meant(pieces)[0]] + Meant(pieces[2..])
  {
    hide CodeUnit, UnescapeChar, PieceText, UnitOf, IsPiece;
    var more := PiecesText(pieces[2..], end);
    assert pieces[1..][0] == pieces[1] && pieces[1..][1..] == pieces[2..];
    assert PiecesText(pieces, end) == PieceText(pieces[0], PieceText(pieces[1], more));
    TwoUnitsAreRead(pieces[0], pieces[1], more);
  }

  lemma TwoUnitsAreRead(p: Piece, q: Piece, more: string)
    requires p.Unit? && IsPiece(p) && q.Unit? && IsPiece(q)
    requires 0xD800 <= UnitOf(p) < 0xDC00 && 0xDC00 <= UnitOf(q) < 0xE000
    ensures var s := PieceText(p, PieceText(q, more));
            && s != "" && s[0] == '\\'
            && UnescapeChar(s) == Done((0x10000 + (UnitOf(p) - 0xD800) * 0x400 + (UnitOf(q) - 0xDC00)) as char, more)
  {
    hide CodeUnit, UnitOf;
    var second := PieceText(q, more);
    var s := PieceText(p, second);
    UnitIsRead(p, second);
    UnitIsRead(q, more);
    UnitStarts(p, second);
    assert s[12..] == s[6..][6..];
  }

  lemma UnitStarts(p: Piece, rest: string)
    requires p.Unit?
    ensures var s := PieceText(p, rest);
            |s| >= 2 && s[0] == '\\' && s[1] == 'u' && UnescapeChar(s) == UnescapeUnit(s)
  {
    hide UnescapeUnit;
  }

  lemma PieceIsRead(pieces: seq<Piece>, end: string)
    requires ArePieces(pieces) && pieces != [] && end != "" && end[0] == '"'
    requires !(|pieces| > 1 && IsUnitIn(pieces[0], 0xD800, 0xDC00) && IsUnitIn(pieces[1], 0xDC00, 0xE000))
    ensures var s := PiecesText(pieces, end);
            && s != "" && s[0] != '"'
            && UnescapeChar(s) == Done(PieceMeaning(pieces[0]), PiecesText(pieces[1..], end))
  {
    hide UnescapeChar, PieceMeaning;
    if pieces[0].Unit? { UnitPieceIsRead(pieces, end); } else { CharIsRead(pieces[0], PiecesText(pieces[1..], end)); }
  }

  lemma CharIsRead(p: Piece, more: string)
    requires IsPiece(p) && !p.Unit?
    ensures var s := PieceText(p, more);
            s != "" && s[0] != '"' && UnescapeChar(s) == Done(PieceMeaning(p), more)
  {
    hide UnescapeUnit, CodeUnit;
    var s := PieceText(p, more);
    match p
    case Plain(c) => assert s[0] == c && s[1..] == more;
    case Short(letter) => assert s[0] == '\\' && s[1] == letter && s[2..] == more; ShortIsRead(letter, s);
  }

  lemma UnitPieceIsRead(pieces: seq<Piece>, end: string)
    requires ArePieces(pieces) && pieces != [] && pieces[0].Unit? && end != "" && end[0] == '"'
    requires !(|pieces| > 1 && IsUnitIn(pieces[0], 0xD800, 0xDC00) && IsUnitIn(pieces[1], 0xDC00, 0xE000))
    ensures var s := PiecesText(pieces, end);
            && s != "" && s[0] != '"'
            && UnescapeChar(s) == Done(PieceMeaning(pieces[0]), PiecesText(pieces[1..], end))
  {
    hide CodeUnit, UnescapeChar, PieceText, UnitOf;
    var more := PiecesText(pieces[1..], end);
    UnitIsRead(pieces[0], more);
    UnitIsSmall(pieces[0]);
    UnitStarts(pieces[0], more);
    OnlyUnitsAreUnits(pieces[1..], end);
  }

  lemma ShortIsRead(letter: char, s: string)
    requires letter in SHORT && |s| >= 2 && s[0] == '\\' && s[1] == letter
    ensures UnescapeChar(s) == Done(SHORT[letter], s[2..])
  {
  }

  lemma {:induction false} StringIsWritten(s: string) returns (pieces: seq<Piece>)
    requires ParseString(s).Done?
    ensures ArePieces(pieces) && s == PiecesText(pieces, ['"'] + ParseString(s).rest)
    ensures Meant(pieces) == ParseString(s).value
    decreases |s|
  {
    hide UnescapeChar, CodeUnit, Meant, PieceText, IsPiece, UnitOf;
    if s[0] == '"' {
      pieces := [];
      NothingMeant();
      assert s == ['"'] + s[1..];
    } else {
      var end := ['"'] + ParseString(s).rest;
      var more := StringIsWritten(UnescapeChar(s).rest);
      var front := FrontIsWritten(s, more, end);
      pieces := front + more;
    }
  }

  lemma NothingMeant()
    ensures Meant([]) == ""
  {
  }

  // The piece, or the two pieces of a pair, that a character was written as.
  lemma FrontIsWritten(s: string, more: seq<Piece>, end: string) returns (front: seq<Piece>)
    requires s != "" && s[0] != '"' && UnescapeChar(s).Done? && end != "" && end[0] == '"'
    requires ArePieces(more) && UnescapeChar(s).rest == PiecesText(more, end)
    ensures ArePieces(front + more) && s == PiecesText(front + more, end)
    ensures Meant(front + more) == [UnescapeChar(s).value] + Meant(more)
  {
    hide UnescapeChar, CodeUnit, Meant, PieceText, IsPiece, UnitOf;
    var next := UnescapeChar(s).rest;
    if CodeUnit(s).Some? {
      UnitSteps(s);
      var p := UnitIsWritten(s);
      if next == s[6..] {
        front := [p];
        assert (front + more)[1..] == more && (front + more)[0] == p;
        LoneUnit(s, p, more, end);
      } else {
        var q := UnitIsWritten(s[6..]);
        front := [p, q];
        assert s[6..][6..] == s[12..];
        PairedUnits(s, p, q, more, end);
      }
    } else {
      var p := CharIsWritten(s);
      front := [p];
      assert (front + more)[1..] == more && (front + more)[0] == p;
      CharIsMeant(p, more);
    }
  }

  lemma UnitSteps(s: string)
    requires CodeUnit(s).Some? && UnescapeChar(s).Done?
    ensures s[1] == 'u' && UnescapeChar(s) == UnescapeUnit(s)
    ensures UnescapeChar(s).rest == s[6..] || (|s| >= 12 && CodeUnit(s[6..]).Some? && UnescapeChar(s).rest == s[12..])
  {
    hide HexValue;
  }

  lemma CharIsMeant(p: Piece, more: seq<Piece>)
    requires IsPiece(p) && !p.Unit? && ArePieces(more)
    ensures ArePieces([p] + more) && Meant([p] + more) == [PieceMeaning(p)] + Meant(more)
  {
    hide PieceMeaning;
    assert ([p] + more)[1..] == more;
  }

  lemma LoneUnit(s: string, p: Piece, more: seq<Piece>, end: string)
    requires p.Unit? && IsPiece(p) && ArePieces(more) && end != "" && end[0] == '"'
    requires CodeUnit(s) == Some(UnitOf(p)) && s[6..] == PiecesText(more, end)
    requires UnescapeChar(s).Done? && UnescapeChar(s).rest == s[6..]
    ensures ArePieces([p] + more) && Meant([p] + more) == [UnescapeChar(s).value] + Meant(more)
  {
    hide CodeUnit, UnescapeChar, UnitOf, PieceText;
    var pieces := [p] + more;
    OnlyUnitsAreUnits(more, end);
    assert pieces[1..] == more;
    assert more != [] ==> pieces[1] == more[0];
    UnitSteps(s);
    UnitIsSmall(p);
    assert |s| >= 12 ==> |s[12..]| < |s[6..]|;
    assert !(IsUnitIn(p, 0xD800, 0xDC00) && more != [] && IsUnitIn(more[0], 0xDC00, 0xE000));
  }

  lemma PairedUnits(s: string, p: Piece, q: Piece, more: seq<Piece>, end: string)
    requires p.Unit? && IsPiece(p) && q.Unit? && IsPiece(q) && ArePieces(more)
    requires CodeUnit(s) == Some(UnitOf(p)) && s == PieceText(p, s[6..])
    requires |s| >= 12 && CodeUnit(s[6..]) == Some(UnitOf(q)) && s[6..] == PieceText(q, s[12..])
    requires UnescapeChar(s).Done? && UnescapeChar(s).rest != s[6..] && UnescapeChar(s).rest == PiecesText(more, end)
    ensures ArePieces([p, q] + more) && Meant([p, q] + more) == [UnescapeChar(s).value] + Meant(more)
    ensures s == PiecesText([p, q] + more, end)
  {
    hide CodeUnit, UnescapeChar, UnitOf, PieceText;
    var pieces := [p, q] + more;
    assert pieces[0] == p && pieces[1] == q && pieces[2..] == more && pieces[1..] == [q] + more && ([q] + more)[1..] == more;
    UnitSteps(s);
    assert PiecesText(pieces[1..], end) == PieceText(q, PiecesText(more, end));
  }

  lemma CharIsWritten(s: string) returns (p: Piece)
    requires s != "" && s[0] != '"' && UnescapeChar(s).Done? && CodeUnit(s).None?
    ensures !p.Unit? && IsPiece(p) && s == PieceText(p, UnescapeChar(s).rest) && PieceMeaning(p) == UnescapeChar(s).value
  {
    if s[0] == '\\' {
      p := Short(s[1]);
      assert s == ['\\', s[1]] + s[2..];
      assert s[1] in SHORT;
      ShortIsRead(s[1], s);
    } else {
      p := Plain(s[0]);
      assert s == [s[0]] + s[1..];
    }
  }

  // ---- Numbers ----

  ghost predicate DigitsOnly(s: string) {
    forall i :: 0 <= i < |s| ==> IsDigit(s[i])
  }

  lemma DigitsAreDigits(s: string)
    ensures Digits(s) <==> s != "" && DigitsOnly(s)
  {
    forall c: char
      ensures c in "0123456789" <==> IsDigit(c)
    {
      DigitAgrees(c);
    }
  }

  lemma DigitAgrees(c: char)
    ensures c in "0123456789" <==> IsDigit(c)
  {
    if IsDigit(c) { assert "0123456789"[c as int - '0' as int] == c; }
  }

  function Behind(text: string, r: Parsed<string>): Parsed<string> {
    match r
    case Fail => Fail
    case Done(value, rest) => Done(text + value, rest)
  }

  predicate TakesDigits(state: NumberState) {
    state == Integer || state == Fraction || state == Power
  }

  lemma OneScanned(state: NumberState, c: char, rest: string)
    requires Next(state, c).Some?
    ensures ScanNumber(state, [c] + rest) == Behind([c], ScanNumber(Next(state, c).value, rest))
  {
    assert ([c] + rest)[0] == c && ([c] + rest)[1..] == rest;
  }

  lemma {:induction false} DigitsAreScanned(state: NumberState, digits: string, rest: string)
    requires TakesDigits(state) && DigitsOnly(digits)
    ensures ScanNumber(state, digits + rest) == Behind(digits, ScanNumber(state, rest))
    decreases |digits|
  {
    hide ScanNumber;
    var scanned := ScanNumber(state, rest);
    if digits == "" {
      assert digits + rest == rest;
      if scanned.Done? { assert digits + scanned.value == scanned.value; }
    } else {
      var more := digits[1..];
      assert digits + rest == [digits[0]] + (more + rest);
      OneScanned(state, digits[0], more + rest);
      DigitsAreScanned(state, more, rest);
      if scanned.Done? { assert [digits[0]] + (more + scanned.value) == digits + scanned.value; }
    }
  }

  // What one step of a successful scan does.
  lemma ScanStep(state: NumberState, s: string)
    requires ScanNumber(state, s).Done?
    ensures s != "" && Next(state, s[0]).Some? ==>
      && ScanNumber(Next(state, s[0]).value, s[1..]).Done?
      && ScanNumber(state, s).value == [s[0]] + ScanNumber(Next(state, s[0]).value, s[1..]).value
      && ScanNumber(state, s).rest == ScanNumber(Next(state, s[0]).value, s[1..]).rest
    ensures s == "" || Next(state, s[0]).None? ==>
      Accepts(state) && ScanNumber(state, s).value == "" && ScanNumber(state, s).rest == s
  {
  }

  lemma ScaleIsScanned(state: NumberState, scale: Option<Scale>, rest: string)
    requires (state == Zero || state == Integer || state == Fraction) && Stops(rest) && (scale.Some? ==> IsScale(scale.value))
    ensures ScanNumber(state, ScaleText(scale, rest)) == Done(ScaleText(scale, ""), rest)
  {
    hide ScanNumber, Digits, Stops;
    if scale.None? {
      ScanEnds(state, rest);
    } else {
      var Scale(letter, sign, digits) := scale.value;
      LetterIsScanned(state, letter, sign, digits, rest);
    }
  }

  lemma LetterIsScanned(state: NumberState, letter: char, sign: string, digits: string, rest: string)
    requires (state == Zero || state == Integer || state == Fraction) && Stops(rest) && IsScale(Scale(letter, sign, digits))
    ensures ScanNumber(state, [letter] + (sign + (digits + rest))) == Done([letter] + (sign + (digits + "")), rest)
  {
    hide ScanNumber, Digits, Stops;
    PowerIsScanned(sign, digits, rest);
    var tail := sign + (digits + rest);
    assert Next(state, letter) == Some(Exponent);
    OneScanned(state, letter, tail);
    assert digits + "" == digits;
  }

  lemma PowerIsScanned(sign: string, digits: string, rest: string)
    requires (sign == "" || sign == "+" || sign == "-") && Digits(digits) && Stops(rest)
    ensures ScanNumber(Exponent, sign + (digits + rest)) == Done(sign + digits, rest)
  {
    hide ScanNumber, Digits, Stops;
    PowerDigitsAreScanned(Exponent, digits, rest);
    PowerDigitsAreScanned(Sign, digits, rest);
    if sign == "" {
      assert "" + (digits + rest) == digits + rest && "" + digits == digits;
    } else {
      assert sign == [sign[0]];
      OneScanned(Exponent, sign[0], digits + rest);
    }
  }

  lemma PowerDigitsAreScanned(state: NumberState, digits: string, rest: string)
    requires (state == Exponent || state == Sign) && Digits(digits) && Stops(rest)
    ensures ScanNumber(state, digits + rest) == Done(digits, rest)
  {
    hide ScanNumber, Stops;
    DigitsAreDigits(digits);
    FirstAndRest(digits, rest);
    OneScanned(state, digits[0], digits[1..] + rest);
    ScanEnds(Power, rest);
    DigitsAreScanned(Power, digits[1..], rest);
    FirstAndRest(digits, "");
  }

  lemma FirstAndRest(s: string, more: string)
    requires s != ""
    ensures s + more == [s[0]] + (s[1..] + more)
    ensures more == "" ==> s + more == s && s[1..] + more == s[1..]
  {
  }

  lemma ScanEnds(state: NumberState, rest: string)
    requires Accepts(state) && Stops(rest)
    ensures ScanNumber(state, rest) == Done("", rest)
  {
  }

  lemma FractionIsScanned(state: NumberState, fraction: Option<string>, scale: Option<Scale>, rest: string)
    requires (state == Zero || state == Integer) && Stops(rest)
    requires (fraction.Some? ==> Digits(fraction.value)) && (scale.Some? ==> IsScale(scale.value))
    ensures ScanNumber(state, FractionText(fraction, ScaleText(scale, rest))) == Done(FractionText(fraction, ScaleText(scale, "")), rest)
  {
    hide ScanNumber, ScaleText;
    var tail := ScaleText(scale, rest);
    ScaleIsScanned(state, scale, rest);
    ScaleIsScanned(Fraction, scale, rest);
    if fraction.Some? {
      var digits := fraction.value;
      DigitsAreDigits(digits);
      OneScanned(state, '.', digits + tail);
      assert digits + tail == [digits[0]] + (digits[1..] + tail) && digits == [digits[0]] + digits[1..];
      OneScanned(Point, digits[0], digits[1..] + tail);
      DigitsAreScanned(Fraction, digits[1..], tail);
      assert [digits[0]] + (digits[1..] + ScaleText(scale, "")) == digits + ScaleText(scale, "");
    }
  }

  // A numeral is read to its end where nothing follows that could belong to it.
  lemma NumeralIsScanned(n: Numeral, rest: string)
    requires IsNumeral(n) && Stops(rest)
    ensures ScanNumber(Start, NumeralText(n, rest)) == Done(NumeralText(n, ""), rest)
  {
    hide ScanNumber, FractionText, ScaleText;
    var tail, end := FractionText(n.fraction, ScaleText(n.scale, rest)), FractionText(n.fraction, ScaleText(n.scale, ""));
    FractionIsScanned(Zero, n.fraction, n.scale, rest);
    FractionIsScanned(Integer, n.fraction, n.scale, rest);
    DigitsAreDigits(n.whole);
    var first, more := n.whole[0], n.whole[1..];
    assert n.whole + tail == [first] + (more + tail) && n.whole + end == [first] + (more + end);
    OneScanned(Start, first, more + tail);
    OneScanned(Minus, first, more + tail);
    OneScanned(Start, '-', n.whole + tail);
    if first == '0' {
      assert more + tail == tail && more + end == end;
    } else {
      DigitsAreScanned(Integer, more, tail);
    }
    if n.minus { assert "-" == ['-']; } else { assert "" + (n.whole + tail) == n.whole + tail && "" + (n.whole + end) == n.whole + end; }
  }

  lemma {:induction false} DigitRun(state: NumberState, s: string) returns (digits: string)
    requires TakesDigits(state)
    ensures DigitsOnly(digits) && |digits| <= |s| && s == digits + s[|digits|..]
    ensures s[|digits|..] == "" || !IsDigit(s[|digits|])
    decreases |s|
  {
    if s != "" && IsDigit(s[0]) {
      var more := DigitRun(state, s[1..]);
      digits := [s[0]] + more;
      assert s[1..][|more|..] == s[|digits|..];
      assert s == [s[0]] + s[1..];
    } else {
      digits := "";
    }
  }

  lemma PowerIsWritten(s: string) returns (digits: string)
    requires ScanNumber(Power, s).Done?
    ensures DigitsOnly(digits) && ScanNumber(Power, s).value == digits && s == digits + ScanNumber(Power, s).rest
  {
    digits := DigitRun(Power, s);
    DigitsAreScanned(Power, digits, s[|digits|..]);
    assert digits + "" == digits;
  }

  lemma SignedPowerIsWritten(t: string) returns (sign: string, digits: string)
    requires ScanNumber(Exponent, t).Done?
    ensures (sign == "" || sign == "+" || sign == "-") && Digits(digits)
    ensures ScanNumber(Exponent, t).value == sign + digits && t == sign + (digits + ScanNumber(Exponent, t).rest)
  {
    hide ScanNumber, Digits;
    ScanStep(Exponent, t);
    assert t == [t[0]] + t[1..];
    if t[0] == '+' || t[0] == '-' {
      var u := t[1..];
      ScanStep(Sign, u);
      assert u == [u[0]] + u[1..];
      var more := PowerIsWritten(u[1..]);
      sign, digits := [t[0]], [u[0]] + more;
      DigitsAreDigits(digits);
      assert digits + ScanNumber(Exponent, t).rest == u;
    } else {
      var more := PowerIsWritten(t[1..]);
      sign, digits := "", [t[0]] + more;
      DigitsAreDigits(digits);
      assert digits + ScanNumber(Exponent, t).rest == t && "" + digits == digits;
    }
  }

  lemma ScaleIsWritten(state: NumberState, s: string) returns (scale: Option<Scale>)
    requires ScanNumber(state, s).Done? && (state == Zero || state == Integer || state == Fraction)
    requires s != "" ==> (state != Zero ==> !IsDigit(s[0])) && (state != Fraction ==> s[0] != '.')
    ensures scale.Some? ==> IsScale(scale.value)
    ensures ScanNumber(state, s).value == ScaleText(scale, "") && s == ScaleText(scale, ScanNumber(state, s).rest)
  {
    hide ScanNumber, Digits;
    ScanStep(state, s);
    if s != "" && (s[0] == 'e' || s[0] == 'E') {
      var sign, digits := SignedPowerIsWritten(s[1..]);
      scale := Some(Scale(s[0], sign, digits));
      assert s == [s[0]] + s[1..] && digits + "" == digits;
    } else {
      scale := None;
    }
  }

  lemma FractionIsWritten(state: NumberState, s: string) returns (fraction: Option<string>, scale: Option<Scale>)
    requires ScanNumber(state, s).Done? && (state == Zero || state == Integer)
    requires s != "" ==> (state != Zero ==> !IsDigit(s[0]))
    ensures (scale.Some? ==> IsScale(scale.value)) && (fraction.Some? ==> Digits(fraction.value))
    ensures ScanNumber(state, s).value == FractionText(fraction, ScaleText(scale, ""))
    ensures s == FractionText(fraction, ScaleText(scale, ScanNumber(state, s).rest))
  {
    hide ScaleText, ScanNumber, Digits, IsScale;
    ScanStep(state, s);
    if s != "" && s[0] == '.' {
      var digits;
      digits, scale := PointIsWritten(s[1..]);
      fraction := Some(digits);
      assert s == [s[0]] + s[1..];
    } else {
      fraction := None;
      scale := ScaleIsWritten(state, s);
    }
  }

  lemma PointIsWritten(t: string) returns (digits: string, scale: Option<Scale>)
    requires ScanNumber(Point, t).Done?
    ensures Digits(digits) && (scale.Some? ==> IsScale(scale.value))
    ensures ScanNumber(Point, t).value == digits + ScaleText(scale, "")
    ensures t == digits + ScaleText(scale, ScanNumber(Point, t).rest)
  {
    hide ScaleText, ScanNumber, Digits, IsScale;
    ScanStep(Point, t);
    assert t == [t[0]] + t[1..];
    var more := DigitRun(Fraction, t[1..]);
    var u := t[1..][|more|..];
    digits := [t[0]] + more;
    DigitsAreScanned(Fraction, more, u);
    scale := ScaleIsWritten(Fraction, u);
    DigitsAreDigits(digits);
    assert t == digits + u;
    assert [t[0]] + (more + ScaleText(scale, "")) == digits + ScaleText(scale, "");
  }

  // What the number scanner reads is a numeral.
  lemma NumeralIsWritten(s: string) returns (n: Numeral)
    requires ScanNumber(Start, s).Done?
    ensures IsNumeral(n) && s == NumeralText(n, ScanNumber(Start, s).rest) && ScanNumber(Start, s).value == NumeralText(n, "")
  {
    hide FractionText, ScaleText, ScanNumber, Digits, IsScale;
    ScanStep(Start, s);
    var minus := s[0] == '-';
    var t := if minus then s[1..] else s;
    var state := if minus then Minus else Start;
    ScanStep(state, t);
    assert t == [t[0]] + t[1..];
    var whole, fraction, scale := WholeIsWritten(state, t);
    n := Numeral(minus, whole, fraction, scale);
    if minus { assert s == ['-'] + t; } else { assert "" + t == t && "" + ScanNumber(state, t).value == ScanNumber(state, t).value; }
  }

  lemma WholeIsWritten(state: NumberState, t: string) returns (whole: string, fraction: Option<string>, scale: Option<Scale>)
    requires (state == Start || state == Minus) && t != "" && IsDigit(t[0]) && ScanNumber(state, t).Done?
    ensures Digits(whole) && (whole[0] == '0' ==> |whole| == 1)
    ensures (scale.Some? ==> IsScale(scale.value)) && (fraction.Some? ==> Digits(fraction.value))
    ensures ScanNumber(state, t).value == whole + FractionText(fraction, ScaleText(scale, ""))
    ensures t == whole + FractionText(fraction, ScaleText(scale, ScanNumber(state, t).rest))
  {
    hide FractionText, ScaleText, Digits, ScanNumber, IsScale;
    ScanStep(state, t);
    FirstAndRest(t, "");
    if t[0] == '0' {
      whole := "0";
      fraction, scale := FractionIsWritten(Zero, t[1..]);
      DigitsAreDigits(whole);
      assert whole == [t[0]];
    } else {
      var more := DigitRun(Integer, t[1..]);
      fraction, scale := IntegerIsWritten(t[1..], more);
      whole := [t[0]] + more;
      DigitsAreDigits(whole);
      AppendIsAssociative([t[0]], more, FractionText(fraction, ScaleText(scale, "")));
      AppendIsAssociative([t[0]], more, FractionText(fraction, ScaleText(scale, ScanNumber(state, t).rest)));
    }
  }

  lemma IntegerIsWritten(t: string, digits: string) returns (fraction: Option<string>, scale: Option<Scale>)
    requires ScanNumber(Integer, t).Done?
    requires DigitsOnly(digits) && |digits| <= |t| && t == digits + t[|digits|..]
    requires t[|digits|..] == "" || !IsDigit(t[|digits|])
    ensures (scale.Some? ==> IsScale(scale.value)) && (fraction.Some? ==> Digits(fraction.value))
    ensures ScanNumber(Integer, t).value == digits + FractionText(fraction, ScaleText(scale, ""))
    ensures t == digits + FractionText(fraction, ScaleText(scale, ScanNumber(Integer, t).rest))
  {
    hide FractionText, ScaleText, Digits, ScanNumber, IsScale;
    DigitsAreScanned(Integer, digits, t[|digits|..]);
    fraction, scale := FractionIsWritten(Integer, t[|digits|..]);
  }

  // ---- Values: what is written is read ----

  lemma BlankBeforeValue(u: string, x: string, depth: nat)
    requires Blank(u)
    ensures ParseValue(u + x, depth) == ParseValue(x, depth)
    ensures ParseValue(SkipSpace(x), depth) == ParseValue(x, depth)
  {
    hide ParseString, ParseItems, ParseMembers, ParseNumber, ParseLiteral;
    SkipBlank(u, x);
    SkipTwice(x);
  }

  lemma BlankBeforeItems(x: string, depth: nat, read: seq<Json>)
    ensures ParseItems(SkipSpace(x), depth, read) == ParseItems(x, depth, read)
  {
    hide ParseValue;
    BlankBeforeValue("", x, depth);
  }

  lemma BlankBeforeMembers(u: string, x: string, depth: nat, read: map<string, Json>)
    requires Blank(u)
    ensures ParseMembers(SkipSpace(x), depth, read) == ParseMembers(x, depth, read)
    ensures ParseMembers(u + x, depth, read) == ParseMembers(x, depth, read)
  {
    hide ParseValue;
    SkipBlank(u, x);
    SkipTwice(x);
  }

  lemma BlankStops(u: string, c: char, rest: string)
    requires Blank(u) && !IsSpace(c) && !Continues(c)
    ensures Stops(u + ([c] + rest)) && SkipSpace(u + ([c] + rest)) == [c] + rest
  {
    SkipBlank(u, [c] + rest);
    if u != "" { assert (u + ([c] + rest))[0] == u[0]; } else { assert u + ([c] + rest) == [c] + rest; }
  }

  lemma NumeralStarts(n: Numeral, rest: string)
    requires IsNumeral(n)
    ensures NumeralText(n, rest) != "" && (NumeralText(n, rest)[0] == '-' || IsDigit(NumeralText(n, rest)[0]))
  {
    DigitsAreDigits(n.whole);
    var tail := FractionText(n.fraction, ScaleText(n.scale, rest));
    FirstAndRest(n.whole, tail);
    if n.minus { assert "-" == ['-']; } else { assert "" + (n.whole + tail) == n.whole + tail; }
  }

  lemma TreeStarts(t: Tree, depth: nat, rest: string)
    requires IsTree(t, depth)
    ensures var s := TreeText(t, rest);
            && s != "" && !IsSpace(s[0]) && s[0] != ']' && s[0] != '}' && SkipSpace(s) == s
            && (t.Number? ==> s[0] == '-' || IsDigit(s[0]))
  {
    match t
    case Number(numeral) => NumeralStarts(numeral, rest);
    case Word(word) => FirstAndRest(word, rest);
    case _ =>
  }

  lemma WordIsRead(word: string, depth: nat, rest: string)
    requires word == "null" || word == "true" || word == "false"
    ensures ParseValue(word + rest, depth) == Done(TreeMeaning(Word(word), depth), rest)
  {
    FirstAndRest(word, rest);
    assert (word + rest)[..|word|] == word && (word + rest)[|word|..] == rest;
  }

  lemma NumberIsRead(n: Numeral, depth: nat, rest: string)
    requires IsNumeral(n) && Stops(rest)
    ensures ParseValue(NumeralText(n, rest), depth) == Done(Num(NumeralText(n, "")), rest)
  {
    hide ScanNumber, NumeralText, ParseString, ParseItems, ParseMembers, ParseLiteral;
    NumeralStarts(n, rest);
    NumeralStarts(n, "");
    NumeralIsScanned(n, rest);
  }

  lemma CharsAreRead(pieces: seq<Piece>, depth: nat, rest: string)
    requires ArePieces(pieces)
    ensures ParseValue(['"'] + PiecesText(pieces, ['"'] + rest), depth) == Done(Str(Meant(pieces)), rest)
  {
    hide ParseString, ParseItems, ParseMembers, ParseNumber, ParseLiteral, PiecesText, Meant;
    TailOfCons('"', PiecesText(pieces, ['"'] + rest));
    StringIsRead(pieces, rest);
  }

  lemma OpenedIsRead(open: char, blank: string, x: string, depth: nat)
    requires depth > 0 && Blank(blank) && (open == '[' || open == '{')
    ensures var inner := SkipSpace(x); var s := [open] + (blank + x);
            && (open == '[' ==>
                  ParseValue(s, depth) == if inner != "" && inner[0] == ']' then Done(Arr([]), inner[1..]) else ParseItems(x, depth - 1, []))
            && (open == '{' ==>
                  ParseValue(s, depth) == if inner != "" && inner[0] == '}' then Done(Obj(map[]), inner[1..]) else ParseMembers(x, depth - 1, map[]))
  {
    hide ParseString, ParseItems, ParseMembers, ParseNumber, ParseLiteral;
    TailOfCons(open, blank + x);
    SkipBlank(blank, x);
    BlankBeforeItems(x, depth - 1, []);
    BlankBeforeMembers("", x, depth - 1, map[]);
  }

  // Whatever blanks stand where the grammar lets them, the decoder reads the value.
  lemma {:induction false} TreeIsRead(t: Tree, depth: nat, rest: string)
    requires IsTree(t, depth) && Stops(rest)
    ensures ParseValue(TreeText(t, rest), depth) == Done(TreeMeaning(t, depth), rest)
    decreases t
  {
    hide ParseValue, ParseItems, ParseMembers, NumeralText, PiecesText, Meant;
    match t
    case Word(word) => WordIsRead(word, depth, rest);
    case Number(numeral) => NumberIsRead(numeral, depth, rest);
    case Chars(pieces) => CharsAreRead(pieces, depth, rest);
    case NoItems(blank) =>
      OpenedIsRead('[', blank, [']'] + rest, depth);
      TailOfCons(']', rest);
    case Array(blank, items) =>
      OpenedIsRead('[', blank, ItemsText(items, rest), depth);
      ItemsStart(items, depth - 1, rest);
      ItemsAreRead(items, depth - 1, rest, []);
      assert [] + ItemsMeaning(items, depth - 1) == ItemsMeaning(items, depth - 1);
    case NoMembers(blank) =>
      OpenedIsRead('{', blank, ['}'] + rest, depth);
      TailOfCons('}', rest);
    case Object(blank, members) =>
      OpenedIsRead('{', blank, MembersText(members, rest), depth);
      MembersStart(members, depth - 1, rest);
      MembersAreRead(members, depth - 1, rest, map[]);
  }

  ghost function BehindItem(items: ItemList, rest: string): string {
    match items
    case LastItem(_, _, after) => after + ([']'] + rest)
    case MoreItems(_, _, after, more) => after + ([','] + ItemsText(more, rest))
  }

  lemma ItemsStart(items: ItemList, depth: nat, rest: string)
    requires AreItems(items, depth)
    ensures ItemsText(items, rest) == items.before + TreeText(items.value, BehindItem(items, rest))
    ensures var inner := SkipSpace(ItemsText(items, rest)); inner != "" && inner[0] != ']'
  {
    hide TreeText;
    var s := TreeText(items.value, BehindItem(items, rest));
    SkipBlank(items.before, s);
    TreeStarts(items.value, depth, BehindItem(items, rest));
  }

  lemma {:induction false} ItemsAreRead(items: ItemList, depth: nat, rest: string, read: seq<Json>)
    requires AreItems(items, depth)
    ensures ParseItems(ItemsText(items, rest), depth, read) == Done(Arr(read + ItemsMeaning(items, depth)), rest)
    decreases items
  {
    hide ParseValue, ParseItems, TreeText;
    ItemsStart(items, depth, rest);
    var v, behind := TreeMeaning(items.value, depth), BehindItem(items, rest);
    BlankStops(items.after, ']', rest);
    if items.MoreItems? {
      BlankStops(items.after, ',', ItemsText(items.rest, rest));
      TailOfCons(',', ItemsText(items.rest, rest));
    }
    TreeIsRead(items.value, depth, behind);
    BlankBeforeValue(items.before, TreeText(items.value, behind), depth);
    ItemIsRead(ItemsText(items, rest), depth, v, behind, read);
    TailOfCons(']', rest);
    if items.MoreItems? {
      ItemsAreRead(items.rest, depth, rest, read + [v]);
      AppendIsAssociative(read, [v], ItemsMeaning(items.rest, depth));
    } else {
      assert [v] + [] == [v];
    }
  }

  lemma ItemIsRead(text: string, depth: nat, v: Json, behind: string, read: seq<Json>)
    requires ParseValue(text, depth) == Done(v, behind) && SkipSpace(behind) != ""
    ensures var s := SkipSpace(behind);
            ParseItems(text, depth, read) ==
              if s[0] == ',' then ParseItems(s[1..], depth, read + [v])
              else if s[0] == ']' then Done(Arr(read + [v]), s[1..])
              else Fail
  {
    hide ParseValue;
  }

  ghost function BehindMember(members: MemberList, rest: string): string {
    members.after + (match members
      case LastMember(_, _, _, _, _) => ['}'] + rest
      case MoreMembers(_, _, _, _, _, more) => [','] + MembersText(more, rest))
  }

  ghost function BehindName(members: MemberList, rest: string): string {
    members.colon.0 + ([':'] + (members.colon.1 + TreeText(members.value, BehindMember(members, rest))))
  }

  lemma MembersStart(members: MemberList, depth: nat, rest: string)
    requires AreMembers(members, depth)
    ensures var s := ['"'] + PiecesText(members.name, ['"'] + BehindName(members, rest));
            MembersText(members, rest) == members.before + s && SkipSpace(MembersText(members, rest)) == s
  {
    hide TreeText, PiecesText;
    SkipBlank(members.before, ['"'] + PiecesText(members.name, ['"'] + BehindName(members, rest)));
  }

  lemma {:induction false} MembersAreRead(members: MemberList, depth: nat, rest: string, read: map<string, Json>)
    requires AreMembers(members, depth)
    ensures ParseMembers(MembersText(members, rest), depth, read) == Done(Obj(MembersMeaning(members, depth, read)), rest)
    decreases members
  {
    hide ParseValue, ParseMembers, TreeText, PiecesText, Meant, MembersText;
    var v, behind := TreeMeaning(members.value, depth), BehindMember(members, rest);
    BlankStops(members.after, '}', rest);
    if members.MoreMembers? { BlankStops(members.after, ',', MembersText(members.rest, rest)); }
    TreeIsRead(members.value, depth, behind);
    FirstMemberIsRead(members, depth, rest, read, v, behind);
    if members.MoreMembers? {
      TailOfCons(',', MembersText(members.rest, rest));
      MembersAreRead(members.rest, depth, rest, read[Meant(members.name) := v]);
    } else {
      TailOfCons('}', rest);
    }
  }

  lemma FirstMemberIsRead(members: MemberList, depth: nat, rest: string, read: map<string, Json>, v: Json, behind: string)
    requires AreMembers(members, depth) && behind == BehindMember(members, rest) && SkipSpace(behind) != ""
    requires ParseValue(TreeText(members.value, behind), depth) == Done(v, behind)
    ensures var s := SkipSpace(behind);
            ParseMembers(MembersText(members, rest), depth, read) ==
              if s[0] == ',' then ParseMembers(s[1..], depth, read[Meant(members.name) := v])
              else if s[0] == '}' then Done(Obj(read[Meant(members.name) := v]), s[1..])
              else Fail
  {
    hide ParseValue, ParseMembers, TreeText, PiecesText, Meant, MembersText, BehindMember, IsTree, SkipSpace;
    MembersStart(members, depth, rest);
    var colon := members.colon.1 + TreeText(members.value, behind);
    StringIsRead(members.name, BehindName(members, rest));
    TailOfCons('"', PiecesText(members.name, ['"'] + BehindName(members, rest)));
    BlankStops(members.colon.0, ':', colon);
    TailOfCons(':', colon);
    BlankBeforeValue(members.colon.1, TreeText(members.value, behind), depth);
    MemberIsRead(MembersText(members, rest), depth, Meant(members.name), BehindName(members, rest), v, behind, read);
  }

  lemma MemberIsRead(text: string, depth: nat, name: string, after: string, v: Json, behind: string, read: map<string, Json>)
    requires SkipSpace(text) != "" && SkipSpace(text)[0] == '"' && ParseString(SkipSpace(text)[1..]) == Done(name, after)
    requires SkipSpace(after) != "" && SkipSpace(after)[0] == ':' && ParseValue(SkipSpace(after)[1..], depth) == Done(v, behind)
    requires SkipSpace(behind) != ""
    ensures var s := SkipSpace(behind);
            ParseMembers(text, depth, read) ==
              if s[0] == ',' then ParseMembers(s[1..], depth, read[name := v])
              else if s[0] == '}' then Done(Obj(read[name := v]), s[1..])
              else Fail
  {
    hide ParseValue, ParseString;
  }

  // ---- Values: what is read was written ----

  lemma {:induction false} ValueIsWritten(text: string, depth: nat) returns (u: string, t: Tree)
    requires ParseValue(text, depth).Done?
    ensures Blank(u) && IsTree(t, depth)
    ensures text == u + TreeText(t, ParseValue(text, depth).rest) && TreeMeaning(t, depth) == ParseValue(text, depth).value
    decreases |text|, 1
  {
    hide ParseValue, ParseItems, ParseMembers, TreeText;
    u := SkippedIsBlank(text);
    var s := SkipSpace(text);
    BlankBeforeValue("", text, depth);
    SkipTwice(text);
    var first := FirstOfValue(s, depth);
    if first == '{' || first == '[' {
      t := BracketIsWritten(s, depth);
    } else {
      t := ScalarIsWritten(s, depth);
    }
  }

  lemma FirstOfValue(s: string, depth: nat) returns (first: char)
    requires SkipSpace(s) == s && ParseValue(s, depth).Done?
    ensures s != "" && first == s[0]
    ensures first == '[' || first == '{' ==> depth > 0
  {
    hide ParseString, ParseItems, ParseMembers, ParseNumber, ParseLiteral;
    first := s[0];
  }

  lemma ScalarIsWritten(s: string, depth: nat) returns (t: Tree)
    requires SkipSpace(s) == s && s != "" && s[0] != '[' && s[0] != '{' && ParseValue(s, depth).Done?
    ensures IsTree(t, depth) && s == TreeText(t, ParseValue(s, depth).rest) && TreeMeaning(t, depth) == ParseValue(s, depth).value
  {
    hide ParseString, ParseItems, ParseMembers, ScanNumber, PiecesText, NumeralText, Meant;
    if s[0] == '"' {
      var pieces := StringIsWritten(s[1..]);
      t := Chars(pieces);
      FirstAndRest(s, "");
    } else if s[0] == 'n' || s[0] == 't' || s[0] == 'f' {
      t := WordIsWritten(s, depth);
    } else {
      var n := NumeralIsWritten(s);
      t := Number(n);
    }
  }

  lemma WordIsWritten(s: string, depth: nat) returns (t: Tree)
    requires SkipSpace(s) == s && s != "" && (s[0] == 'n' || s[0] == 't' || s[0] == 'f') && ParseValue(s, depth).Done?
    ensures IsTree(t, depth) && s == TreeText(t, ParseValue(s, depth).rest) && TreeMeaning(t, depth) == ParseValue(s, depth).value
  {
    hide ParseString, ParseItems, ParseMembers, ParseNumber;
    var word := if s[0] == 'n' then "null" else if s[0] == 't' then "true" else "false";
    t := Word(word);
    assert s == s[..|word|] + s[|word|..];
  }

  lemma {:induction false} BracketIsWritten(s: string, depth: nat) returns (t: Tree)
    requires SkipSpace(s) == s && s != "" && (s[0] == '[' || s[0] == '{') && depth > 0 && ParseValue(s, depth).Done?
    ensures IsTree(t, depth) && s == TreeText(t, ParseValue(s, depth).rest) && TreeMeaning(t, depth) == ParseValue(s, depth).value
    decreases |s|, 0
  {
    hide ParseString, ParseItems, ParseMembers, ParseNumber, ParseLiteral, ItemsText, MembersText;
    var blank := SkippedIsBlank(s[1..]);
    var inner := SkipSpace(s[1..]);
    FirstAndRest(s, "");
    if s[0] == '[' {
      if inner != "" && inner[0] == ']' {
        t := NoItems(blank);
        FirstAndRest(inner, "");
      } else {
        var items := ItemsAreWritten(inner, depth - 1, []);
        t := Array(blank, items);
        assert [] + ItemsMeaning(items, depth - 1) == ItemsMeaning(items, depth - 1);
      }
    } else {
      if inner != "" && inner[0] == '}' {
        t := NoMembers(blank);
        FirstAndRest(inner, "");
      } else {
        var members := MembersAreWritten(inner, depth - 1, map[]);
        t := Object(blank, members);
      }
    }
  }

  lemma {:induction false} ItemsAreWritten(text: string, depth: nat, read: seq<Json>) returns (items: ItemList)
    requires ParseItems(text, depth, read).Done?
    ensures AreItems(items, depth) && text == ItemsText(items, ParseItems(text, depth, read).rest)
    ensures ParseItems(text, depth, read).value == Arr(read + ItemsMeaning(items, depth))
    decreases |text|, 2
  {
    hide ParseValue, ParseItems, TreeText;
    ItemsStep(text, depth, read);
    var u, t := ValueIsWritten(text, depth);
    var Done(v, behind) := ParseValue(text, depth);
    var after := SkippedIsBlank(behind);
    var s := SkipSpace(behind);
    FirstAndRest(s, "");
    if s[0] == ',' {
      var more := ItemsAreWritten(s[1..], depth, read + [v]);
      items := MoreItems(u, t, after, more);
      AppendIsAssociative(read, [v], ItemsMeaning(more, depth));
    } else {
      items := LastItem(u, t, after);
      assert [v] + [] == [v];
    }
  }

  lemma ItemsStep(text: string, depth: nat, read: seq<Json>)
    requires ParseItems(text, depth, read).Done?
    ensures ParseValue(text, depth).Done? && SkipSpace(ParseValue(text, depth).rest) != ""
    ensures var Done(v, behind) := ParseValue(text, depth); var s := SkipSpace(behind);
            && |s| <= |behind| < |text|
            && (s[0] == ',' || s[0] == ']')
            && ParseItems(text, depth, read) ==
                 if s[0] == ',' then ParseItems(s[1..], depth, read + [v]) else Done(Arr(read + [v]), s[1..])
  {
    hide ParseValue;
  }

  lemma {:induction false} MembersAreWritten(text: string, depth: nat, read: map<string, Json>) returns (members: MemberList)
    requires ParseMembers(text, depth, read).Done?
    ensures AreMembers(members, depth) && text == MembersText(members, ParseMembers(text, depth, read).rest)
    ensures ParseMembers(text, depth, read).value == Obj(MembersMeaning(members, depth, read))
    decreases |text|, 2
  {
    hide ParseValue, ParseMembers, ParseString, TreeText, PiecesText, Meant;
    MembersStep(text, depth, read);
    var before := SkippedIsBlank(text);
    var open := SkipSpace(text);
    FirstAndRest(open, "");
    var name := StringIsWritten(open[1..]);
    var after := ParseString(open[1..]).rest;
    var c0 := SkippedIsBlank(after);
    var colon := SkipSpace(after);
    FirstAndRest(colon, "");
    var c1, t := ValueIsWritten(colon[1..], depth);
    var Done(v, behind) := ParseValue(colon[1..], depth);
    var end := SkippedIsBlank(behind);
    var s := SkipSpace(behind);
    FirstAndRest(s, "");
    if s[0] == ',' {
      var more := MembersAreWritten(s[1..], depth, read[Meant(name) := v]);
      members := MoreMembers(before, name, (c0, c1), t, end, more);
    } else {
      members := LastMember(before, name, (c0, c1), t, end);
    }
  }

  lemma MembersStep(text: string, depth: nat, read: map<string, Json>)
    requires ParseMembers(text, depth, read).Done?
    ensures var open := SkipSpace(text);
            && open != "" && open[0] == '"' && |open| <= |text| && ParseString(open[1..]).Done?
            && var Done(name, after) := ParseString(open[1..]);
               var colon := SkipSpace(after);
               && colon != "" && colon[0] == ':' && |colon| <= |after| < |text| && ParseValue(colon[1..], depth).Done?
               && var Done(v, behind) := ParseValue(colon[1..], depth);
                  var s := SkipSpace(behind);
                  && s != "" && |s| <= |behind| < |text| && (s[0] == ',' || s[0] == '}')
                  && ParseMembers(text, depth, read) ==
                       if s[0] == ',' then ParseMembers(s[1..], depth, read[name := v]) else Done(Obj(read[name := v]), s[1..])
  {
    hide ParseValue, ParseString;
  }

  // ---- Main results ----

  // A text of the grammar, nesting at most 10000 deep, and its value.
  ghost predicate Denotes(raw: string, v: Json) {
    exists u, t, w :: (
      Blank(u) && Blank(w) && IsTree(t, 10000) && raw == u + TreeText(t, w) && TreeMeaning(t, 10000) == v)
  }

  // The decoder accepts exactly the texts of the grammar and reads what they mean.
  lemma DecodesExactlyWhen(raw: string, v: Json)
    ensures ParseSingle(raw) == Ok(v) <==> Denotes(raw, v)
  {
    hide ParseValue, TreeText, TreeMeaning, IsTree;
    if ParseSingle(raw) == Ok(v) {
      var u, t := ValueIsWritten(raw, MAX_NESTING);
      BlankExactlyWhen(ParseValue(raw, MAX_NESTING).rest);
    }
    if u, t, w :| Blank(u) && Blank(w) && IsTree(t, 10000) && raw == u + TreeText(t, w) && TreeMeaning(t, 10000) == v {
      TextDecodes(u, t, w);
    }
  }

  lemma TextDecodes(u: string, t: Tree, w: string)
    requires Blank(u) && Blank(w) && IsTree(t, 10000)
    ensures ParseSingle(u + TreeText(t, w)) == Ok(TreeMeaning(t, 10000))
  {
    hide ParseValue, TreeText, TreeMeaning, IsTree;
    TreeIsRead(t, MAX_NESTING, w);
    TreeStarts(t, MAX_NESTING, w);
    SkipBlank(u, TreeText(t, w));
    BlankBeforeValue(u, TreeText(t, w), MAX_NESTING);
    BlankExactlyWhen(w);
  }

  // The executor finds two payloads equal exactly when both are texts of the grammar for one value.
  lemma EqualExactlyWhenOneValue(observed: string, desired: string)
    ensures EqualJson(observed, desired) == Equal <==> exists v :: Denotes(observed, v) && Denotes(desired, v)
    ensures EqualJson(observed, desired).Invalid? <==> !exists v, w :: Denotes(observed, v) && Denotes(desired, w)
  {
    hide ParseSingle, Denotes;
    forall v
      ensures Denotes(observed, v) <==> ParseSingle(observed) == Ok(v)
      ensures Denotes(desired, v) <==> ParseSingle(desired) == Ok(v)
    {
      DecodesExactlyWhen(observed, v);
      DecodesExactlyWhen(desired, v);
    }
  }

  // There is nothing to decode exactly where all is blank.
  lemma EmptyExactlyWhen(raw: string)
    ensures ParseSingle(raw) == Err(Empty) <==> Blank(raw)
  {
    BlankExactlyWhen(raw);
  }

  // Blanks before and after an accepted text change nothing.
  lemma BlanksAroundChangeNothing(u: string, raw: string, w: string)
    requires Blank(u) && Blank(w) && ParseSingle(raw).Ok?
    ensures ParseSingle((u + raw) + w) == ParseSingle(raw)
  {
    hide ParseSingle, TreeText, TreeMeaning, IsTree, Blank;
    var v := ParseSingle(raw).value;
    DecodesExactlyWhen(raw, v);
    var a, t, b :| Blank(a) && Blank(b) && IsTree(t, 10000) && raw == a + TreeText(t, b) && TreeMeaning(t, 10000) == v;
    TreeTextExtends(t, b, w);
    BlanksAddUp(u, a);
    BlanksAddUp(b, w);
    assert (u + raw) + w == (u + a) + (TreeText(t, b) + w);
    TextDecodes(u + a, t, b + w);
  }

  // The texts of the grammar have no say in what follows them.
  lemma {:induction false} TreeTextExtends(t: Tree, rest: string, more: string)
    ensures TreeText(t, rest) + more == TreeText(t, rest + more)
    decreases t
  {
    hide NumeralText, PiecesText, ItemsText, MembersText;
    match t
    case Word(word) => AppendIsAssociative(word, rest, more);
    case Number(numeral) => NumeralTextExtends(numeral, rest, more);
    case Chars(pieces) =>
      PiecesTextExtends(pieces, ['"'] + rest, more);
      AppendIsAssociative(['"'], rest, more);
      AppendIsAssociative(['"'], PiecesText(pieces, ['"'] + rest), more);
    case NoItems(blank) => FourExtend(['['], blank, [']'], rest, more);
    case NoMembers(blank) => FourExtend(['{'], blank, ['}'], rest, more);
    case Array(blank, items) =>
      ItemsTextExtends(items, rest, more);
      AppendIsAssociative(['['], blank + ItemsText(items, rest), more);
      AppendIsAssociative(blank, ItemsText(items, rest), more);
    case Object(blank, members) =>
      MembersTextExtends(members, rest, more);
      AppendIsAssociative(['{'], blank + MembersText(members, rest), more);
      AppendIsAssociative(blank, MembersText(members, rest), more);
  }

  lemma FourExtend(a: string, b: string, c: string, rest: string, more: string)
    ensures (a + (b + (c + rest))) + more == a + (b + (c + (rest + more)))
    ensures (b + (c + rest)) + more == b + (c + (rest + more))
  {
    AppendIsAssociative(a, b + (c + rest), more);
    AppendIsAssociative(b, c + rest, more);
    AppendIsAssociative(c, rest, more);
  }

  lemma NumeralTextExtends(n: Numeral, rest: string, more: string)
    ensures NumeralText(n, rest) + more == NumeralText(n, rest + more)
  {
    var scale, tail := ScaleText(n.scale, rest), FractionText(n.fraction, ScaleText(n.scale, rest));
    if n.scale.Some? { FourExtend([n.scale.value.letter], n.scale.value.sign, n.scale.value.digits, rest, more); }
    if n.fraction.Some? { FourExtend([], ['.'], n.fraction.value, scale, more); }
    FourExtend([], if n.minus then "-" else "", n.whole, tail, more);
  }

  lemma {:induction false} PiecesTextExtends(pieces: seq<Piece>, rest: string, more: string)
    ensures PiecesText(pieces, rest) + more == PiecesText(pieces, rest + more)
    decreases |pieces|
  {
    if pieces != [] {
      PiecesTextExtends(pieces[1..], rest, more);
      PieceTextExtends(pieces[0], PiecesText(pieces[1..], rest), more);
    }
  }

  lemma PieceTextExtends(p: Piece, rest: string, more: string)
    ensures PieceText(p, rest) + more == PieceText(p, rest + more)
  {
    match p
    case Plain(c) => AppendIsAssociative([c], rest, more);
    case Short(letter) => AppendIsAssociative(['\\', letter], rest, more);
    case Unit(digits, _) => FourExtend([], ['\\', 'u'], digits, rest, more);
  }

  lemma {:induction false} ItemsTextExtends(items: ItemList, rest: string, more: string)
    ensures ItemsText(items, rest) + more == ItemsText(items, rest + more)
    decreases items
  {
    hide TreeText;
    var behind := BehindItem(items, rest);
    AppendIsAssociative(items.before, TreeText(items.value, behind), more);
    TreeTextExtends(items.value, behind, more);
    match items
    case LastItem(_, _, after) => FourExtend([], after, [']'], rest, more);
    case MoreItems(_, _, after, others) =>
      ItemsTextExtends(others, rest, more);
      FourExtend([], after, [','], ItemsText(others, rest), more);
  }

  lemma {:induction false} MembersTextExtends(members: MemberList, rest: string, more: string)
    ensures MembersText(members, rest) + more == MembersText(members, rest + more)
    decreases members, 1
  {
    hide TreeText, PiecesText;
    var behind, name := BehindMember(members, rest), BehindName(members, rest);
    BehindMemberExtends(members, rest, more);
    TreeTextExtends(members.value, behind, more);
    FourExtend(members.colon.0, [':'], members.colon.1, TreeText(members.value, behind), more);
    PiecesTextExtends(members.name, ['"'] + name, more);
    AppendIsAssociative(['"'], name, more);
    FourExtend([], members.before, ['"'], PiecesText(members.name, ['"'] + name), more);
    MembersTextIs(members, rest);
    MembersTextIs(members, rest + more);
  }

  lemma MembersTextIs(members: MemberList, rest: string)
    ensures MembersText(members, rest) == members.before + (['"'] + PiecesText(members.name, ['"'] + BehindName(members, rest)))
  {
    hide TreeText, PiecesText;
  }

  lemma {:induction false} BehindMemberExtends(members: MemberList, rest: string, more: string)
    ensures BehindMember(members, rest) + more == BehindMember(members, rest + more)
    decreases members, 0
  {
    hide MembersText;
    match members
    case LastMember(_, _, _, _, after) => FourExtend([], after, ['}'], rest, more);
    case MoreMembers(_, _, _, _, after, others) =>
      MembersTextExtends(others, rest, more);
      FourExtend([], after, [','], MembersText(others, rest), more);
  }

  lemma BlanksAddUp(a: string, b: string)
    requires Blank(a) && Blank(b)
    ensures Blank(a + b)
  {
  }
}
