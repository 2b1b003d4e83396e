/**
 JSON documents as derivations of RFC 8259's grammar, restricted to integers: what a derivation's text
 is and what it means, independently of how a parser finds it.
 */
module JsonSyntax {
  import opened Prelude
  import opened Utf
  import opened JsonValue
  import opened JsonGrammar

  // ---------------------------------------------------------------- strings

  const LOWER: Bytes := [48, 49, 50, 51, 52, 53, 54, 55, 56, 57, 97, 98, 99, 100, 101, 102]
  const UPPER: Bytes := [48, 49, 50, 51, 52, 53, 54, 55, 56, 57, 65, 66, 67, 68, 69, 70]

  /** A hexadecimal digit in either case. */
  datatype Hex = Hex(digit: nat, upper: bool)

  predicate HexOk(h: Hex) { h.digit < 16 }

  function HexText(h: Hex): byte
    requires HexOk(h)
  {
    if h.upper then UPPER[h.digit] else LOWER[h.digit]
  }

  /** Four digits of a \u escape. */
  datatype Quad = Quad(a: Hex, b: Hex, c: Hex, d: Hex)

  predicate QuadOk(q: Quad) { HexOk(q.a) && HexOk(q.b) && HexOk(q.c) && HexOk(q.d) }

  function QuadText(q: Quad): Bytes
    requires QuadOk(q)
  {
    [HexText(q.a), HexText(q.b), HexText(q.c), HexText(q.d)]
  }

  function QuadValue(q: Quad): nat { q.a.digit * 4096 + q.b.digit * 256 + q.c.digit * 16 + q.d.digit }

  /** The escape letters and the bytes they stand for: quote, backslash, slash, b, f, n, r, t. */
  const LETTERS: Bytes := [34, 92, 47, 98, 102, 110, 114, 116]
  const MEANINGS: Bytes := [34, 92, 47, 8, 12, 10, 13, 9]

  /** What a string is made of. */
  datatype Piece = Plain(b: byte) | Letter(k: nat) | Unit(q: Quad) | Pair(high: Quad, low: Quad)

  predicate PieceOk(p: Piece) {
    match p
    case Plain(b) => b >= 32 && b != 34 && b != 92
    case Letter(k) => k < 8
    case Unit(q) => QuadOk(q) && !(0xD800 <= QuadValue(q) <= 0xDFFF)
    case Pair(high, low) =>
      QuadOk(high) && QuadOk(low) && 0xD800 <= QuadValue(high) <= 0xDBFF && 0xDC00 <= QuadValue(low) <= 0xDFFF
  }

  function PieceText(p: Piece): (r: Bytes)
    requires PieceOk(p)
    ensures |r| > 0
  {
    match p
    case Plain(b) => [b]
    case Letter(k) => [92, LETTERS[k]]
    case Unit(q) => [92, 117] + QuadText(q)
    case Pair(high, low) => [92, 117] + QuadText(high) + ([92, 117] + QuadText(low))
  }

  /** The scalar value of an escape. */
  function ScalarOf(p: Piece): (cp: nat)
    requires PieceOk(p) && (p.Unit? || p.Pair?)
    ensures IsScalar(cp)
  {
    if p.Unit? then QuadValue(p.q)
    else 0x10000 + (QuadValue(p.high) - 0xD800) * 1024 + (QuadValue(p.low) - 0xDC00)
  }

  function PieceBytes(p: Piece): Bytes
    requires PieceOk(p)
  {
    match p
    case Plain(b) => [b]
    case Letter(k) => [MEANINGS[k]]
    case _ => EncodeIs(ScalarOf(p)); Encode(ScalarOf(p)).value
  }

  predicate PiecesOk(ps: seq<Piece>) { forall k :: 0 <= k < |ps| ==> PieceOk(ps[k]) }

  function PiecesText(ps: seq<Piece>): Bytes
    requires PiecesOk(ps)
  {
    if ps == [] then [] else PieceText(ps[0]) + PiecesText(ps[1..])
  }

  function PiecesBytes(ps: seq<Piece>): Bytes
    requires PiecesOk(ps)
  {
    if ps == [] then [] else PieceBytes(ps[0]) + PiecesBytes(ps[1..])
  }

  /** The pieces of a string that is well-formed UTF-8 once its escapes are replaced. */
  predicate StringOk(ps: seq<Piece>) { PiecesOk(ps) && WellFormed(PiecesBytes(ps)) }

  // ---------------------------------------------------------------- values

  datatype Tree =
    | NullTree | TrueTree | FalseTree
    | NumberTree(negative: bool, digits: Bytes)
    | StringTree(pieces: seq<Piece>)
    | EmptyArray(space: Bytes)
    | ArrayTree(space: Bytes, items: Items)
    | EmptyObject(space: Bytes)
    | ObjectTree(space: Bytes, members: Members)

  datatype Items =
    | LastItem(item: Tree, after: Bytes)
    | MoreItems(item: Tree, after: Bytes, before: Bytes, rest: Items)

  datatype Member = Member(name: seq<Piece>, beforeColon: Bytes, afterColon: Bytes, value: Tree)

  datatype Members =
    | LastMember(member: Member, after: Bytes)
    | MoreMembers(member: Member, after: Bytes, before: Bytes, rest: Members)

  /** Only space, tab, line feed and carriage return. */
  predicate Space(s: Bytes) { forall k :: 0 <= k < |s| ==> s[k] == 32 || s[k] == 9 || s[k] == 10 || s[k] == 13 }

  predicate AreDigits(s: Bytes) { forall k :: 0 <= k < |s| ==> 48 <= s[k] <= 57 }

  /** Digits without a leading zero, within the 64-bit range of their sign. */
  predicate NumberOk(negative: bool, digits: Bytes) {
    && digits != [] && AreDigits(digits) && (digits[0] == 48 ==> |digits| == 1)
    && DecimalValue(digits) <= (if negative then 0x8000_0000_0000_0000 else U64_MAX)
  }

  function NumberText(negative: bool, digits: Bytes): Bytes { (if negative then [45] else []) + digits }

  ghost predicate TreeOk(t: Tree) {
    match t
    case NumberTree(negative, digits) => NumberOk(negative, digits)
    case StringTree(ps) => StringOk(ps)
    case EmptyArray(space) => Space(space)
    case ArrayTree(space, items) => Space(space) && ItemsOk(items)
    case EmptyObject(space) => Space(space)
    case ObjectTree(space, members) => Space(space) && MembersOk(members)
    case _ => true
  }

  ghost predicate ItemsOk(items: Items) {
    && TreeOk(items.item) && Space(items.after)
    && (items.MoreItems? ==> Space(items.before) && ItemsOk(items.rest))
  }

  ghost predicate MemberOk(m: Member) {
    StringOk(m.name) && Space(m.beforeColon) && Space(m.afterColon) && TreeOk(m.value)
  }

  /** No name occurs twice. */
  ghost predicate MembersOk(members: Members) {
    && MemberOk(members.member) && Space(members.after)
    && (members.MoreMembers? ==>
          && Space(members.before) && MembersOk(members.rest)
          && !Names(members.rest, PiecesBytes(members.member.name)))
  }

  /** Some member has this name. */
  ghost predicate Names(members: Members, name: Bytes) {
    || (PiecesOk(members.member.name) && PiecesBytes(members.member.name) == name)
    || (members.MoreMembers? && Names(members.rest, name))
  }

  ghost function TreeText(t: Tree): Bytes
    requires TreeOk(t)
  {
    match t
    case NullTree => [110, 117, 108, 108]
    case TrueTree => [116, 114, 117, 101]
    case FalseTree => [102, 97, 108, 115, 101]
    case NumberTree(negative, digits) => NumberText(negative, digits)
    case StringTree(ps) => [34] + PiecesText(ps) + [34]
    case EmptyArray(space) => [91] + space + [93]
    case ArrayTree(space, items) => [91] + space + ArrayBody(items)
    case EmptyObject(space) => [123] + space + [125]
    case ObjectTree(space, members) => [123] + space + ObjectBody(members)
  }

  ghost function ArrayBody(items: Items): Bytes
    requires ItemsOk(items)
  {
    TreeText(items.item) + items.after
    + (if items.LastItem? then [93] else [44] + items.before + ArrayBody(items.rest))
  }

  ghost function MemberText(m: Member): Bytes
    requires MemberOk(m)
  {
    [34] + PiecesText(m.name) + [34] + m.beforeColon + [58] + m.afterColon + TreeText(m.value)
  }

  ghost function ObjectBody(members: Members): Bytes
    requires MembersOk(members)
  {
    MemberText(members.member) + members.after
    + (if members.LastMember? then [125] else [44] + members.before + ObjectBody(members.rest))
  }

  ghost function Meaning(t: Tree): Value
    requires TreeOk(t)
  {
    match t
    case NullTree => Null
    case TrueTree => Bool(true)
    case FalseTree => Bool(false)
    case NumberTree(negative, digits) =>
      var n := DecimalValue(digits);
      if negative then Number(SignedInteger, NumberText(true, digits), -(n as int))
      else Number(UnsignedInteger, NumberText(false, digits), n)
    case StringTree(ps) => Text(PiecesBytes(ps))
    case EmptyArray(_) => Array([])
    case ArrayTree(_, items) => Array(ItemsMeaning(items))
    case EmptyObject(_) => Object(map[])
    case ObjectTree(_, members) => Object(MembersMeaning(members))
  }

  ghost function ItemsMeaning(items: Items): seq<Value>
    requires ItemsOk(items)
  {
    [Meaning(items.item)] + (if items.LastItem? then [] else ItemsMeaning(items.rest))
  }

  ghost function MembersMeaning(members: Members): map<Bytes, Value>
    requires MembersOk(members)
  {
    assert MemberOk(members.member);
    map[PiecesBytes(members.member.name) := Meaning(members.member.value)]
    + (if members.LastMember? then map[] else MembersMeaning(members.rest))
  }

  lemma {:induction false} NamesAre(members: Members, name: Bytes)
    requires MembersOk(members)
    ensures name in MembersMeaning(members) <==> Names(members, name)
  {
    if members.MoreMembers? {
      NamesAre(members.rest, name);
    }
  }

  // ---------------------------------------------------------------- every derivation is parsed: strings

  lemma HexRead(h: Hex)
    requires HexOk(h)
    ensures HexDigit(HexText(h)) == Some(h.digit)
  {
  }

  lemma QuadRead(s: Bytes, i: nat, q: Quad)
    requires QuadOk(q) && At(s, i, QuadText(q))
    ensures Hex4(s, i) == Good(QuadValue(q), i + 4)
  {
    QuadAt(s, i, q);
    HexRead(q.a);
    HexRead(q.b);
    HexRead(q.c);
    HexRead(q.d);
    var a, b, c, d := q.a.digit, q.b.digit, q.c.digit, q.d.digit;
    hide HexDigit, At, HexText, QuadText;
    FoldRead(s, i, a, b, c, d);
    hide HexFold;
  }

  lemma QuadAt(s: Bytes, i: nat, q: Quad)
    requires QuadOk(q) && At(s, i, QuadText(q))
    ensures i + 4 <= |s| && s[i] == HexText(q.a) && s[i + 1] == HexText(q.b)
    ensures s[i + 2] == HexText(q.c) && s[i + 3] == HexText(q.d)
  {
    hide HexText;
    var text := QuadText(q);
    AtElements(s, i, text);
    assert s[i] == text[0] && s[i + 1] == text[1] && s[i + 2] == text[2] && s[i + 3] == text[3];
  }

  lemma FoldRead(s: Bytes, i: nat, a: nat, b: nat, c: nat, d: nat)
    requires i + 4 <= |s| && HexDigit(s[i]) == Some(a) && HexDigit(s[i + 1]) == Some(b)
    requires HexDigit(s[i + 2]) == Some(c) && HexDigit(s[i + 3]) == Some(d)
    ensures HexFold(s, i, i + 4, 0) == Some(a * 4096 + b * 256 + c * 16 + d)
  {
    hide HexDigit;
    assert HexFold(s, i + 3, i + 4, (a * 16 + b) * 16 + c) == Some(((a * 16 + b) * 16 + c) * 16 + d);
    assert HexFold(s, i + 2, i + 4, a * 16 + b) == HexFold(s, i + 3, i + 4, (a * 16 + b) * 16 + c);
    assert HexFold(s, i + 1, i + 4, a) == HexFold(s, i + 2, i + 4, a * 16 + b);
  }

  /** The escape \u and its digits lie at i. */
  lemma UnitAt(s: Bytes, i: nat, q: Quad)
    requires QuadOk(q) && At(s, i, [92, 117] + QuadText(q))
    ensures i + 6 <= |s| && s[i] == 92 && s[i + 1] == 117 && Hex4(s, i + 2) == Good(QuadValue(q), i + 6)
  {
    AtConcat(s, i, [92, 117], QuadText(q));
    AtElements(s, i, [92, 117]);
    hide Hex4, At;
    QuadRead(s, i + 2, q);
  }

  lemma EscapeRead(s: Bytes, i: nat, p: Piece)
    requires PieceOk(p) && (p.Unit? || p.Pair?) && At(s, i, PieceText(p))
    ensures i + |PieceText(p)| <= |s| && s[i] == 92 && s[i + 1] == 117
    ensures UnicodeEscape(s, i + 2) == Good(ScalarOf(p), i + |PieceText(p)|)
  {
    if p.Unit? {
      UnitAt(s, i, p.q);
    } else {
      AtConcat(s, i, [92, 117] + QuadText(p.high), [92, 117] + QuadText(p.low));
      UnitAt(s, i, p.high);
      UnitAt(s, i + 6, p.low);
    }
    hide Hex4, At, QuadText;
  }

  /** The string parser reads one piece. */
  lemma PieceRead(s: Bytes, i: nat, p: Piece, output: Bytes)
    requires PieceOk(p) && At(s, i, PieceText(p))
    ensures i <= |s| && i + |PieceText(p)| <= |s|
    ensures StringRest(s, i, output) == StringRest(s, i + |PieceText(p)|, output + PieceBytes(p))
  {
    match p
    case Plain(b) => AtHead(s, i, [b]);
    case Letter(k) =>
      AtElements(s, i, [92, LETTERS[k]]);
      assert s[i] == 92 && s[i + 1] == LETTERS[k];
      LetterRead(k);
      hide SimpleEscape, At;
    case _ =>
      EscapeRead(s, i, p);
      hide UnicodeEscape, At, PieceText, ScalarOf;
  }

  lemma LetterRead(k: nat)
    requires k < 8
    ensures SimpleEscape(LETTERS[k]) == Some(MEANINGS[k]) && LETTERS[k] != 117
  {
  }

  /** A whole string reads as its pieces' bytes. */
  lemma {:induction false} PiecesRead(s: Bytes, i: nat, ps: seq<Piece>, output: Bytes)
    requires PiecesOk(ps) && At(s, i, PiecesText(ps) + [34]) && WellFormed(output + PiecesBytes(ps))
    ensures StringRest(s, i, output) == Good(output + PiecesBytes(ps), i + |PiecesText(ps)| + 1)
    decreases |ps|
  {
    hide At, WellFormed, PieceText, PieceBytes, StringRest;
    if ps == [] {
      assert PiecesText(ps) + [34] == [34] && output + PiecesBytes(ps) == output;
      ClosingQuote(s, i, output);
    } else {
      Assoc(PieceText(ps[0]), PiecesText(ps[1..]), [34]);
      AtConcat(s, i, PieceText(ps[0]), PiecesText(ps[1..]) + [34]);
      PieceRead(s, i, ps[0], output);
      Assoc(output, PieceBytes(ps[0]), PiecesBytes(ps[1..]));
      PiecesRead(s, i + |PieceText(ps[0])|, ps[1..], output + PieceBytes(ps[0]));
    }
  }

  lemma ClosingQuote(s: Bytes, i: nat, t: Bytes)
    requires At(s, i, [34]) && WellFormed(t)
    ensures StringRest(s, i, t) == Good(t, i + 1)
  {
    AtHead(s, i, [34]);
  }

  lemma QuotedRead(s: Bytes, i: nat, ps: seq<Piece>)
    requires StringOk(ps) && At(s, i, [34] + PiecesText(ps) + [34])
    ensures i < |s| && s[i] == 34
    ensures StringRest(s, i + 1, []) == Good(PiecesBytes(ps), i + |PiecesText(ps)| + 2)
  {
    Assoc([34], PiecesText(ps), [34]);
    AtConcat(s, i, [34], PiecesText(ps) + [34]);
    AtHead(s, i, [34]);
    assert [] + PiecesBytes(ps) == PiecesBytes(ps);
    hide At, WellFormed, StringRest;
    PiecesRead(s, i + 1, ps, []);
  }

  // ---------------------------------------------------------------- every derivation is parsed: numbers

  /** What may follow a number. */
  predicate NumberEnds(s: Bytes, j: nat) {
    j < |s| ==> !IsDigit(s[j]) && s[j] != 46 && s[j] != 101 && s[j] != 69
  }

  lemma {:induction false} SkipDigitsTo(s: Bytes, i: nat, j: nat)
    requires i <= j <= |s| && (forall k :: i <= k < j ==> IsDigit(s[k])) && (j < |s| ==> !IsDigit(s[j]))
    ensures SkipDigits(s, i) == j
    decreases j - i
  {
    if i < j {
      SkipDigitsTo(s, i + 1, j);
    }
  }

  lemma DigitsRead(s: Bytes, i: nat, digits: Bytes)
    requires digits != [] && AreDigits(digits) && (digits[0] == 48 ==> |digits| == 1)
    requires At(s, i, digits) && NumberEnds(s, i + |digits|)
    ensures i < |s| && IntegerPart(s, i) == Good((), i + |digits|)
  {
    AtElements(s, i, digits);
    assert s[i] == digits[0];
    SkipDigitsTo(s, i, i + |digits|);
  }

  lemma NumberRead(s: Bytes, i: nat, negative: bool, digits: Bytes)
    requires NumberOk(negative, digits) && At(s, i, NumberText(negative, digits))
    requires NumberEnds(s, i + |NumberText(negative, digits)|)
    ensures ParseValue(s, i) == Good(Meaning(NumberTree(negative, digits)), i + |NumberText(negative, digits)|)
  {
    var sign := if negative then [45] else [];
    AtConcat(s, i, sign, digits);
    AtHead(s, i + |sign|, digits);
    if negative {
      AtHead(s, i, sign);
    }
    DigitsRead(s, i + |sign|, digits);
    assert s[i + |sign|..i + |NumberText(negative, digits)|] == digits;
    assert s[i..i + |NumberText(negative, digits)|] == NumberText(negative, digits);
    hide IntegerPart, At, DecimalValue, NumberText;
    ParsedNumber(s, i, negative, digits, i + |sign|, i + |NumberText(negative, digits)|);
  }

  lemma ParsedNumber(s: Bytes, i: nat, negative: bool, digits: Bytes, start: nat, end: nat)
    requires NumberOk(negative, digits) && i < |s| && start == (if negative then i + 1 else i) < end <= |s|
    requires (s[i] == 45 <==> negative) && (!negative ==> IsDigit(s[i]))
    requires IntegerPart(s, start) == Good((), end) && NumberEnds(s, end)
    requires s[start..end] == digits && s[i..end] == NumberText(negative, digits)
    ensures ParseValue(s, i) == Good(Meaning(NumberTree(negative, digits)), end)
  {
    hide IntegerPart, DecimalValue, NumberText;
    StartsNumber(s, i);
    hide ParseValue;
  }

  lemma StartsNumber(s: Bytes, i: nat)
    requires i < |s| && (s[i] == 45 || IsDigit(s[i]))
    ensures ParseValue(s, i) == ParseNumber(s, i)
  {
    hide ParseNumber;
  }

  // ---------------------------------------------------------------- every derivation is parsed: values

  lemma {:induction false} SpaceSkipped(s: Bytes, i: nat, space: Bytes)
    requires Space(space) && At(s, i, space) && (i + |space| < |s| ==> !IsSpace(s[i + |space|]))
    ensures SkipSpace(s, i) == i + |space|
    decreases |space|
  {
    if space != [] {
      AtHead(s, i, space);
      assert space == [space[0]] + space[1..];
      AtConcat(s, i, [space[0]], space[1..]);
      hide At;
      SpaceSkipped(s, i + 1, space[1..]);
    }
  }

  /** A value starts with a byte that is neither space nor closes anything. */
  lemma TreeHead(t: Tree)
    requires TreeOk(t)
    ensures var c := TreeText(t); |c| > 0 && !IsSpace(c[0]) && c[0] != 93 && c[0] != 125
  {
    hide ArrayBody, ObjectBody, PiecesText;
  }

  /** Space and a delimiter end a number. */
  lemma DelimiterEnds(s: Bytes, j: nat, after: Bytes)
    requires Space(after) && At(s, j, after) && j + |after| < |s|
    requires var d := s[j + |after|]; d == 44 || d == 93 || d == 125
    ensures NumberEnds(s, j) && SkipSpace(s, j) == j + |after|
  {
    SpaceSkipped(s, j, after);
    if after != [] {
      AtHead(s, j, after);
    }
  }

  /** How an element, the space after it and what follows lie in the text. */
  lemma ListAt(s: Bytes, i: nat, c: Bytes, after: Bytes, last: bool, close: byte, before: Bytes, rest: Bytes)
    requires At(s, i, c + after + (if last then [close] else [44] + before + rest))
    ensures var j := i + |c|;
            var k := j + |after|;
            && At(s, i, c) && At(s, j, after) && k < |s|
            && (last ==> s[k] == close)
            && (!last ==> s[k] == 44 && At(s, k + 1, before) && At(s, k + 1 + |before|, rest))
  {
    hide At;
    var tail := if last then [close] else [44] + before + rest;
    AtConcat(s, i, c + after, tail);
    AtConcat(s, i, c, after);
    var k := i + |c| + |after|;
    AtHead(s, k, tail);
    if !last {
      Assoc([44], before, rest);
      AtConcat(s, k, [44], before + rest);
      AtConcat(s, k + 1, before, rest);
    }
  }

  /** The parts of an array's items, and of its text and meaning. */
  lemma ItemsAre(items: Items)
    requires ItemsOk(items)
    ensures TreeOk(items.item) && Space(items.after)
    ensures items.MoreItems? ==> Space(items.before) && ItemsOk(items.rest)
    ensures ArrayBody(items) == TreeText(items.item) + items.after
      + (if items.LastItem? then [93] else [44] + items.before + ArrayBody(items.rest))
    ensures ItemsMeaning(items) == [Meaning(items.item)] + (if items.LastItem? then [] else ItemsMeaning(items.rest))
  {
    hide TreeText, TreeOk, Meaning, Space;
  }

  /** One step of the array reader. */
  lemma ArrayRead(s: Bytes, i: nat, done: seq<Value>, v: Value, j: nat, k: nat, next: nat)
    requires i <= |s| && ParseValue(s, i) == Good(v, j) && SkipSpace(s, j) == k < |s|
    requires s[k] == 44 ==> SkipSpace(s, k + 1) == next
    ensures s[k] == 93 ==> ArrayRest(s, i, done) == Good(Array(done + [v]), k + 1)
    ensures s[k] == 44 ==> ArrayRest(s, i, done) == ArrayRest(s, next, done + [v])
  {
    hide ParseValue, SkipSpace;
  }

  /** A derivation's text parses to its meaning. */
  lemma {:induction false} TreeRead(s: Bytes, i: nat, t: Tree)
    requires TreeOk(t) && At(s, i, TreeText(t)) && (t.NumberTree? ==> NumberEnds(s, i + |TreeText(t)|))
    ensures ParseValue(s, i) == Good(Meaning(t), i + |TreeText(t)|)
    decreases t, 1
  {
    hide At, NumberEnds, StringOk, NumberOk, ItemsOk, MembersOk, Space, ParseValue;
    match t
    case NumberTree(negative, digits) => NumberRead(s, i, negative, digits);
    case StringTree(ps) => StringRead(s, i, ps);
    case EmptyArray(_) => EmptyRead(s, i, t);
    case EmptyObject(_) => EmptyRead(s, i, t);
    case ArrayTree(space, items) =>
      hide TreeText, Meaning;
      ArrayOpens(s, i, space, items);
      ItemsRead(s, i + 1 + |space|, items, []);
      ArrayIs(space, items);
    case ObjectTree(space, members) =>
      hide TreeText, Meaning;
      ObjectOpens(s, i, space, members);
      MembersRead(s, i + 1 + |space|, members, map[]);
      ObjectIs(space, members);
    case _ => LiteralRead(s, i, t);
  }

  lemma ArrayIs(space: Bytes, items: Items)
    requires TreeOk(ArrayTree(space, items))
    ensures ItemsOk(items) && Space(space)
    ensures TreeText(ArrayTree(space, items)) == [91] + space + ArrayBody(items)
    ensures Meaning(ArrayTree(space, items)) == Array([] + ItemsMeaning(items))
  {
    hide ItemsOk, ArrayBody, Space;
    assert [] + ItemsMeaning(items) == ItemsMeaning(items);
  }

  lemma ObjectIs(space: Bytes, members: Members)
    requires TreeOk(ObjectTree(space, members))
    ensures MembersOk(members) && Space(space)
    ensures TreeText(ObjectTree(space, members)) == [123] + space + ObjectBody(members)
    ensures Meaning(ObjectTree(space, members)) == Object(map[] + MembersMeaning(members))
  {
    hide MembersOk, ObjectBody, Space;
    assert map[] + MembersMeaning(members) == MembersMeaning(members);
  }

  lemma ArrayOpens(s: Bytes, i: nat, space: Bytes, items: Items)
    requires TreeOk(ArrayTree(space, items)) && At(s, i, TreeText(ArrayTree(space, items)))
    ensures ItemsOk(items) && At(s, i + 1 + |space|, ArrayBody(items))
    ensures ParseValue(s, i) == ArrayRest(s, i + 1 + |space|, [])
  {
    hide At, ArrayBody, ItemsOk, TreeText, TreeOk, ArrayRest, ParseValue, Meaning, ItemsMeaning;
    ArrayIs(space, items);
    ItemsHead(items);
    Opened(s, i, 91, space, ArrayBody(items));
    SpaceSkipped(s, i + 1, space);
    OpensArray(s, i, i + 1 + |space|);
  }

  lemma OpensArray(s: Bytes, i: nat, j: nat)
    requires i < |s| && s[i] == 91 && SkipSpace(s, i + 1) == j < |s| && s[j] != 93
    ensures ParseValue(s, i) == ArrayRest(s, j, [])
  {
    hide SkipSpace, ArrayRest;
  }

  lemma OpensObject(s: Bytes, i: nat, j: nat)
    requires i < |s| && s[i] == 123 && SkipSpace(s, i + 1) == j < |s| && s[j] != 125
    ensures ParseValue(s, i) == ObjectRest(s, j, map[])
  {
    hide SkipSpace, ObjectRest;
  }

  lemma ObjectOpens(s: Bytes, i: nat, space: Bytes, members: Members)
    requires TreeOk(ObjectTree(space, members)) && At(s, i, TreeText(ObjectTree(space, members)))
    ensures MembersOk(members) && At(s, i + 1 + |space|, ObjectBody(members))
    ensures ParseValue(s, i) == ObjectRest(s, i + 1 + |space|, map[])
  {
    hide At, ObjectBody, MembersOk, TreeText, TreeOk, ObjectRest, ParseValue, Meaning, MembersMeaning, Names;
    ObjectIs(space, members);
    MembersHead(members);
    Opened(s, i, 123, space, ObjectBody(members));
    SpaceSkipped(s, i + 1, space);
    OpensObject(s, i, i + 1 + |space|);
  }

  lemma StringRead(s: Bytes, i: nat, ps: seq<Piece>)
    requires StringOk(ps) && At(s, i, TreeText(StringTree(ps)))
    ensures ParseValue(s, i) == Good(Meaning(StringTree(ps)), i + |TreeText(StringTree(ps))|)
  {
    hide At, StringRest, PiecesText, StringOk;
    QuotedRead(s, i, ps);
  }

  lemma LiteralRead(s: Bytes, i: nat, t: Tree)
    requires (t.NullTree? || t.TrueTree? || t.FalseTree?) && At(s, i, TreeText(t))
    ensures ParseValue(s, i) == Good(Meaning(t), i + |TreeText(t)|)
  {
    AtHead(s, i, TreeText(t));
  }

  /** An opening bracket, space, and what follows. */
  lemma Opened(s: Bytes, i: nat, open: byte, space: Bytes, rest: Bytes)
    requires rest != [] && At(s, i, [open] + space + rest)
    ensures i + 1 + |space| < |s| && s[i] == open && s[i + 1 + |space|] == rest[0]
    ensures At(s, i + 1, space) && At(s, i + 1 + |space|, rest)
  {
    Assoc([open], space, rest);
    AtConcat(s, i, [open], space + rest);
    AtConcat(s, i + 1, space, rest);
    AtHead(s, i, [open]);
    AtHead(s, i + 1 + |space|, rest);
  }

  lemma EmptyRead(s: Bytes, i: nat, t: Tree)
    requires (t.EmptyArray? || t.EmptyObject?) && TreeOk(t) && At(s, i, TreeText(t))
    ensures ParseValue(s, i) == Good(Meaning(t), i + |TreeText(t)|)
  {
    if t.EmptyArray? {
      Opened(s, i, 91, t.space, [93]);
    } else {
      Opened(s, i, 123, t.space, [125]);
    }
    hide At;
    SpaceSkipped(s, i + 1, t.space);
  }

  lemma ItemsHead(items: Items)
    requires ItemsOk(items)
    ensures var c := ArrayBody(items); |c| > 0 && !IsSpace(c[0]) && c[0] != 93
  {
    ItemsAre(items);
    TreeHead(items.item);
    hide TreeText, ArrayBody, ItemsOk;
  }

  /** Where an array's reader stops on its way through the items. */
  lemma ItemPlaces(s: Bytes, i: nat, items: Items)
    requires ItemsOk(items) && At(s, i, ArrayBody(items))
    ensures TreeOk(items.item) && (items.MoreItems? ==> ItemsOk(items.rest))
    ensures var j := i + |TreeText(items.item)|;
            var k := j + |items.after|;
            && At(s, i, TreeText(items.item)) && NumberEnds(s, j) && j <= |s| && SkipSpace(s, j) == k < |s|
            && (items.LastItem? ==> s[k] == 93 && i + |ArrayBody(items)| == k + 1)
            && (items.MoreItems? ==>
                  var next := k + 1 + |items.before|;
                  && s[k] == 44 && SkipSpace(s, k + 1) == next && At(s, next, ArrayBody(items.rest))
                  && i + |ArrayBody(items)| == next + |ArrayBody(items.rest)|)
  {
    hide At, ArrayBody, ItemsOk, ItemsMeaning, TreeText, TreeOk, Meaning, IsSpace, NumberEnds, Space, SkipSpace;
    ItemsAre(items);
    var c := TreeText(items.item);
    if items.LastItem? {
      ListAt(s, i, c, items.after, true, 93, [], []);
    } else {
      ListAt(s, i, c, items.after, false, 93, items.before, ArrayBody(items.rest));
      var k := i + |c| + |items.after|;
      ItemsHead(items.rest);
      AtHead(s, k + 1 + |items.before|, ArrayBody(items.rest));
      SpaceSkipped(s, k + 1, items.before);
    }
    DelimiterEnds(s, i + |c|, items.after);
  }

  lemma {:induction false} ItemsRead(s: Bytes, i: nat, items: Items, done: seq<Value>)
    requires ItemsOk(items) && At(s, i, ArrayBody(items))
    ensures ArrayRest(s, i, done) == Good(Array(done + ItemsMeaning(items)), i + |ArrayBody(items)|)
    decreases items, 0
  {
    hide At, ArrayBody, ItemsOk, ItemsMeaning, TreeText, TreeOk, Meaning, ParseValue, ArrayRest, NumberEnds, SkipSpace;
    ItemPlaces(s, i, items);
    ItemsAre(items);
    var v := Meaning(items.item);
    var j := i + |TreeText(items.item)|;
    var k := j + |items.after|;
    TreeRead(s, i, items.item);
    if items.LastItem? {
      ArrayRead(s, i, done, v, j, k, 0);
      assert [v] + [] == [v];
    } else {
      var next := k + 1 + |items.before|;
      ArrayRead(s, i, done, v, j, k, next);
      ItemsRead(s, next, items.rest, done + [v]);
      assert done + [v] + ItemsMeaning(items.rest) == done + ([v] + ItemsMeaning(items.rest));
    }
  }

  // ---------------------------------------------------------------- every derivation is parsed: objects

  /** The parts of an object's members, and of its text and meaning. */
  lemma MembersAre(members: Members)
    requires MembersOk(members)
    ensures MemberOk(members.member) && PiecesOk(members.member.name) && TreeOk(members.member.value)
    ensures Space(members.after) && Names(members, PiecesBytes(members.member.name))
    ensures members.MoreMembers? ==>
      && Space(members.before) && MembersOk(members.rest)
      && !Names(members.rest, PiecesBytes(members.member.name))
      && forall x :: Names(members.rest, x) ==> Names(members, x)
    ensures ObjectBody(members) == MemberText(members.member) + members.after
      + (if members.LastMember? then [125] else [44] + members.before + ObjectBody(members.rest))
    ensures MembersMeaning(members)
         == map[PiecesBytes(members.member.name) := Meaning(members.member.value)]
            + (if members.LastMember? then map[] else MembersMeaning(members.rest))
  {
    hide TreeText, TreeOk, Meaning, Space, PiecesText, PiecesBytes, WellFormed, PiecesOk, MemberText;
  }

  lemma MembersHead(members: Members)
    requires MembersOk(members)
    ensures var c := ObjectBody(members); |c| > 0 && c[0] == 34 && !IsSpace(c[0]) && c[0] != 125
  {
    MembersAre(members);
    hide ObjectBody, MembersOk, TreeText, TreeOk, PiecesText, StringOk, Names;
  }

  /** How one member lies in the text. */
  lemma MemberAt(s: Bytes, i: nat, m: Member)
    requires MemberOk(m) && At(s, i, MemberText(m))
    ensures PiecesOk(m.name)
    ensures var q := i + |PiecesText(m.name)| + 2;
            var c := q + |m.beforeColon|;
            var v := c + 1 + |m.afterColon|;
            && At(s, i, [34] + PiecesText(m.name) + [34]) && At(s, q, m.beforeColon) && c < |s| && s[c] == 58
            && At(s, c + 1, m.afterColon) && At(s, v, TreeText(m.value))
            && i + |MemberText(m)| == v + |TreeText(m.value)|
  {
    hide PiecesText, TreeText, TreeOk, WellFormed, At;
    var name, value := [34] + PiecesText(m.name) + [34], TreeText(m.value);
    var c := i + |name| + |m.beforeColon|;
    AtConcat(s, i, name + m.beforeColon + [58] + m.afterColon, value);
    AtConcat(s, i, name + m.beforeColon + [58], m.afterColon);
    AtConcat(s, i, name + m.beforeColon, [58]);
    AtConcat(s, i, name, m.beforeColon);
    AtHead(s, c, [58]);
  }

  lemma {:induction false} MemberRead(s: Bytes, i: nat, m: Member)
    requires MemberOk(m) && At(s, i, MemberText(m)) && NumberEnds(s, i + |MemberText(m)|)
    ensures ParseMember(s, i) == Good((PiecesBytes(m.name), Meaning(m.value)), i + |MemberText(m)|)
    decreases m, 2
  {
    hide At, MemberText, PiecesText, TreeText, NumberEnds, StringOk, PiecesOk, ParseValue, StringRest, TreeOk, Meaning,
      Space;
    MemberAt(s, i, m);
    var q := i + |PiecesText(m.name)| + 2;
    var c := q + |m.beforeColon|;
    var v := c + 1 + |m.afterColon|;
    QuotedRead(s, i, m.name);
    ColonSkips(s, q, m, c, v);
    hide SkipSpace;
    TreeRead(s, v, m.value);
  }

  lemma ColonSkips(s: Bytes, q: nat, m: Member, c: nat, v: nat)
    requires MemberOk(m) && At(s, q, m.beforeColon) && c == q + |m.beforeColon| < |s| && s[c] == 58
    requires At(s, c + 1, m.afterColon) && v == c + 1 + |m.afterColon| && At(s, v, TreeText(m.value))
    ensures SkipSpace(s, q) == c && SkipSpace(s, c + 1) == v
  {
    hide At, TreeText, TreeOk, StringOk;
    SpaceSkipped(s, q, m.beforeColon);
    TreeHead(m.value);
    AtHead(s, v, TreeText(m.value));
    SpaceSkipped(s, c + 1, m.afterColon);
  }

  lemma ObjectRead(s: Bytes, i: nat, done: map<Bytes, Value>, name: Bytes, v: Value, j: nat, k: nat, next: nat)
    requires i <= |s| && ParseMember(s, i) == Good((name, v), j) && name !in done && SkipSpace(s, j) == k < |s|
    requires s[k] == 44 ==> SkipSpace(s, k + 1) == next
    ensures s[k] == 125 ==> ObjectRest(s, i, done) == Good(Object(done[name := v]), k + 1)
    ensures s[k] == 44 ==> ObjectRest(s, i, done) == ObjectRest(s, next, done[name := v])
  {
    hide ParseMember, SkipSpace;
  }

  lemma {:induction false} MembersRead(s: Bytes, i: nat, members: Members, done: map<Bytes, Value>)
    requires MembersOk(members) && At(s, i, ObjectBody(members))
    requires forall name :: name in done ==> !Names(members, name)
    ensures ObjectRest(s, i, done) == Good(Object(done + MembersMeaning(members)), i + |ObjectBody(members)|)
    decreases members, 0
  {
    hide At, ObjectBody, MembersOk, MembersMeaning, MemberText, MemberOk, TreeOk, Meaning, ParseMember, ObjectRest,
      NumberEnds, PiecesBytes, PiecesOk, Names, SkipSpace;
    MemberPlaces(s, i, members);
    MembersAre(members);
    var name, v := PiecesBytes(members.member.name), Meaning(members.member.value);
    var j := i + |MemberText(members.member)|;
    var k := j + |members.after|;
    MemberRead(s, i, members.member);
    if members.LastMember? {
      ObjectRead(s, i, done, name, v, j, k, 0);
      assert done[name := v] == done + (map[name := v] + map[]);
    } else {
      var next := k + 1 + |members.before|;
      ObjectRead(s, i, done, name, v, j, k, next);
      MembersRead(s, next, members.rest, done[name := v]);
      assert done[name := v] + MembersMeaning(members.rest) == done + (map[name := v] + MembersMeaning(members.rest));
    }
  }

  /** Where an object's reader stops on its way through the members. */
  lemma MemberPlaces(s: Bytes, i: nat, members: Members)
    requires MembersOk(members) && At(s, i, ObjectBody(members))
    ensures MemberOk(members.member) && (members.MoreMembers? ==> MembersOk(members.rest))
    ensures var j := i + |MemberText(members.member)|;
            var k := j + |members.after|;
            && At(s, i, MemberText(members.member)) && NumberEnds(s, j) && j <= |s| && SkipSpace(s, j) == k < |s|
            && (members.LastMember? ==> s[k] == 125 && i + |ObjectBody(members)| == k + 1)
            && (members.MoreMembers? ==>
                  var next := k + 1 + |members.before|;
                  && s[k] == 44 && SkipSpace(s, k + 1) == next && At(s, next, ObjectBody(members.rest))
                  && i + |ObjectBody(members)| == next + |ObjectBody(members.rest)|)
  {
    hide At, ObjectBody, MembersOk, MembersMeaning, MemberText, MemberOk, TreeOk, Meaning, IsSpace, NumberEnds, Space,
      SkipSpace, Names, PiecesOk, PiecesBytes;
    MembersAre(members);
    var c := MemberText(members.member);
    if members.LastMember? {
      ListAt(s, i, c, members.after, true, 125, [], []);
    } else {
      ListAt(s, i, c, members.after, false, 125, members.before, ObjectBody(members.rest));
      var k := i + |c| + |members.after|;
      MembersHead(members.rest);
      AtHead(s, k + 1 + |members.before|, ObjectBody(members.rest));
      SpaceSkipped(s, k + 1, members.before);
    }
    DelimiterEnds(s, i + |c|, members.after);
  }
}
