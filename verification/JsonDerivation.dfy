/** The parser accepts exactly the texts of derivations, and answers what they mean. */
module JsonDerivation {
  import opened Prelude
  import opened Utf
  import opened JsonValue
  import opened JsonGrammar
  import opened JsonSyntax

  // ---------------------------------------------------------------- strings

  lemma HexFound(b: byte) returns (h: Hex)
    requires HexDigit(b).Some?
    ensures HexOk(h) && HexText(h) == b && h.digit == HexDigit(b).value
  {
    h := Hex(HexDigit(b).value, 65 <= b <= 70);
  }

  lemma QuadFound(s: Bytes, i: nat) returns (q: Quad)
    requires Hex4(s, i).Good?
    ensures QuadOk(q) && At(s, i, QuadText(q)) && QuadValue(q) == Hex4(s, i).value
  {
    DigitsFound(s, i);
    hide Hex4, HexFold;
    var a := HexFound(s[i]);
    var b := HexFound(s[i + 1]);
    var c := HexFound(s[i + 2]);
    var d := HexFound(s[i + 3]);
    q := Quad(a, b, c, d);
    hide HexDigit, HexText;
    assert s[i..i + 4] == [s[i], s[i + 1], s[i + 2], s[i + 3]];
  }

  lemma DigitsFound(s: Bytes, i: nat)
    requires Hex4(s, i).Good?
    ensures i + 4 <= |s| && HexDigit(s[i]).Some? && HexDigit(s[i + 1]).Some?
    ensures HexDigit(s[i + 2]).Some? && HexDigit(s[i + 3]).Some?
    ensures Hex4(s, i).value == HexDigit(s[i]).value * 4096 + HexDigit(s[i + 1]).value * 256
      + HexDigit(s[i + 2]).value * 16 + HexDigit(s[i + 3]).value
  {
    hide HexDigit;
    var a, b, c, d := HexDigit(s[i]), HexDigit(s[i + 1]), HexDigit(s[i + 2]), HexDigit(s[i + 3]);
    assert HexFold(s, i, i + 4, 0) == HexFold(s, i + 1, i + 4, a.value);
    assert HexFold(s, i + 1, i + 4, a.value) == HexFold(s, i + 2, i + 4, a.value * 16 + b.value);
    assert HexFold(s, i + 2, i + 4, a.value * 16 + b.value)
        == HexFold(s, i + 3, i + 4, (a.value * 16 + b.value) * 16 + c.value);
    FoldRead(s, i, a.value, b.value, c.value, d.value);
  }

  lemma UnitFound(s: Bytes, i: nat) returns (q: Quad)
    requires i + 2 <= |s| && s[i] == 92 && s[i + 1] == 117 && Hex4(s, i + 2).Good?
    ensures QuadOk(q) && At(s, i, [92, 117] + QuadText(q)) && QuadValue(q) == Hex4(s, i + 2).value
    ensures Hex4(s, i + 2).next == i + |[92, 117] + QuadText(q)|
  {
    q := QuadFound(s, i + 2);
    assert s[i..i + 2] == [92, 117];
    assert At(s, i, [92, 117]);
    AtConcat(s, i, [92, 117], QuadText(q));
  }

  lemma EscapeFound(s: Bytes, i: nat) returns (p: Piece)
    requires i + 2 <= |s| && s[i] == 92 && s[i + 1] == 117 && UnicodeEscape(s, i + 2).Good?
    ensures PieceOk(p) && (p.Unit? || p.Pair?) && At(s, i, PieceText(p))
    ensures UnicodeEscape(s, i + 2) == Good(ScalarOf(p), i + |PieceText(p)|)
  {
    hide At;
    Hex4Value(s, i + 2);
    var high := UnitFound(s, i);
    if 0xD800 <= QuadValue(high) <= 0xDBFF {
      var low := UnitFound(s, i + 6);
      p := Pair(high, low);
      AtConcat(s, i, [92, 117] + QuadText(high), [92, 117] + QuadText(low));
    } else {
      p := Unit(high);
    }
    hide Hex4, QuadText;
  }

  lemma LetterFound(b: byte) returns (k: nat)
    requires SimpleEscape(b).Some?
    ensures k < 8 && LETTERS[k] == b && SimpleEscape(b) == Some(MEANINGS[k])
  {
    k := if b == 34 then 0 else if b == 92 then 1 else if b == 47 then 2 else if b == 98 then 3
         else if b == 102 then 4 else if b == 110 then 5 else if b == 114 then 6 else 7;
  }

  lemma PieceFound(s: Bytes, i: nat, output: Bytes) returns (p: Piece)
    requires i < |s| && s[i] != 34 && StringRest(s, i, output).Good?
    ensures PieceOk(p) && At(s, i, PieceText(p)) && i + |PieceText(p)| <= |s|
    ensures StringRest(s, i, output) == StringRest(s, i + |PieceText(p)|, output + PieceBytes(p))
  {
    if s[i] != 92 {
      p := Plain(s[i]);
      assert s[i..i + 1] == [s[i]];
    } else if s[i + 1] == 117 {
      p := EscapeFound(s, i);
      hide UnicodeEscape, At, PieceText, ScalarOf;
    } else {
      var k := LetterFound(s[i + 1]);
      p := Letter(k);
      assert s[i..i + 2] == [92, LETTERS[k]];
    }
  }

  lemma {:induction false} PiecesFound(s: Bytes, i: nat, output: Bytes) returns (ps: seq<Piece>)
    requires i <= |s| && StringRest(s, i, output).Good?
    ensures PiecesOk(ps) && At(s, i, PiecesText(ps) + [34])
    ensures StringRest(s, i, output) == Good(output + PiecesBytes(ps), i + |PiecesText(ps)| + 1)
    ensures WellFormed(output + PiecesBytes(ps))
    decreases |s| - i
  {
    hide At, WellFormed, PieceText, PieceBytes, StringRest, PieceOk, PiecesText, PiecesBytes, PiecesOk;
    NotAtEnd(s, i, output);
    if s[i] == 34 {
      ps := [];
      QuoteFound(s, i, output);
    } else {
      var p := PieceFound(s, i, output);
      var rest := PiecesFound(s, i + |PieceText(p)|, output + PieceBytes(p));
      ps := [p] + rest;
      PiecesCons(p, rest);
      Assoc(PieceText(p), PiecesText(rest), [34]);
      AtConcat(s, i, PieceText(p), PiecesText(rest) + [34]);
      Assoc(output, PieceBytes(p), PiecesBytes(rest));
    }
  }

  lemma NotAtEnd(s: Bytes, i: nat, output: Bytes)
    requires i <= |s| && StringRest(s, i, output).Good?
    ensures i < |s|
  {
  }

  lemma QuoteFound(s: Bytes, i: nat, output: Bytes)
    requires i < |s| && s[i] == 34 && StringRest(s, i, output).Good?
    ensures PiecesOk([]) && PiecesText([]) == [] && PiecesBytes([]) == []
    ensures At(s, i, [] + [34]) && WellFormed(output + [])
    ensures StringRest(s, i, output) == Good(output + [], i + 1)
  {
    assert [] + [34] == [34] && s[i..i + 1] == [34] && output + [] == output;
  }

  lemma PiecesCons(p: Piece, rest: seq<Piece>)
    requires PieceOk(p) && PiecesOk(rest)
    ensures PiecesOk([p] + rest)
    ensures PiecesText([p] + rest) == PieceText(p) + PiecesText(rest)
    ensures PiecesBytes([p] + rest) == PieceBytes(p) + PiecesBytes(rest)
  {
    hide PieceOk, PieceText, PieceBytes;
    assert ([p] + rest)[1..] == rest;
  }

  lemma QuotedFound(s: Bytes, i: nat) returns (ps: seq<Piece>)
    requires i < |s| && s[i] == 34 && StringRest(s, i + 1, []).Good?
    ensures StringOk(ps) && PiecesOk(ps) && At(s, i, [34] + PiecesText(ps) + [34])
    ensures StringRest(s, i + 1, []) == Good(PiecesBytes(ps), i + |PiecesText(ps)| + 2)
  {
    hide StringRest, WellFormed, PiecesText, PiecesBytes, PiecesOk;
    ps := PiecesFound(s, i + 1, []);
    assert [] + PiecesBytes(ps) == PiecesBytes(ps);
    assert s[i..i + 1] == [34];
    Assoc([34], PiecesText(ps), [34]);
    AtConcat(s, i, [34], PiecesText(ps) + [34]);
  }

  // ---------------------------------------------------------------- numbers and space

  lemma NumberFound(s: Bytes, i: nat) returns (t: Tree)
    requires i < |s| && ParseNumber(s, i).Good?
    ensures t.NumberTree? && TreeOk(t) && At(s, i, TreeText(t))
    ensures ParseNumber(s, i) == Good(Meaning(t), i + |TreeText(t)|)
  {
    hide DecimalValue, At, NumberText, NumberOk, ParseNumber;
    var negative := s[i] == 45;
    var start := if negative then i + 1 else i;
    NumberParts(s, i, negative, start);
    var end := ParseNumber(s, i).next;
    t := NumberTree(negative, s[start..end]);
    NumberTextAt(s, i, negative, start, end);
  }

  lemma NumberParts(s: Bytes, i: nat, negative: bool, start: nat)
    requires i < |s| && ParseNumber(s, i).Good? && (negative <==> s[i] == 45)
    requires start == if negative then i + 1 else i
    ensures var end := ParseNumber(s, i).next;
            && start <= end <= |s| && NumberOk(negative, s[start..end])
            && ParseNumber(s, i).value
               == var n := DecimalValue(s[start..end]);
                  if negative then Number(SignedInteger, s[i..end], -(n as int))
                  else Number(UnsignedInteger, s[i..end], n)
  {
    DigitsOf(s, start);
    hide IntegerPart, DecimalValue;
  }

  lemma NumberTextAt(s: Bytes, i: nat, negative: bool, start: nat, end: nat)
    requires i < |s| && start == (if negative then i + 1 else i) <= end <= |s| && (negative <==> s[i] == 45)
    ensures At(s, i, NumberText(negative, s[start..end])) && s[i..end] == NumberText(negative, s[start..end])
    ensures i + |NumberText(negative, s[start..end])| == end
  {
  }

  lemma DigitsOf(s: Bytes, i: nat)
    requires i < |s| && IntegerPart(s, i).Good?
    ensures var digits := s[i..IntegerPart(s, i).next];
            digits != [] && AreDigits(digits) && (digits[0] == 48 ==> |digits| == 1)
  {
  }

  lemma {:induction false} SpaceFound(s: Bytes, i: nat)
    requires i <= |s|
    ensures Space(s[i..SkipSpace(s, i)]) && At(s, i, s[i..SkipSpace(s, i)])
    decreases |s| - i
  {
    if i < |s| && IsSpace(s[i]) {
      SpaceFound(s, i + 1);
      assert s[i..SkipSpace(s, i)] == [s[i]] + s[i + 1..SkipSpace(s, i + 1)];
    }
  }

  // ---------------------------------------------------------------- values

  lemma EmptyFound(s: Bytes, i: nat, open: byte, close: byte, j: nat) returns (space: Bytes)
    requires i < |s| && s[i] == open && SkipSpace(s, i + 1) == j < |s| && s[j] == close
    ensures Space(space) && At(s, i, [open] + space + [close]) && i + |[open] + space + [close]| == j + 1
  {
    space := s[i + 1..j];
    SpaceFound(s, i + 1);
    hide SkipSpace, Space;
    assert s[i..i + 1] == [open] && s[j..j + 1] == [close];
    AtConcat(s, i, [open], space);
    AtConcat(s, i, [open] + space, [close]);
  }

  lemma OpenFound(s: Bytes, i: nat, open: byte, j: nat, rest: Bytes) returns (space: Bytes)
    requires i < |s| && s[i] == open && SkipSpace(s, i + 1) == j && At(s, j, rest)
    ensures Space(space) && At(s, i, [open] + space + rest) && i + |[open] + space| == j
  {
    space := s[i + 1..j];
    SpaceFound(s, i + 1);
    hide SkipSpace, Space;
    assert s[i..i + 1] == [open];
    assert At(s, i, [open]);
    hide At;
    AtConcat(s, i, [open], space);
    AtConcat(s, i, [open] + space, rest);
  }

  /** Whatever the parser accepts is the text of a derivation, and the answer is its meaning. */
  lemma {:induction false} TreeFound(s: Bytes, i: nat) returns (t: Tree)
    requires i <= |s| && ParseValue(s, i).Good?
    ensures TreeOk(t) && At(s, i, TreeText(t)) && ParseValue(s, i) == Good(Meaning(t), i + |TreeText(t)|)
    decreases |s| - i, 0
  {
    hide At, ParseNumber, StringRest, StringOk, NumberOk, ArrayRest, ObjectRest, Space, SkipSpace;
    if s[i] == 34 {
      var ps := QuotedFound(s, i);
      t := StringTree(ps);
      hide PiecesText, PiecesBytes;
    } else if s[i] == 91 {
      t := ArrayFound(s, i);
    } else if s[i] == 123 {
      t := ObjectFound(s, i);
    } else if s[i] == 45 || IsDigit(s[i]) {
      t := NumberFound(s, i);
    } else {
      t := LiteralFound(s, i);
    }
  }

  lemma LiteralFound(s: Bytes, i: nat) returns (t: Tree)
    requires i < |s| && ParseValue(s, i).Good?
    requires s[i] != 34 && s[i] != 91 && s[i] != 123 && s[i] != 45 && !IsDigit(s[i])
    ensures TreeOk(t) && At(s, i, TreeText(t)) && ParseValue(s, i) == Good(Meaning(t), i + |TreeText(t)|)
  {
    t := if s[i] == 110 then NullTree else if s[i] == 116 then TrueTree else FalseTree;
  }

  lemma {:induction false} ArrayFound(s: Bytes, i: nat) returns (t: Tree)
    requires i < |s| && s[i] == 91 && ParseValue(s, i).Good?
    ensures TreeOk(t) && At(s, i, TreeText(t)) && ParseValue(s, i) == Good(Meaning(t), i + |TreeText(t)|)
    decreases |s| - i - 1, 3
  {
    hide At, ArrayRest, ItemsOk, ArrayBody, ItemsMeaning, Space, SkipSpace;
    var j := SkipSpace(s, i + 1);
    if j < |s| && s[j] == 93 {
      var space := EmptyFound(s, i, 91, 93, j);
      t := EmptyArray(space);
    } else {
      var items := ItemsFound(s, j, []);
      var space := OpenFound(s, i, 91, j, ArrayBody(items));
      t := ArrayTree(space, items);
      assert [] + ItemsMeaning(items) == ItemsMeaning(items);
    }
  }

  lemma {:induction false} ObjectFound(s: Bytes, i: nat) returns (t: Tree)
    requires i < |s| && s[i] == 123 && ParseValue(s, i).Good?
    ensures TreeOk(t) && At(s, i, TreeText(t)) && ParseValue(s, i) == Good(Meaning(t), i + |TreeText(t)|)
    decreases |s| - i - 1, 4
  {
    hide At, ObjectRest, MembersOk, ObjectBody, MembersMeaning, Space, SkipSpace;
    var j := SkipSpace(s, i + 1);
    if j < |s| && s[j] == 125 {
      var space := EmptyFound(s, i, 123, 125, j);
      t := EmptyObject(space);
    } else {
      var members := MembersFound(s, j, map[]);
      var space := OpenFound(s, i, 123, j, ObjectBody(members));
      t := ObjectTree(space, members);
      assert map[] + MembersMeaning(members) == MembersMeaning(members);
    }
  }

  /** A reader that accepted an element goes on in one of two ways. */
  lemma ArrayGoesOn(s: Bytes, i: nat, done: seq<Value>)
    requires i <= |s| && ArrayRest(s, i, done).Good?
    ensures ParseValue(s, i).Good?
    ensures var v := ParseValue(s, i);
            var k := SkipSpace(s, v.next);
            && k < |s| && (s[k] == 93 || s[k] == 44)
            && (s[k] == 93 ==> ArrayRest(s, i, done) == Good(Array(done + [v.value]), k + 1))
            && (s[k] == 44 ==>
                  ArrayRest(s, i, done) == ArrayRest(s, SkipSpace(s, k + 1), done + [v.value]))
  {
    hide ParseValue, SkipSpace;
  }

  lemma {:induction false} ItemsFound(s: Bytes, i: nat, done: seq<Value>) returns (items: Items)
    requires i <= |s| && ArrayRest(s, i, done).Good?
    ensures ItemsOk(items) && At(s, i, ArrayBody(items))
    ensures ArrayRest(s, i, done) == Good(Array(done + ItemsMeaning(items)), i + |ArrayBody(items)|)
    decreases |s| - i, 2
  {
    hide At, ArrayRest, ItemsOk, ArrayBody, ItemsMeaning, Space, SkipSpace, TreeOk, TreeText, Meaning, ParseValue;
    ArrayGoesOn(s, i, done);
    var t := TreeFound(s, i);
    var j := ParseValue(s, i).next;
    var k := SkipSpace(s, j);
    SpaceFound(s, j);
    var after := s[j..k];
    if s[k] == 93 {
      items := LastItem(t, after);
      LastItemIs(s, i, t, after);
      assert done + ([Meaning(t)] + []) == done + [Meaning(t)];
    } else {
      var next := SkipSpace(s, k + 1);
      SpaceFound(s, k + 1);
      var rest := ItemsFound(s, next, done + [Meaning(t)]);
      items := MoreItems(t, after, s[k + 1..next], rest);
      MoreItemsIs(s, i, t, after, s[k + 1..next], rest);
      assert done + [Meaning(t)] + ItemsMeaning(rest) == done + ([Meaning(t)] + ItemsMeaning(rest));
    }
  }

  /** An element, the space after it and a delimiter lie one after the other. */
  lemma ListFound(s: Bytes, i: nat, c: Bytes, after: Bytes, d: byte)
    requires At(s, i, c) && At(s, i + |c|, after)
    requires i + |c| + |after| < |s| && s[i + |c| + |after|] == d
    ensures At(s, i, c + after + [d])
  {
    var k := i + |c| + |after|;
    assert s[k..k + 1] == [d];
    AtConcat(s, i, c, after);
    AtConcat(s, i, c + after, [d]);
  }

  lemma ListGoesOn(s: Bytes, i: nat, c: Bytes, after: Bytes, before: Bytes, rest: Bytes)
    requires At(s, i, c + after + [44])
    requires At(s, i + |c + after| + 1, before) && At(s, i + |c + after| + 1 + |before|, rest)
    ensures At(s, i, c + after + ([44] + before + rest))
  {
    hide At;
    AtConcat(s, i, c + after, [44]);
    var k := i + |c + after|;
    AtConcat(s, k, [44], before);
    AtConcat(s, k, [44] + before, rest);
    AtConcat(s, i, c + after, [44] + before + rest);
  }

  lemma LastItemIs(s: Bytes, i: nat, t: Tree, after: Bytes)
    requires TreeOk(t) && Space(after) && At(s, i, TreeText(t)) && At(s, i + |TreeText(t)|, after)
    requires i + |TreeText(t)| + |after| < |s| && s[i + |TreeText(t)| + |after|] == 93
    ensures var items := LastItem(t, after);
            && ItemsOk(items) && At(s, i, ArrayBody(items)) && ItemsMeaning(items) == [Meaning(t)] + []
            && |ArrayBody(items)| == |TreeText(t)| + |after| + 1
  {
    hide At, TreeOk, TreeText, Meaning, Space;
    ListFound(s, i, TreeText(t), after, 93);
    ItemsAre(LastItem(t, after));
  }

  lemma MoreItemsIs(s: Bytes, i: nat, t: Tree, after: Bytes, before: Bytes, rest: Items)
    requires TreeOk(t) && Space(after) && At(s, i, TreeText(t)) && At(s, i + |TreeText(t)|, after)
    requires i + |TreeText(t)| + |after| < |s| && s[i + |TreeText(t)| + |after|] == 44
    requires ItemsOk(rest) && Space(before) && At(s, i + |TreeText(t)| + |after| + 1, before)
    requires At(s, i + |TreeText(t)| + |after| + 1 + |before|, ArrayBody(rest))
    ensures var items := MoreItems(t, after, before, rest);
            && ItemsOk(items) && At(s, i, ArrayBody(items))
            && ItemsMeaning(items) == [Meaning(t)] + ItemsMeaning(rest)
            && |ArrayBody(items)| == |TreeText(t)| + |after| + 1 + |before| + |ArrayBody(rest)|
  {
    hide At, TreeOk, TreeText, Meaning, Space;
    ListFound(s, i, TreeText(t), after, 44);
    ListGoesOn(s, i, TreeText(t), after, before, ArrayBody(rest));
    ItemsAre(MoreItems(t, after, before, rest));
    hide ArrayBody, ItemsMeaning;
  }

  // ---------------------------------------------------------------- objects

  lemma MemberGoesOn(s: Bytes, i: nat)
    requires i <= |s| && ParseMember(s, i).Good?
    ensures i < |s| && s[i] == 34 && StringRest(s, i + 1, []).Good?
    ensures var key := StringRest(s, i + 1, []);
            var c := SkipSpace(s, key.next);
            && c < |s| && s[c] == 58 && ParseValue(s, SkipSpace(s, c + 1)).Good?
            && var v := ParseValue(s, SkipSpace(s, c + 1));
               ParseMember(s, i) == Good((key.value, v.value), v.next)
  {
    hide StringRest, SkipSpace, ParseValue;
  }

  lemma {:induction false} MemberFound(s: Bytes, i: nat) returns (m: Member)
    requires i <= |s| && ParseMember(s, i).Good?
    ensures MemberOk(m) && PiecesOk(m.name) && TreeOk(m.value) && At(s, i, MemberText(m))
    ensures ParseMember(s, i) == Good((PiecesBytes(m.name), Meaning(m.value)), i + |MemberText(m)|)
    decreases |s| - i, 1
  {
    hide At, StringRest, SkipSpace, ParseValue, ParseMember, TreeOk, TreeText, Meaning, Space, StringOk, PiecesText,
      PiecesBytes, MemberText;
    MemberGoesOn(s, i);
    var ps := QuotedFound(s, i);
    var q := StringRest(s, i + 1, []).next;
    var c := SkipSpace(s, q);
    SpaceFound(s, q);
    var v := SkipSpace(s, c + 1);
    SpaceFound(s, c + 1);
    var t := TreeFound(s, v);
    m := Member(ps, s[q..c], s[c + 1..v], t);
    MemberJoined(s, i, m, c);
  }

  lemma MemberJoined(s: Bytes, i: nat, m: Member, c: nat)
    requires MemberOk(m) && PiecesOk(m.name) && c < |s| && s[c] == 58
    requires At(s, i, [34] + PiecesText(m.name) + [34]) && At(s, i + |PiecesText(m.name)| + 2, m.beforeColon)
    requires c == i + |PiecesText(m.name)| + 2 + |m.beforeColon| && At(s, c + 1, m.afterColon)
    requires At(s, c + 1 + |m.afterColon|, TreeText(m.value))
    ensures At(s, i, MemberText(m)) && i + |MemberText(m)| == c + 1 + |m.afterColon| + |TreeText(m.value)|
  {
    hide At, PiecesText, TreeText, TreeOk, WellFormed, PiecesBytes;
    var name := [34] + PiecesText(m.name) + [34];
    ListFound(s, i, name, m.beforeColon, 58);
    AtConcat(s, i, name + m.beforeColon + [58], m.afterColon);
    AtConcat(s, i, name + m.beforeColon + [58] + m.afterColon, TreeText(m.value));
  }

  lemma ObjectGoesOn(s: Bytes, i: nat, done: map<Bytes, Value>)
    requires i <= |s| && ObjectRest(s, i, done).Good?
    ensures ParseMember(s, i).Good?
    ensures var m := ParseMember(s, i);
            var k := SkipSpace(s, m.next);
            && m.value.0 !in done && k < |s| && (s[k] == 125 || s[k] == 44)
            && (s[k] == 125 ==> ObjectRest(s, i, done) == Good(Object(done[m.value.0 := m.value.1]), k + 1))
            && (s[k] == 44 ==>
                  ObjectRest(s, i, done) == ObjectRest(s, SkipSpace(s, k + 1), done[m.value.0 := m.value.1]))
  {
    hide ParseMember, SkipSpace;
  }

  lemma {:induction false} MembersFound(s: Bytes, i: nat, done: map<Bytes, Value>) returns (members: Members)
    requires i <= |s| && ObjectRest(s, i, done).Good?
    ensures MembersOk(members) && At(s, i, ObjectBody(members))
    ensures ObjectRest(s, i, done) == Good(Object(done + MembersMeaning(members)), i + |ObjectBody(members)|)
    ensures forall name :: name in done ==> !Names(members, name)
    decreases |s| - i, 2
  {
    hide At, ObjectRest, MembersOk, ObjectBody, MembersMeaning, MemberOk, MemberText, Meaning, Space, SkipSpace,
      ParseMember, Names, PiecesBytes, PiecesOk, TreeOk;
    ObjectGoesOn(s, i, done);
    var m := MemberFound(s, i);
    var name, v := ParseMember(s, i).value.0, ParseMember(s, i).value.1;
    var j := ParseMember(s, i).next;
    var k := SkipSpace(s, j);
    SpaceFound(s, j);
    var after := s[j..k];
    if s[k] == 125 {
      members := LastMember(m, after);
      LastMemberIs(s, i, m, after);
      assert done + (map[name := v] + map[]) == done[name := v];
    } else {
      var next := SkipSpace(s, k + 1);
      SpaceFound(s, k + 1);
      var rest := MembersFound(s, next, done[name := v]);
      members := MoreMembers(m, after, s[k + 1..next], rest);
      MoreMembersIs(s, i, m, after, s[k + 1..next], rest);
      assert done[name := v] + MembersMeaning(rest) == done + (map[name := v] + MembersMeaning(rest));
    }
  }

  lemma LastMemberIs(s: Bytes, i: nat, m: Member, after: Bytes)
    requires MemberOk(m) && PiecesOk(m.name) && TreeOk(m.value)
    requires Space(after) && At(s, i, MemberText(m)) && At(s, i + |MemberText(m)|, after)
    requires i + |MemberText(m)| + |after| < |s| && s[i + |MemberText(m)| + |after|] == 125
    ensures var members := LastMember(m, after);
            && MembersOk(members) && At(s, i, ObjectBody(members))
            && MembersMeaning(members) == map[PiecesBytes(m.name) := Meaning(m.value)] + map[]
            && |ObjectBody(members)| == |MemberText(m)| + |after| + 1
            && forall x :: Names(members, x) <==> x == PiecesBytes(m.name)
  {
    hide At, MemberOk, MemberText, Meaning, Space, PiecesBytes, PiecesOk, TreeOk;
    ListFound(s, i, MemberText(m), after, 125);
    MembersAre(LastMember(m, after));
  }

  lemma MoreMembersIs(s: Bytes, i: nat, m: Member, after: Bytes, before: Bytes, rest: Members)
    requires MemberOk(m) && PiecesOk(m.name) && TreeOk(m.value)
    requires Space(after) && At(s, i, MemberText(m)) && At(s, i + |MemberText(m)|, after)
    requires i + |MemberText(m)| + |after| < |s| && s[i + |MemberText(m)| + |after|] == 44
    requires MembersOk(rest) && Space(before) && At(s, i + |MemberText(m)| + |after| + 1, before)
    requires At(s, i + |MemberText(m)| + |after| + 1 + |before|, ObjectBody(rest))
    requires !Names(rest, PiecesBytes(m.name))
    ensures var members := MoreMembers(m, after, before, rest);
            && MembersOk(members) && At(s, i, ObjectBody(members))
            && MembersMeaning(members) == map[PiecesBytes(m.name) := Meaning(m.value)] + MembersMeaning(rest)
            && |ObjectBody(members)| == |MemberText(m)| + |after| + 1 + |before| + |ObjectBody(rest)|
            && forall x :: Names(members, x) <==> x == PiecesBytes(m.name) || Names(rest, x)
  {
    hide At, MemberOk, MemberText, Meaning, Space, PiecesBytes, PiecesOk, TreeOk;
    ListFound(s, i, MemberText(m), after, 44);
    ListGoesOn(s, i, MemberText(m), after, before, ObjectBody(rest));
    MembersAre(MoreMembers(m, after, before, rest));
    hide ObjectBody, MembersMeaning;
  }

  // ---------------------------------------------------------------- documents

  /** A document: a value with space around it. */
  datatype Document = Document(before: Bytes, tree: Tree, after: Bytes)

  ghost predicate DocumentOk(d: Document) { Space(d.before) && TreeOk(d.tree) && Space(d.after) }

  ghost function DocumentText(d: Document): Bytes
    requires DocumentOk(d)
  {
    d.before + TreeText(d.tree) + d.after
  }

  /** The parser answers v exactly on the texts of the documents that mean v. */
  lemma ParsesIffDerived(s: Bytes, v: Value)
    ensures ParseDocument(s) == Ok(v) <==>
      exists d :: DocumentOk(d) && DocumentText(d) == s && Meaning(d.tree) == v
  {
    hide DocumentText, Meaning, TreeOk, Space;
    if ParseDocument(s) == Ok(v) {
      var d := DocumentFound(s);
    }
    if d :| DocumentOk(d) && DocumentText(d) == s && Meaning(d.tree) == v {
      DocumentRead(d);
    }
  }

  lemma DocumentFound(s: Bytes) returns (d: Document)
    requires ParseDocument(s).Ok?
    ensures DocumentOk(d) && DocumentText(d) == s && ParseDocument(s) == Ok(Meaning(d.tree))
  {
    hide TreeOk, TreeText, Meaning, ParseValue, SkipSpace, Space;
    var i := SkipSpace(s, 0);
    var j := ParseValue(s, i).next;
    SpaceFound(s, 0);
    SpaceFound(s, j);
    var t := TreeFound(s, i);
    d := Document(s[0..i], t, s[j..]);
    assert s[j..SkipSpace(s, j)] == s[j..];
    assert s == s[0..i] + s[i..j] + s[j..];
  }

  lemma DocumentRead(d: Document)
    requires DocumentOk(d)
    ensures ParseDocument(DocumentText(d)) == Ok(Meaning(d.tree))
  {
    hide TreeOk, TreeText, Meaning, ParseValue, At, Space, SkipSpace, IsSpace;
    var s, c := DocumentText(d), TreeText(d.tree);
    var i, j := |d.before|, |d.before + c|;
    WholeAt(s);
    AtConcat(s, 0, d.before + c, d.after);
    AtConcat(s, 0, d.before, c);
    TreeHead(d.tree);
    AtHead(s, i, c);
    SpaceSkipped(s, 0, d.before);
    SpaceSkipped(s, j, d.after);
    SpaceEnds(s, j, d.after);
    TreeRead(s, i, d.tree);
  }

  lemma WholeAt(s: Bytes)
    ensures At(s, 0, s)
  {
    assert s[0..|s|] == s;
  }

  lemma SpaceEnds(s: Bytes, j: nat, after: Bytes)
    requires Space(after) && At(s, j, after) && j + |after| == |s|
    ensures NumberEnds(s, j)
  {
    if after != [] {
      AtHead(s, j, after);
    }
  }
}
