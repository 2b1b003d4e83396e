/** Parsing undoes canonical printing, and what follows from it. */
module JsonRoundTrip {
  import opened Prelude
  import opened Utf
  import opened JsonValue
  import opened JsonGrammar
  import opened JsonSyntax
  import opened JsonDerivation

  // ---------------------------------------------------------------- canonical text as a derivation

  lemma {:induction false} DigitsAreDigits(n: nat)
    ensures forall k :: 0 <= k < |Digits(n)| ==> IsDigit(Digits(n)[k])
    ensures DecimalValue(Digits(n)) == n
    ensures n == 0 ==> Digits(n) == [48]
    ensures n > 0 ==> Digits(n)[0] != 48
  {
    if n >= 10 {
      DigitsAreDigits(n / 10);
      var d := Digits(n);
      assert d[..|d| - 1] == Digits(n / 10);
    }
  }

  /** The piece that prints one byte of a string. */
  function EscapePiece(b: byte): Piece {
    if b == 34 then Letter(0)
    else if b == 92 then Letter(1)
    else if b == 8 then Letter(3)
    else if b == 12 then Letter(4)
    else if b == 10 then Letter(5)
    else if b == 13 then Letter(6)
    else if b == 9 then Letter(7)
    else if b < 32 then Unit(Quad(Hex(0, false), Hex(0, false), Hex(b / 16, false), Hex(b % 16, false)))
    else Plain(b)
  }

  lemma EscapePieceIs(b: byte)
    ensures PieceOk(EscapePiece(b)) && PieceText(EscapePiece(b)) == Escape(b) && PieceBytes(EscapePiece(b)) == [b]
  {
    if EscapePiece(b).Unit? {
      ControlPiece(b);
    }
  }

  lemma ControlPiece(b: byte)
    requires b < 32
    ensures var q := Quad(Hex(0, false), Hex(0, false), Hex(b / 16, false), Hex(b % 16, false));
            && PieceOk(Unit(q)) && PieceBytes(Unit(q)) == [b]
            && PieceText(Unit(q)) == [92, 117, 48, 48, HexChar(b / 16), HexChar(b % 16)]
  {
    LowerCase(0);
    LowerCase(b / 16);
    LowerCase(b % 16);
    hide HexChar;
  }

  lemma LowerCase(d: nat)
    requires d < 16
    ensures LOWER[d] == HexChar(d) && LOWER[0] == 48
  {
  }

  lemma {:induction false} EscapePieces(t: Bytes, k: nat) returns (ps: seq<Piece>)
    requires k <= |t|
    ensures PiecesOk(ps) && PiecesText(ps) == EscapeFrom(t, k) && PiecesBytes(ps) == t[k..]
    decreases |t| - k
  {
    hide PieceOk, PieceText, PieceBytes, Escape, EscapePiece;
    if k == |t| {
      ps := [];
    } else {
      var rest := EscapePieces(t, k + 1);
      ps := [EscapePiece(t[k])] + rest;
      EscapePieceIs(t[k]);
      PiecesCons(EscapePiece(t[k]), rest);
      assert t[k..] == [t[k]] + t[k + 1..];
    }
  }

  lemma NumberOf(n: int) returns (t: Tree)
    requires -0x8000_0000_0000_0000 <= n <= U64_MAX
    ensures t.NumberTree? && TreeOk(t) && TreeText(t) == IntegerText(n) && Meaning(t) == CanonicalNumber(n)
  {
    hide Digits, NumberOk, NumberText;
    var m := if n < 0 then -n else n;
    NumberParts(n, m);
    t := NumberTree(n < 0, Digits(m));
  }

  lemma NumberParts(n: int, m: nat)
    requires -0x8000_0000_0000_0000 <= n <= U64_MAX && m == if n < 0 then -n else n
    ensures NumberOk(n < 0, Digits(m)) && NumberText(n < 0, Digits(m)) == IntegerText(n)
    ensures DecimalValue(Digits(m)) == m
  {
    DigitsAreDigits(m);
    hide DecimalValue, Digits;
    assert [] + Digits(m) == Digits(m);
  }

  /** The canonical text of a value is the text of a derivation that means the normalized value. */
  lemma {:induction false} TreeOf(v: Value) returns (t: Tree)
    requires Fits(v) && Canonical(v).Some?
    ensures TreeOk(t) && TreeText(t) == Canonical(v).value && Meaning(t) == Normalize(v)
    decreases v, 2
  {
    match v
    case Null => t := NullTree;
    case Bool(flag) => t := if flag then TrueTree else FalseTree;
    case Number(_, _, n) => t := NumberOf(n);
    case Text(text) =>
      var ps := EscapePieces(text, 0);
      assert text[0..] == text;
      t := StringTree(ps);
    case Array(items) => t := ArrayOf(v);
    case Object(members) => t := ObjectOf(v);
  }

  lemma {:induction false} ArrayOf(v: Value) returns (t: Tree)
    requires v.Array? && Fits(v) && Canonical(v).Some?
    ensures TreeOk(t) && TreeText(t) == Canonical(v).value && Meaning(t) == Normalize(v)
    decreases v, 1
  {
    hide Fits, ItemsOk, ArrayBody, ItemsMeaning;
    var body := ItemsText(v, 0).value;
    if |v.items| == 0 {
      t := EmptyArray([]);
      assert Normalize(v).items == [];
    } else {
      var items := ItemsOf(v, 0);
      t := ArrayTree([], items);
      assert Normalize(v).items[0..] == Normalize(v).items;
      assert [91] + [] + ArrayBody(items) == [91] + (body + [93]) == [91] + body + [93];
    }
  }

  /** The items from k on, without the first separator. */
  lemma {:induction false} ItemsOf(v: Value, k: nat) returns (items: Items)
    requires v.Array? && Fits(v) && k < |v.items| && ItemsText(v, k).Some?
    ensures ItemsOk(items) && Separator(k) + ArrayBody(items) == ItemsText(v, k).value + [93]
    ensures ItemsMeaning(items) == Normalize(v).items[k..]
    decreases v, 0, |v.items| - k
  {
    hide Fits, ItemsOk, ArrayBody, ItemsMeaning, Canonical, ItemsText, Normalize, TreeOk, TreeText, Meaning, Separator;
    ItemFacts(v, k);
    var t := TreeOf(v.items[k]);
    if k + 1 == |v.items| {
      items := LastItem(t, []);
      LastItemOf(t);
      TextOfLast(Separator(k), TreeText(t), [93]);
    } else {
      SeparatorIs(k + 1);
      var rest := ItemsOf(v, k + 1);
      items := MoreItems(t, [], [], rest);
      MoreItemsOf(t, rest);
      TextOfMore(Separator(k), TreeText(t), ArrayBody(rest), ItemsText(v, k + 1).value, [93]);
    }
    SuffixOf(Normalize(v).items, k);
  }

  lemma SeparatorIs(k: nat)
    requires k > 0
    ensures Separator(k) == [44]
  {
  }

  lemma SuffixOf<T>(s: seq<T>, k: nat)
    requires k < |s|
    ensures s[k..] == [s[k]] + s[k + 1..] && (k + 1 == |s| ==> s[k..] == [s[k]])
  {
  }

  lemma TextOfLast(separator: Bytes, c: Bytes, close: Bytes)
    ensures separator + (c + [] + close) == separator + c + [] + close
  {
  }

  lemma TextOfMore(separator: Bytes, c: Bytes, rest: Bytes, more: Bytes, close: Bytes)
    requires [44] + rest == more + close
    ensures separator + (c + [] + ([44] + [] + rest)) == separator + c + more + close
  {
    assert [44] + [] + rest == more + close;
    Assoc(separator + c, more, close);
    Assoc(separator, c, more + close);
  }

  lemma ItemFacts(v: Value, k: nat)
    requires v.Array? && Fits(v) && k < |v.items| && ItemsText(v, k).Some?
    ensures Fits(v.items[k]) && Canonical(v.items[k]).Some? && ItemsText(v, k + 1).Some?
    ensures ItemsText(v, k).value == Separator(k) + Canonical(v.items[k]).value + ItemsText(v, k + 1).value
    ensures k + 1 == |v.items| ==> ItemsText(v, k + 1).value == []
    ensures Normalize(v).Array? && |Normalize(v).items| == |v.items|
    ensures Normalize(v).items[k] == Normalize(v.items[k])
  {
    hide Canonical;
  }

  lemma LastItemOf(t: Tree)
    requires TreeOk(t)
    ensures var items := LastItem(t, []);
            ItemsOk(items) && ArrayBody(items) == TreeText(t) + [] + [93] && ItemsMeaning(items) == [Meaning(t)]
  {
    hide TreeOk, TreeText, Meaning;
  }

  lemma MoreItemsOf(t: Tree, rest: Items)
    requires TreeOk(t) && ItemsOk(rest)
    ensures var items := MoreItems(t, [], [], rest);
            && ItemsOk(items) && ArrayBody(items) == TreeText(t) + [] + ([44] + [] + ArrayBody(rest))
            && ItemsMeaning(items) == [Meaning(t)] + ItemsMeaning(rest)
  {
    hide TreeOk, TreeText, Meaning;
    ItemsAre(MoreItems(t, [], [], rest));
    hide ArrayBody, ItemsMeaning;
  }

  // ---------------------------------------------------------------- objects

  /** The names list of an object: each member once, all well-formed. */
  ghost predicate NamesOf(v: Value, names: seq<Bytes>) {
    && v.Object? && Lists(names, v.members.Keys)
    && forall j :: 0 <= j < |names| ==> names[j] in v.members && WellFormed(names[j])
  }

  lemma {:induction false} ObjectOf(v: Value) returns (t: Tree)
    requires v.Object? && Fits(v) && Canonical(v).Some?
    ensures TreeOk(t) && TreeText(t) == Canonical(v).value && Meaning(t) == Normalize(v)
    decreases v, 1
  {
    hide Fits, MembersOk, ObjectBody, MembersMeaning, Lists, Names, MembersText, Normalize, Canonical;
    var names := OrderedNames(v.members.Keys);
    NamesAreListed(v);
    var body := MembersText(v, names, 0).value;
    if |names| == 0 {
      t := EmptyObject([]);
      NoMembers(v, names);
      assert [123] + [] + [125] == [123] + [] + [125];
    } else {
      var members := MembersOf(v, names, 0);
      t := ObjectTree([], members);
      AllNamed(v, names, MembersMeaning(members));
      assert [123] + [] + ObjectBody(members) == [123] + (body + [125]) == [123] + body + [125];
    }
  }

  lemma NamesAreListed(v: Value)
    requires v.Object? && Canonical(v).Some?
    ensures var names := OrderedNames(v.members.Keys);
            && NamesOf(v, names) && MembersText(v, names, 0).Some?
            && Canonical(v).value == [123] + MembersText(v, names, 0).value + [125]
  {
    ListedMembers(OrderedNames(v.members.Keys), v.members.Keys);
  }

  lemma NoMembers(v: Value, names: seq<Bytes>)
    requires NamesOf(v, names) && names == []
    ensures MembersText(v, names, 0) == Some([]) && Normalize(v) == Object(map[])
  {
    ListedMembers(names, v.members.Keys);
    assert v.members == map[];
  }

  /** The members that the names from k on give. */
  ghost predicate NamedFrom(v: Value, names: seq<Bytes>, k: nat, m: map<Bytes, Value>)
    requires NamesOf(v, names) && k <= |names|
  {
    && (forall name :: name in m <==> name in names[k..])
    && (forall j :: k <= j < |names| ==> names[j] in m && m[names[j]] == Normalize(v.members[names[j]]))
  }

  lemma AllNamed(v: Value, names: seq<Bytes>, m: map<Bytes, Value>)
    requires NamesOf(v, names) && NamedFrom(v, names, 0, m)
    ensures Object(m) == Normalize(v)
  {
    ListedMembers(names, v.members.Keys);
    assert names[0..] == names;
    var w := Normalize(v).members;
    forall name | name in v.members ensures name in m && m[name] == w[name] {
      assert name in names;
      var j :| 0 <= j < |names| && names[j] == name;
    }
    assert m == w;
  }

  /** The members from name k on, without the first separator. */
  lemma {:induction false} MembersOf(v: Value, names: seq<Bytes>, k: nat) returns (members: Members)
    requires NamesOf(v, names) && Fits(v) && k < |names| && MembersText(v, names, k).Some?
    ensures MembersOk(members) && Separator(k) + ObjectBody(members) == MembersText(v, names, k).value + [125]
    ensures NamedFrom(v, names, k, MembersMeaning(members))
    decreases v, 0, |names| - k
  {
    hide Fits, MembersOk, ObjectBody, MembersMeaning, Canonical, MembersText, Normalize, TreeOk, TreeText, Meaning,
      Lists, Names, QuotedText, MemberText, NamedFrom, WellFormed, MemberOk;
    MemberFacts(v, names, k);
    var t := TreeOf(v.members[names[k]]);
    var m := MemberOf(names[k], t);
    if k + 1 == |names| {
      members := LastMember(m, []);
      LastMemberOf(v, names, k, m);
      TextOfLast(Separator(k), MemberText(m), [125]);
    } else {
      var rest := MembersOf(v, names, k + 1);
      members := MoreMembers(m, [], [], rest);
      MoreMembersOf(v, names, k, m, rest);
      TextOfMore(Separator(k), MemberText(m), ObjectBody(rest), MembersText(v, names, k + 1).value, [125]);
    }
  }

  lemma MemberFacts(v: Value, names: seq<Bytes>, k: nat)
    requires NamesOf(v, names) && Fits(v) && k < |names| && MembersText(v, names, k).Some?
    ensures names[k] in v.members && WellFormed(names[k]) && Fits(v.members[names[k]])
    ensures Canonical(v.members[names[k]]).Some? && MembersText(v, names, k + 1).Some?
    ensures MembersText(v, names, k).value
         == Separator(k) + (QuotedText(names[k]) + [58] + Canonical(v.members[names[k]]).value)
            + MembersText(v, names, k + 1).value
    ensures k + 1 == |names| ==> MembersText(v, names, k + 1).value == []
  {
    hide Canonical, QuotedText, Lists;
    var q, c := QuotedText(names[k]), Canonical(v.members[names[k]]);
    if c.Some? {
      assert Separator(k) + q + [58] + c.value == Separator(k) + (q + [58] + c.value);
    }
  }

  lemma MemberOf(name: Bytes, t: Tree) returns (m: Member)
    requires WellFormed(name) && TreeOk(t)
    ensures MemberOk(m) && PiecesOk(m.name) && PiecesBytes(m.name) == name && m.value == t
    ensures MemberText(m) == QuotedText(name) + [58] + TreeText(t)
  {
    hide WellFormed, TreeOk, TreeText, PiecesText, PiecesBytes, PiecesOk;
    var ps := EscapePieces(name, 0);
    assert name[0..] == name;
    m := Member(ps, [], [], t);
    var q := [34] + PiecesText(ps) + [34];
    assert q + [] + [58] + [] + TreeText(t) == q + [58] + TreeText(t);
  }

  lemma LastMemberOf(v: Value, names: seq<Bytes>, k: nat, m: Member)
    requires NamesOf(v, names) && k + 1 == |names| && MemberOk(m) && PiecesOk(m.name) && TreeOk(m.value)
    requires PiecesBytes(m.name) == names[k] && Meaning(m.value) == Normalize(v.members[names[k]])
    ensures var members := LastMember(m, []);
            && MembersOk(members) && ObjectBody(members) == MemberText(m) + [] + [125]
            && NamedFrom(v, names, k, MembersMeaning(members))
  {
    hide MemberOk, MemberText, Meaning, Normalize, PiecesBytes, PiecesOk, TreeOk, Lists, Space;
    NoSpace();
    MembersAre(LastMember(m, []));
    assert names[k..] == [names[k]];
    hide ObjectBody, MembersMeaning, MembersOk;
  }

  lemma NoSpace()
    ensures Space([])
  {
  }

  lemma MoreMembersOf(v: Value, names: seq<Bytes>, k: nat, m: Member, rest: Members)
    requires NamesOf(v, names) && k + 1 < |names| && MemberOk(m) && PiecesOk(m.name) && TreeOk(m.value)
    requires PiecesBytes(m.name) == names[k] && Meaning(m.value) == Normalize(v.members[names[k]])
    requires MembersOk(rest) && NamedFrom(v, names, k + 1, MembersMeaning(rest))
    ensures var members := MoreMembers(m, [], [], rest);
            && MembersOk(members) && ObjectBody(members) == MemberText(m) + [] + ([44] + [] + ObjectBody(rest))
            && NamedFrom(v, names, k, MembersMeaning(members))
  {
    hide MemberOk, MemberText, Meaning, Normalize, PiecesBytes, PiecesOk, TreeOk, Lists, Space, Names, ObjectBody,
      MembersMeaning, MembersOk, WellFormed, NamedFrom;
    NotNamed(v, names, k, rest);
    OneMoreMember(m, rest);
    MembersAre(MoreMembers(m, [], [], rest));
    NamedMore(v, names, k, MembersMeaning(rest), Meaning(m.value));
  }

  lemma NotNamed(v: Value, names: seq<Bytes>, k: nat, rest: Members)
    requires NamesOf(v, names) && k + 1 < |names| && MembersOk(rest)
    requires NamedFrom(v, names, k + 1, MembersMeaning(rest))
    ensures !Names(rest, names[k])
  {
    ListedMembers(names, v.members.Keys);
    NamesAre(rest, names[k]);
    hide Lists, Names, MembersMeaning, MembersOk, Normalize, WellFormed;
  }

  lemma OneMoreMember(m: Member, rest: Members)
    requires MemberOk(m) && MembersOk(rest) && PiecesOk(m.name) && !Names(rest, PiecesBytes(m.name))
    ensures MembersOk(MoreMembers(m, [], [], rest))
  {
    hide MemberOk, PiecesOk, PiecesBytes, Names;
  }

  lemma NamedMore(v: Value, names: seq<Bytes>, k: nat, m: map<Bytes, Value>, w: Value)
    requires NamesOf(v, names) && k + 1 < |names| && NamedFrom(v, names, k + 1, m)
    requires w == Normalize(v.members[names[k]])
    ensures NamedFrom(v, names, k, map[names[k] := w] + m)
  {
    hide Lists, Normalize, WellFormed;
    ListedMembers(names, v.members.Keys);
    NotLater(names, k);
    SuffixOf(names, k);
    var all := map[names[k] := w] + m;
    forall j | k <= j < |names| ensures names[j] in all && all[names[j]] == Normalize(v.members[names[j]]) {
      assert j > k ==> names[j] in m;
      assert names[k] !in m;
    }
  }

  lemma NotLater(names: seq<Bytes>, k: nat)
    requires k < |names| && forall i, j :: 0 <= i < j < |names| ==> names[i] != names[j]
    ensures names[k] !in names[k + 1..]
  {
  }

  // ---------------------------------------------------------------- \u escapes and UTF-16

  lemma HexRoundTrip(d: nat)
    requires d < 16
    ensures HexDigit(HexChar(d)) == Some(d)
  {
  }

  lemma Hex4Of(s: Bytes, i: nat, a: nat, b: nat, c: nat, d: nat)
    requires a < 16 && b < 16 && c < 16 && d < 16
    requires At(s, i, [HexChar(a), HexChar(b), HexChar(c), HexChar(d)])
    ensures Hex4(s, i) == Good(((a * 16 + b) * 16 + c) * 16 + d, i + 4)
  {
    var piece := [HexChar(a), HexChar(b), HexChar(c), HexChar(d)];
    AtElements(s, i, piece);
    assert s[i] == piece[0] && s[i + 1] == piece[1] && s[i + 2] == piece[2] && s[i + 3] == piece[3];
    HexRoundTrip(a);
    HexRoundTrip(b);
    HexRoundTrip(c);
    HexRoundTrip(d);
    assert HexFold(s, i + 3, i + 4, (a * 16 + b) * 16 + c) == Some(((a * 16 + b) * 16 + c) * 16 + d);
    assert HexFold(s, i + 2, i + 4, a * 16 + b) == HexFold(s, i + 3, i + 4, (a * 16 + b) * 16 + c);
    assert HexFold(s, i + 1, i + 4, a) == HexFold(s, i + 2, i + 4, a * 16 + b);
  }

  /** A 16-bit unit as an escape. */
  function UnitEscape(u: nat): Bytes {
    [92, 117, HexChar(u / 4096 % 16), HexChar(u / 256 % 16), HexChar(u / 16 % 16), HexChar(u % 16)]
  }

  function UnitEscapes(units: seq<nat>): Bytes {
    if units == [] then [] else UnitEscape(units[0]) + UnitEscapes(units[1..])
  }

  lemma UnitFields(u: nat)
    requires u < 0x10000
    ensures u / 4096 < 16
    ensures ((u / 4096 * 16 + u / 256 % 16) * 16 + u / 16 % 16) * 16 + u % 16 == u
  {
    assert u / 256 == u / 4096 * 16 + u / 256 % 16;
    assert u / 16 == u / 256 * 16 + u / 16 % 16;
  }

  lemma UnitRead(s: Bytes, i: nat, u: nat)
    requires u < 0x10000 && At(s, i, UnitEscape(u))
    ensures s[i] == 92 && s[i + 1] == 117 && Hex4(s, i + 2) == Good(u, i + 6)
  {
    var digits := [HexChar(u / 4096 % 16), HexChar(u / 256 % 16), HexChar(u / 16 % 16), HexChar(u % 16)];
    assert UnitEscape(u) == [92] + ([117] + digits);
    AtConcat(s, i, [92], [117] + digits);
    AtConcat(s, i + 1, [117], digits);
    AtHead(s, i, [92]);
    AtHead(s, i + 1, [117]);
    UnitFields(u);
    Hex4Of(s, i + 2, u / 4096, u / 256 % 16, u / 16 % 16, u % 16);
  }

  lemma ScalarEscapeStep(s: Bytes, i: nat, cp: nat, output: Bytes)
    requires IsScalar(cp) && At(s, i, UnitEscapes(UnitsOf(cp)))
    ensures StringRest(s, i, output)
         == StringRest(s, i + |UnitEscapes(UnitsOf(cp))|, output + Encode(cp).value)
  {
    var units := UnitsOf(cp);
    if cp <= 0xFFFF {
      assert UnitEscapes(units) == UnitEscape(cp) + UnitEscapes([]);
      assert UnitEscapes(units) == UnitEscape(cp);
      UnitRead(s, i, cp);
    } else {
      assert units[1..] == [units[1]];
      assert UnitEscapes([units[1]]) == UnitEscape(units[1]) + UnitEscapes([]) == UnitEscape(units[1]);
      assert UnitEscapes(units) == UnitEscape(units[0]) + UnitEscape(units[1]);
      AtConcat(s, i, UnitEscape(units[0]), UnitEscape(units[1]));
      UnitRead(s, i, units[0]);
      UnitRead(s, i + 6, units[1]);
      assert JoinSurrogates(units[0], units[1]) == cp;
    }
  }

  lemma {:induction false} UnitEscapesConcat(a: seq<nat>, b: seq<nat>)
    ensures UnitEscapes(a + b) == UnitEscapes(a) + UnitEscapes(b)
  {
    if a == [] {
      assert a + b == b;
    } else {
      assert (a + b)[1..] == a[1..] + b;
      UnitEscapesConcat(a[1..], b);
      assert (a + b)[0] == a[0];
    }
  }

  lemma NoUnits()
    ensures UnitEscapes([]) == []
  {
  }

  /** The escapes of a nonempty scalar sequence, cut after the first scalar. */
  lemma EscapesSplit(s: Bytes, i: nat, cps: seq<nat>)
    requires cps != []
    requires At(s, i, UnitEscapes(Utf16(cps)) + [34])
    ensures var head := UnitEscapes(UnitsOf(cps[0]));
            && At(s, i, head)
            && At(s, i + |head|, UnitEscapes(Utf16(cps[1..])) + [34])
            && |UnitEscapes(Utf16(cps))| == |head| + |UnitEscapes(Utf16(cps[1..]))|
  {
    var head, tail := UnitsOf(cps[0]), Utf16(cps[1..]);
    assert Utf16(cps) == head + tail;
    hide At, UnitEscapes, UnitsOf, Utf16;
    UnitEscapesConcat(head, tail);
    SplitAt(s, i, UnitEscapes(head), UnitEscapes(tail));
  }

  lemma SplitAt(s: Bytes, i: nat, a: Bytes, b: Bytes)
    requires At(s, i, a + b + [34])
    ensures At(s, i, a) && At(s, i + |a|, b + [34])
  {
    Assoc(a, b, [34]);
    hide At;
    AtConcat(s, i, a, b + [34]);
  }

  /**
   A string written wholly as \u escapes of its UTF-16 code units parses to that string:
   the parser's surrogate-pair decoding inverts the ordering key's surrogate-pair encoding.
   */
  lemma {:induction false} Utf16EscapesRoundTrip(s: Bytes, i: nat, cps: seq<nat>, output: Bytes)
    requires AllScalar(cps) && At(s, i, UnitEscapes(Utf16(cps)) + [34])
    requires WellFormed(output + EncodeAll(cps))
    ensures StringRest(s, i, output)
         == Good(output + EncodeAll(cps), i + |UnitEscapes(Utf16(cps))| + 1)
    decreases |cps|
  {
    hide At, UnitEscape, UnitEscapes, WellFormed;
    if cps == [] {
      NoUnits();
      AtHead(s, i, UnitEscapes(Utf16(cps)) + [34]);
      assert output + [] == output;
    } else {
      EscapesSplit(s, i, cps);
      ScalarEscapeStep(s, i, cps[0], output);
      var e := Encode(cps[0]).value;
      assert EncodeAll(cps) == e + EncodeAll(cps[1..]);
      hide Utf16, UnitsOf, StringRest, EncodeAll, Encode;
      Assoc(output, e, EncodeAll(cps[1..]));
      Utf16EscapesRoundTrip(s, i + |UnitEscapes(UnitsOf(cps[0]))|, cps[1..], output + e);
    }
  }

  // ---------------------------------------------------------------- theorems

  /** Canonical text reads back in place, whatever stands around it. */
  lemma ValueRoundTrip(v: Value, s: Bytes, i: nat)
    requires Fits(v) && Canonical(v).Some? && At(s, i, Canonical(v).value)
    requires NumberEnds(s, i + |Canonical(v).value|)
    ensures ParseValue(s, i) == Good(Normalize(v), i + |Canonical(v).value|)
  {
    hide Fits, Canonical, At, TreeOk, TreeText, Meaning, Normalize, ParseValue, NumberEnds;
    var t := TreeOf(v);
    TreeRead(s, i, t);
  }

  /** An integer's text reads back as the integer. */
  lemma NumberRoundTrip(s: Bytes, i: nat, n: int)
    requires -0x8000_0000_0000_0000 <= n <= U64_MAX
    requires At(s, i, IntegerText(n)) && NumberEnds(s, i + |IntegerText(n)|)
    ensures ParseValue(s, i) == Good(CanonicalNumber(n), i + |IntegerText(n)|)
  {
    hide At, NumberEnds, IntegerText, ParseValue, TreeOk, TreeText, Meaning;
    var t := NumberOf(n);
    TreeRead(s, i, t);
  }

  /** A string's escaped text reads back as the string. */
  lemma StringRoundTrip(s: Bytes, i: nat, t: Bytes)
    requires At(s, i, QuotedText(t)) && WellFormed(t)
    ensures i < |s| && s[i] == 34 && StringRest(s, i + 1, []) == Good(t, i + |QuotedText(t)|)
  {
    hide At, WellFormed, PiecesText, PiecesBytes, StringRest, PiecesOk;
    var ps := EscapePieces(t, 0);
    assert t[0..] == t;
    QuotedRead(s, i, ps);
  }

  /** Canonical text parses, is consumed whole, and yields the value up to integer kind and lexeme. */
  lemma ParseInvertsCanonical(v: Value)
    requires Fits(v) && WellFormedTexts(v)
    ensures Canonical(v).Some?
    ensures ParseDocument(Canonical(v).value) == Ok(Normalize(v))
  {
    CanonicalDefined(v);
    hide Fits, Canonical, TreeOk, TreeText, Meaning, Normalize, ParseDocument, WellFormedTexts;
    var t := TreeOf(v);
    var d := Document([], t, []);
    DocumentRead(d);
    assert [] + TreeText(t) + [] == TreeText(t);
  }

  /** Two values have the same canonical text exactly when they are the same value. */
  lemma CanonicalInjective(v: Value, w: Value)
    requires Fits(v) && WellFormedTexts(v) && Fits(w) && WellFormedTexts(w)
    ensures Canonical(v) == Canonical(w) <==> Normalize(v) == Normalize(w)
  {
    ParseInvertsCanonical(v);
    ParseInvertsCanonical(w);
    CanonicalOfNormalized(v);
    CanonicalOfNormalized(w);
  }

  /** Every accepted document can be canonicalized, and canonicalizing twice changes nothing. */
  lemma CanonicalizationIdempotent(s: Bytes)
    requires ParseDocument(s).Ok?
    ensures var v := ParseDocument(s).value;
            && Canonical(v).Some?
            && ParseDocument(Canonical(v).value) == Ok(Normalize(v))
            && Canonical(Normalize(v)) == Canonical(v)
  {
    ParsedIsPrintable(s, SkipSpace(s, 0));
    ParseInvertsCanonical(ParseDocument(s).value);
    CanonicalOfNormalized(ParseDocument(s).value);
  }
}
