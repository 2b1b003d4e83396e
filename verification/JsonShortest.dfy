/** Canonical text is a shortest text of its value: no space, no escape that is not needed, short escapes. */
module JsonShortest {
  import opened Prelude
  import opened Sorting
  import opened Utf
  import opened JsonValue
  import opened JsonGrammar
  import opened JsonSyntax
  import opened JsonDerivation

  /** Control characters without a letter use four hexadecimal digits, in lower case. */
  lemma EscapeForm(b: byte)
    ensures var e := Escape(b);
            if b == 34 || b == 92 then e == [92, b]
            else if b == 8 then e == [92, 'b' as int]
            else if b == 9 then e == [92, 't' as int]
            else if b == 10 then e == [92, 'n' as int]
            else if b == 12 then e == [92, 'f' as int]
            else if b == 13 then e == [92, 'r' as int]
            else if b >= 32 then e == [b]
            else
              && |e| == 6 && e[..4] == [92, 'u' as int, '0' as int, '0' as int]
              && e[4] == (if b < 16 then '0' as int else '1' as int)
              && e[5] == (if b % 16 < 10 then '0' as int + b % 16 else 'a' as int + b % 16 - 10)
  {
  }

  // ---------------------------------------------------------------- numbers

  /** Digits without a leading zero are the digits of their value. */
  lemma {:induction false} DigitsUnique(digits: Bytes)
    requires digits != [] && AreDigits(digits) && (digits[0] == 48 ==> |digits| == 1)
    ensures DecimalValue(digits) == 0 <==> digits == [48]
    ensures Digits(DecimalValue(digits)) == digits
    decreases |digits|
  {
    var n := |digits| - 1;
    var front, last := digits[..n], digits[n] as int - 48;
    assert digits == front + [digits[n]];
    if n > 0 {
      assert front[0] == digits[0];
      DigitsUnique(front);
      var m := DecimalValue(front);
      assert DecimalValue(digits) == m * 10 + last;
      assert (m * 10 + last) / 10 == m && (m * 10 + last) % 10 == last;
    } else {
      assert front == [] && DecimalValue(front) == 0;
    }
  }

  lemma NumberShort(negative: bool, digits: Bytes)
    requires NumberOk(negative, digits)
    ensures var n := DecimalValue(digits);
            |IntegerText(if negative then -(n as int) else n)| <= |NumberText(negative, digits)|
  {
    DigitsUnique(digits);
  }

  // ---------------------------------------------------------------- strings

  /** How long a text is once escaped. */
  ghost function Escaped(t: Bytes): nat {
    if t == [] then 0 else |Escape(t[0])| + Escaped(t[1..])
  }

  lemma {:induction false} EscapedConcat(a: Bytes, b: Bytes)
    ensures Escaped(a + b) == Escaped(a) + Escaped(b)
  {
    hide Escape;
    if a == [] {
      assert a + b == b;
    } else {
      EscapedConcat(a[1..], b);
      assert (a + b)[1..] == a[1..] + b;
    }
  }

  lemma {:induction false} EscapedIs(t: Bytes, k: nat)
    requires k <= |t|
    ensures |EscapeFrom(t, k)| == Escaped(t[k..])
    decreases |t| - k
  {
    if k < |t| {
      EscapedIs(t, k + 1);
      assert t[k..][1..] == t[k + 1..];
    }
  }

  lemma {:induction false} HighBytes(t: Bytes)
    requires forall k :: 0 <= k < |t| ==> t[k] >= 128
    ensures Escaped(t) == |t|
  {
    if t != [] {
      HighBytes(t[1..]);
    }
  }

  lemma PieceShort(p: Piece)
    requires PieceOk(p)
    ensures Escaped(PieceBytes(p)) <= |PieceText(p)|
  {
    match p
    case Plain(b) => OneByte(b);
    case Letter(k) => OneByte(MEANINGS[k]);
    case _ => ScalarShort(ScalarOf(p), |PieceText(p)|);
  }

  lemma OneByte(b: byte)
    ensures Escaped([b]) == |Escape(b)| <= 6
    ensures b in MEANINGS ==> |Escape(b)| <= 2
    ensures b >= 32 && b != 34 && b != 92 ==> |Escape(b)| == 1
  {
    assert [b][1..] == [];
    EscapeForm(b);
  }

  lemma ScalarShort(cp: nat, length: nat)
    requires IsScalar(cp) && length >= 6
    ensures Encode(cp).Some? && Escaped(Encode(cp).value) <= length
  {
    EncodeIs(cp);
    hide Encode, Escape;
    var e := Encode(cp).value;
    if cp < 0x80 {
      OneByte(cp);
    } else {
      HighBytes(e);
    }
  }

  lemma {:induction false} PiecesShort(ps: seq<Piece>)
    requires PiecesOk(ps)
    ensures Escaped(PiecesBytes(ps)) <= |PiecesText(ps)|
  {
    hide PieceOk, PieceText, PieceBytes, Escape;
    if ps != [] {
      PieceShort(ps[0]);
      PiecesShort(ps[1..]);
      EscapedConcat(PieceBytes(ps[0]), PiecesBytes(ps[1..]));
    }
  }

  lemma QuotedShort(ps: seq<Piece>)
    requires PiecesOk(ps)
    ensures |QuotedText(PiecesBytes(ps))| <= |PiecesText(ps)| + 2
  {
    var t := PiecesBytes(ps);
    PiecesShort(ps);
    EscapedIs(t, 0);
    assert t[0..] == t;
  }

  // ---------------------------------------------------------------- values

  /** A derivation's meaning has a canonical text no longer than the derivation's. */
  ghost predicate Short(v: Value, length: nat) { Canonical(v).Some? && |Canonical(v).value| <= length }

  lemma {:induction false} TreeShort(t: Tree)
    requires TreeOk(t)
    ensures Short(Meaning(t), |TreeText(t)|)
    decreases t, 1
  {
    hide NumberOk, ItemsOk, MembersOk, Space, Canonical, ArrayBody, ObjectBody, ItemsMeaning, MembersMeaning,
      WellFormed, PiecesOk, PiecesText, PiecesBytes, NumberText, DecimalValue, Short;
    match t
    case NumberTree(negative, digits) => NumberTreeShort(negative, digits);
    case StringTree(ps) => StringTreeShort(ps);
    case EmptyArray(_) =>
      NoItemsShort();
      Longer(Meaning(t), 2, |TreeText(t)|);
    case ArrayTree(space, items) =>
      ItemsShort(items, []);
      ArrayShort(items, |TreeText(t)|);
    case EmptyObject(_) =>
      EmptyShort();
      Longer(Meaning(t), 2, |TreeText(t)|);
    case ObjectTree(space, members) =>
      ObjectShort(members);
      Longer(Meaning(t), |ObjectBody(members)| + 1, |TreeText(t)|);
    case _ => LiteralShort(t);
  }

  lemma NumberTreeShort(negative: bool, digits: Bytes)
    requires NumberOk(negative, digits)
    ensures Short(Meaning(NumberTree(negative, digits)), |NumberText(negative, digits)|)
  {
    NumberShort(negative, digits);
    hide NumberOk, NumberText, IntegerText, DecimalValue;
  }

  lemma StringTreeShort(ps: seq<Piece>)
    requires StringOk(ps)
    ensures Short(Text(PiecesBytes(ps)), |PiecesText(ps)| + 2)
  {
    hide PiecesBytes, PiecesText, QuotedText, WellFormed, PiecesOk;
    QuotedShort(ps);
  }

  lemma LiteralShort(t: Tree)
    requires t.NullTree? || t.TrueTree? || t.FalseTree?
    ensures Short(Meaning(t), |TreeText(t)|)
  {
  }

  lemma NoItemsShort()
    ensures Short(Array([]), 2)
  {
    assert ItemsText(Array([]), 0) == Some([]);
  }

  lemma Longer(v: Value, a: nat, b: nat)
    requires Short(v, a) && a <= b
    ensures Short(v, b)
  {
    hide Canonical;
  }

  lemma ArrayShort(items: Items, length: nat)
    requires ItemsOk(items) && length >= |ArrayBody(items)| + 1
    requires var body := ItemsText(Array([] + ItemsMeaning(items)), 0);
             body.Some? && |body.value| + 1 <= |ArrayBody(items)| + |Separator(0)|
    ensures Short(Array(ItemsMeaning(items)), length)
  {
    hide ItemsOk, ArrayBody, ItemsMeaning, ItemsText;
    assert [] + ItemsMeaning(items) == ItemsMeaning(items);
  }

  lemma EmptyShort()
    ensures Short(Object(map[]), 2)
  {
    var v := Object(map[]);
    var names := OrderedNames(v.members.Keys);
    ListedMembers(names, v.members.Keys);
    CanonicalObject(v, names);
    ListsIs(names, v.members.Keys);
    assert |names| == |multiset(names)| == 0;
  }

  /** The items from |done| on, in an array that starts with `done`. */
  lemma {:induction false} ItemsShort(items: Items, done: seq<Value>)
    requires ItemsOk(items)
    ensures var body := ItemsText(Array(done + ItemsMeaning(items)), |done|);
            body.Some? && |body.value| + 1 <= |ArrayBody(items)| + |Separator(|done|)|
    decreases items, 0
  {
    hide ItemsOk, ArrayBody, ItemsMeaning, TreeOk, TreeText, Meaning, Canonical;
    ItemsAre(items);
    var x := Meaning(items.item);
    TreeShort(items.item);
    var v := Array(done + ItemsMeaning(items));
    assert v.items[|done|] == x;
    if items.MoreItems? {
      ItemsShort(items.rest, done + [x]);
      assert done + [x] + ItemsMeaning(items.rest) == v.items;
    }
  }

  // ---------------------------------------------------------------- objects

  /** What one member adds to an object's text, without its separator. */
  ghost function Weight(v: Value, name: Bytes): nat
    requires v.Object?
  {
    if name in v.members && Canonical(v.members[name]).Some?
    then |QuotedText(name)| + 1 + |Canonical(v.members[name]).value| else 0
  }

  ghost function Weights(v: Value, names: seq<Bytes>): nat
    requires v.Object?
  {
    if names == [] then 0 else Weight(v, names[0]) + Weights(v, names[1..])
  }

  lemma {:induction false} WeightsConcat(v: Value, a: seq<Bytes>, b: seq<Bytes>)
    requires v.Object?
    ensures Weights(v, a + b) == Weights(v, a) + Weights(v, b)
    decreases |a|
  {
    hide Weight;
    if a == [] {
      assert a + b == b;
    } else {
      WeightsConcat(v, a[1..], b);
      assert (a + b)[1..] == a[1..] + b;
    }
  }

  /** The order of the names does not matter. */
  lemma {:induction false} WeightsPermuted(v: Value, a: seq<Bytes>, b: seq<Bytes>)
    requires v.Object? && multiset(a) == multiset(b)
    ensures Weights(v, a) == Weights(v, b)
    decreases |a|
  {
    hide Weight;
    if a == [] {
      assert |multiset(a)| == |multiset(b)| == |b|;
    } else {
      assert a[0] in multiset(b);
      var i :| 0 <= i < |b| && b[i] == a[0];
      WithoutOne(a, b, i);
      WeightsPermuted(v, a[1..], b[..i] + b[i + 1..]);
      WeightsConcat(v, b[..i], b[i + 1..]);
      WeightsConcat(v, b[..i], [b[i]] + b[i + 1..]);
      assert b == b[..i] + ([b[i]] + b[i + 1..]);
      assert ([b[i]] + b[i + 1..])[1..] == b[i + 1..];
    }
  }

  /** The text of the members from k on, in any order. */
  lemma {:induction false} MembersSize(v: Value, names: seq<Bytes>, k: nat)
    requires v.Object? && names != [] && k <= |names| && forall j :: 0 <= j < |names| ==> names[j] in v.members
    requires forall name :: name in v.members ==> Canonical(v.members[name]).Some?
    ensures var body := MembersText(v, names, k);
            body.Some? && |body.value| + 1 <= Weights(v, names[k..]) + |names| - k + |Separator(k)|
    decreases |names| - k
  {
    hide Canonical, QuotedText;
    if k < |names| {
      MembersSize(v, names, k + 1);
      assert names[k..][1..] == names[k + 1..];
    }
  }

  /** The names of the members, in the order of the text. */
  ghost function NamesIn(members: Members): (r: seq<Bytes>)
    requires MembersOk(members)
    ensures |r| > 0
  {
    assert MemberOk(members.member);
    [PiecesBytes(members.member.name)] + (if members.LastMember? then [] else NamesIn(members.rest))
  }

  lemma {:induction false} NamesListed(members: Members)
    requires MembersOk(members)
    ensures multiset(NamesIn(members)) == multiset(MembersMeaning(members).Keys)
  {
    hide MemberOk, PiecesBytes, Meaning, MembersOk, NamesIn, MembersMeaning, ObjectBody, MemberText, TreeOk, Space,
      Names, PiecesOk;
    MembersAre(members);
    NamesInIs(members);
    var name, v := PiecesBytes(members.member.name), Meaning(members.member.value);
    if members.MoreMembers? {
      NamesListed(members.rest);
      NamesAre(members.rest, name);
      OneMoreKey(name, v, MembersMeaning(members.rest), NamesIn(members.rest));
    } else {
      OneMoreKey(name, v, map[], []);
    }
  }

  lemma OneMoreKey(name: Bytes, v: Value, m: map<Bytes, Value>, names: seq<Bytes>)
    requires name !in m && multiset(names) == multiset(m.Keys)
    ensures multiset([name] + names) == multiset((map[name := v] + m).Keys)
  {
    assert (map[name := v] + m).Keys == {name} + m.Keys;
    assert multiset({name} + m.Keys) == multiset{name} + multiset(m.Keys);
  }

  /** Each member's weight is at most the length of its text. */
  lemma {:induction false} MembersShort(members: Members, v: Value)
    requires MembersOk(members) && v.Object?
    requires forall name :: name in MembersMeaning(members) ==>
      name in v.members && v.members[name] == MembersMeaning(members)[name]
    ensures forall name :: name in MembersMeaning(members) ==> Canonical(MembersMeaning(members)[name]).Some?
    ensures Weights(v, NamesIn(members)) + |NamesIn(members)| <= |ObjectBody(members)|
    decreases members, 0
  {
    hide MembersOk, ObjectBody, MemberText, MemberOk, TreeOk, TreeText, Meaning, Canonical, PiecesBytes, PiecesOk,
      Space, Names, Weight;
    MembersAre(members);
    var m := members.member;
    var name, w := PiecesBytes(m.name), Meaning(m.value);
    NamesInIs(members);
    if members.MoreMembers? {
      NamesAre(members.rest, name);
      MembersShort(members.rest, v);
    }
    TreeShort(m.value);
    MemberShort(m, v);
  }

  lemma NamesInIs(members: Members)
    requires MembersOk(members) && PiecesOk(members.member.name)
    ensures NamesIn(members)
         == [PiecesBytes(members.member.name)] + (if members.LastMember? then [] else NamesIn(members.rest))
    ensures NamesIn(members)[1..] == if members.LastMember? then [] else NamesIn(members.rest)
  {
    hide PiecesBytes, MemberOk;
  }

  lemma MemberShort(m: Member, v: Value)
    requires MemberOk(m) && PiecesOk(m.name) && TreeOk(m.value) && v.Object?
    requires PiecesBytes(m.name) in v.members && v.members[PiecesBytes(m.name)] == Meaning(m.value)
    requires Short(Meaning(m.value), |TreeText(m.value)|)
    ensures Weight(v, PiecesBytes(m.name)) <= |MemberText(m)|
  {
    hide TreeOk, TreeText, Meaning, Canonical, PiecesBytes, PiecesText, QuotedText;
    QuotedShort(m.name);
  }

  lemma {:induction false} ObjectShort(members: Members)
    requires MembersOk(members)
    ensures Short(Object(MembersMeaning(members)), |ObjectBody(members)| + 1)
    decreases members, 1
  {
    hide MembersOk, ObjectBody, MembersMeaning, Weight, Weights, Lists, WellFormed, QuotedText, NamesIn, MembersText;
    var v := Object(MembersMeaning(members));
    MembersShort(members, v);
    NamesListed(members);
    NamesWellFormed(members);
    var names := OrderedNames(v.members.Keys);
    CanonicalObject(v, names);
    hide Canonical;
    ListsIs(names, v.members.Keys);
    assert |multiset(names)| == |names| && |multiset(NamesIn(members))| == |NamesIn(members)|;
    MembersSize(v, names, 0);
    WeightsPermuted(v, names, NamesIn(members));
    assert names[0..] == names;
  }

  lemma ListsIs(names: seq<Bytes>, keys: set<Bytes>)
    requires Lists(names, keys)
    ensures multiset(names) == multiset(keys)
  {
  }

  lemma {:induction false} NamesWellFormed(members: Members)
    requires MembersOk(members)
    ensures forall name :: name in MembersMeaning(members) ==> WellFormed(name)
  {
    MembersAre(members);
    assert WellFormed(PiecesBytes(members.member.name));
    hide TreeOk, Meaning, WellFormed, PiecesBytes, Names, PiecesOk;
    if members.MoreMembers? {
      NamesWellFormed(members.rest);
    }
  }

  /** Of all the texts that parse to a value, the canonical text is a shortest. */
  lemma CanonicalIsShortest(s: Bytes)
    requires ParseDocument(s).Ok?
    ensures Canonical(ParseDocument(s).value).Some?
    ensures |Canonical(ParseDocument(s).value).value| <= |s|
  {
    hide ParseDocument, Canonical, TreeOk, TreeText, Meaning, Space;
    var d := DocumentFound(s);
    TreeShort(d.tree);
  }
}
