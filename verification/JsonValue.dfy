/**
 JSON values and their canonical text (RFC 8785 ordering and escaping, exact 64-bit
 integers). Numbers with a fraction or an exponent are outside the model.
 */
module JsonValue {
  import opened Prelude
  import opened Sorting
  import opened Utf

  // Text is bytes: 34 is a quote, 44 a comma, 45 a minus sign, 58 a colon, 91 and 93 brackets,
  // 92 a backslash, 117 a lower-case u, 123 and 125 braces.

  const NULL_TEXT: Bytes := [110, 117, 108, 108]
  const TRUE_TEXT: Bytes := [116, 114, 117, 101]
  const FALSE_TEXT: Bytes := [102, 97, 108, 115, 101]

  datatype Kind = SignedInteger | UnsignedInteger

  datatype Value =
    | Null
    | Bool(flag: bool)
    | Number(kind: Kind, lexeme: Bytes, value: int)
    | Text(text: Bytes)
    | Array(items: seq<Value>)
    | Object(members: map<Bytes, Value>)

  /** The number variants hold 64-bit integers of their declared signedness. */
  ghost predicate Fits(v: Value) {
    match v
    case Number(SignedInteger, _, n) => -0x8000_0000_0000_0000 <= n < 0x8000_0000_0000_0000
    case Number(UnsignedInteger, _, n) => 0 <= n <= U64_MAX
    case Array(items) => forall k :: 0 <= k < |items| ==> Fits(items[k])
    case Object(members) => forall key :: key in members ==> Fits(members[key])
    case _ => true
  }

  /** Every string and member name is well-formed UTF-8. */
  ghost predicate WellFormedTexts(v: Value) {
    match v
    case Text(t) => WellFormed(t)
    case Array(items) => forall k :: 0 <= k < |items| ==> WellFormedTexts(items[k])
    case Object(members) =>
      forall key :: key in members ==> WellFormed(key) && WellFormedTexts(members[key])
    case _ => true
  }

  // ---------------------------------------------------------------- integers

  function Digits(n: nat): (r: Bytes)
    ensures |r| >= 1
  {
    if n < 10 then [48 + n] else Digits(n / 10) + [48 + n % 10]
  }

  function IntegerText(n: int): Bytes {
    if n < 0 then [45] + Digits(-n) else Digits(n)
  }

  /** The number a parse of the canonical text yields: kind and lexeme made canonical. */
  function CanonicalNumber(n: int): Value {
    Number(if n < 0 then SignedInteger else UnsignedInteger, IntegerText(n), n)
  }

  function Normalize(v: Value): Value {
    match v
    case Number(_, _, n) => CanonicalNumber(n)
    case Array(items) => Array(seq(|items|, k requires 0 <= k < |items| => Normalize(items[k])))
    case Object(members) => Object(map key | key in members :: Normalize(members[key]))
    case _ => v
  }

  // ---------------------------------------------------------------- strings

  function HexChar(d: nat): byte
    requires d < 16
  {
    if d < 10 then 48 + d else 87 + d
  }

  /** Canonical form of one byte inside a string. */
  function Escape(b: byte): Bytes {
    if b == 34 then [92, 34]
    else if b == 92 then [92, 92]
    else if b == 8 then [92, 98]
    else if b == 9 then [92, 116]
    else if b == 10 then [92, 110]
    else if b == 12 then [92, 102]
    else if b == 13 then [92, 114]
    else if b < 32 then [92, 117, 48, 48, HexChar(b / 16), HexChar(b % 16)]
    else [b]
  }

  function EscapeFrom(t: Bytes, k: nat): Bytes
    requires k <= |t|
    decreases |t| - k
  {
    if k == |t| then [] else Escape(t[k]) + EscapeFrom(t, k + 1)
  }

  function QuotedText(t: Bytes): Bytes { [34] + EscapeFrom(t, 0) + [34] }

  // ---------------------------------------------------------------- member order

  function KeyOf(name: Bytes): seq<nat> {
    var key := Utf16Key(name);
    if key.Some? then key.value else []
  }

  /** Members are compared by UTF-16 code units. */
  predicate NameLe(a: Bytes, b: Bytes) { LexLe(KeyOf(a), KeyOf(b)) }

  lemma NameOrder()
    ensures TotalPreorder(NameLe)
  {
    forall x, y ensures NameLe(x, y) || NameLe(y, x) {
      LexTotal(KeyOf(x), KeyOf(y));
    }
    forall x, y, z | Chain(NameLe, x, y, z) ensures NameLe(x, z) {
      LexTransitive(KeyOf(x), KeyOf(y), KeyOf(z));
    }
  }

  /** `names` lists the set once each. */
  ghost predicate Lists(names: seq<Bytes>, keys: set<Bytes>) {
    multiset(names) == multiset(keys)
  }

  lemma {:induction false} ListExists(keys: set<Bytes>) returns (names: seq<Bytes>)
    ensures Lists(names, keys)
  {
    if keys == {} {
      names := [];
    } else {
      var key :| key in keys;
      var rest := ListExists(keys - {key});
      names := [key] + rest;
      assert multiset(keys) == multiset{key} + multiset(keys - {key});
    }
  }

  ghost predicate InOrder(names: seq<Bytes>, keys: set<Bytes>) {
    Lists(names, keys) && Ordered(NameLe, names)
  }

  lemma OrderExists(keys: set<Bytes>)
    ensures exists names :: InOrder(names, keys)
  {
    var names := ListExists(keys);
    NameOrder();
    SortSorts(NameLe, names);
    assert InOrder(Sort(NameLe, names), keys);
  }

  ghost function OrderedNames(keys: set<Bytes>): (names: seq<Bytes>)
    ensures InOrder(names, keys)
  {
    OrderExists(keys);
    var names :| InOrder(names, keys);
    names
  }

  lemma ListedMembers(names: seq<Bytes>, keys: set<Bytes>)
    requires Lists(names, keys)
    ensures forall k :: 0 <= k < |names| ==> names[k] in keys
    ensures forall key :: key in keys ==> key in names
    ensures forall j, k :: 0 <= j < k < |names| ==> names[j] != names[k]
  {
    forall k | 0 <= k < |names| ensures names[k] in keys {
      assert names[k] in multiset(names);
      assert names[k] in multiset(keys);
    }
    forall key | key in keys ensures key in names {
      assert key in multiset(keys);
      assert key in multiset(names);
    }
    forall j, k | 0 <= j < k < |names| ensures names[j] != names[k] {
      assert names == names[..k] + names[k..];
      assert names[..k][j] == names[j] && names[k..][0] == names[k];
      assert multiset(names) == multiset(names[..k]) + multiset(names[k..]);
      assert names[j] in multiset(names[..k]) && names[k] in multiset(names[k..]);
      assert names[j] == names[k] ==> multiset(names)[names[j]] >= 2;
      assert multiset(keys)[names[j]] <= 1;
    }
  }

  /**
   Whatever order a container hands its members out in, sorting them by UTF-16 key yields
   the same sequence: canonical text depends on the object only as a map.
   */
  lemma SortedOrderIsUnique(names: seq<Bytes>, keys: set<Bytes>)
    requires Lists(names, keys) && forall key :: key in keys ==> WellFormed(key)
    ensures Sort(NameLe, names) == OrderedNames(keys)
  {
    NameOrder();
    SortSorts(NameLe, names);
    var a, b := Sort(NameLe, names), OrderedNames(keys);
    forall x, y | x in a && y in a && NameLe(x, y) && NameLe(y, x)
      ensures x == y
    {
      assert x in multiset(a) && y in multiset(a);
      assert x in multiset(keys) && y in multiset(keys);
      LexTotal(KeyOf(x), KeyOf(y));
      Utf16KeyInjective(x, y);
    }
    OrderedUnique(NameLe, a, b);
  }

  /**
   Members ascend: of any two, the earlier one's UTF-16 units end first or have the smaller unit at
   the first place where the two differ.
   */
  lemma NamesAscend(keys: set<Bytes>, j: nat, k: nat) returns (a: seq<nat>, b: seq<nat>, p: nat)
    requires forall key :: key in keys ==> WellFormed(key)
    requires j < k < |OrderedNames(keys)|
    ensures Utf16Key(OrderedNames(keys)[j]) == Some(a) && Utf16Key(OrderedNames(keys)[k]) == Some(b)
    ensures p <= |a| && p < |b| && a[..p] == b[..p] && (p == |a| || a[p] < b[p])
  {
    var names := OrderedNames(keys);
    ListedMembers(names, keys);
    a, b := KeyOf(names[j]), KeyOf(names[k]);
    assert NameLe(names[j], names[k]);
    if a == b {
      Utf16KeyInjective(names[j], names[k]);
    }
    LexDiffers(a, b);
    p :| FirstDifference(a, b, p);
  }

  // ---------------------------------------------------------------- canonical text

  function Join(first: Option<Bytes>, rest: Option<Bytes>): Option<Bytes> {
    if first.None? || rest.None? then None else Some(first.value + rest.value)
  }

  function Separator(k: nat): Bytes { if k == 0 then [] else [44] }

  ghost function Canonical(v: Value): Option<Bytes>
    decreases v
  {
    match v
    case Null => Some(NULL_TEXT)
    case Bool(flag) => Some(if flag then TRUE_TEXT else FALSE_TEXT)
    case Number(_, _, n) => Some(IntegerText(n))
    case Text(t) => if WellFormed(t) then Some(QuotedText(t)) else None
    case Array(items) =>
      var body := ItemsText(v, 0);
      if body.None? then None else Some([91] + body.value + [93])
    case Object(members) =>
      if exists key :: key in members && !WellFormed(key) then None
      else
        var names := OrderedNames(members.Keys);
        ListedMembers(names, members.Keys);
        var body := MembersText(v, names, 0);
        if body.None? then None else Some([123] + body.value + [125])
  }

  /** Items k.. of an array with their separators. */
  ghost function ItemsText(v: Value, k: nat): Option<Bytes>
    requires v.Array? && k <= |v.items|
    decreases v, |v.items| - k
  {
    if k == |v.items| then Some([])
    else Join(Join(Some(Separator(k)), Canonical(v.items[k])), ItemsText(v, k + 1))
  }

  /** Members k.. of an object in the order `names`. */
  ghost function MembersText(v: Value, names: seq<Bytes>, k: nat): Option<Bytes>
    requires v.Object? && k <= |names|
    requires forall j :: 0 <= j < |names| ==> names[j] in v.members
    decreases v, |names| - k
  {
    if k == |names| then Some([])
    else Join(Join(Some(Separator(k) + QuotedText(names[k]) + [58]), Canonical(v.members[names[k]])),
              MembersText(v, names, k + 1))
  }

  lemma CanonicalObject(v: Value, names: seq<Bytes>)
    requires v.Object? && names == OrderedNames(v.members.Keys)
    requires forall key :: key in v.members ==> WellFormed(key)
    ensures forall j :: 0 <= j < |names| ==> names[j] in v.members
    ensures Canonical(v) == var body := MembersText(v, names, 0);
                            if body.None? then None else Some([123] + body.value + [125])
  {
    ListedMembers(names, v.members.Keys);
  }

  /** Canonicalization succeeds exactly when every text is well-formed UTF-8. */
  lemma {:induction false} CanonicalDefined(v: Value)
    ensures Canonical(v).Some? <==> WellFormedTexts(v)
    decreases v, 2
  {
    match v
    case Array(items) => ItemsDefined(v, 0);
    case Object(members) => ObjectDefined(v);
    case _ =>
  }

  lemma {:induction false} ObjectDefined(v: Value)
    requires v.Object?
    ensures Canonical(v).Some? <==> WellFormedTexts(v)
    decreases v, 1
  {
    var members := v.members;
    if forall key :: key in members ==> WellFormed(key) {
      var names := OrderedNames(members.Keys);
      ListedMembers(names, members.Keys);
      CanonicalObject(v, names);
      hide Canonical, OrderedNames, Lists;
      MembersDefined(v, names, 0);
      hide MembersText;
      if !WellFormedTexts(v) {
        var key :| key in members && !WellFormedTexts(members[key]);
        assert key in names;
      }
    }
  }

  lemma {:induction false} ItemsDefined(v: Value, k: nat)
    requires v.Array? && k <= |v.items|
    ensures ItemsText(v, k).Some? <==> forall j :: k <= j < |v.items| ==> WellFormedTexts(v.items[j])
    decreases v, 0, |v.items| - k
  {
    if k < |v.items| {
      CanonicalDefined(v.items[k]);
      ItemsDefined(v, k + 1);
    }
  }

  lemma {:induction false} MembersDefined(v: Value, names: seq<Bytes>, k: nat)
    requires v.Object? && k <= |names|
    requires forall j :: 0 <= j < |names| ==> names[j] in v.members
    ensures MembersText(v, names, k).Some?
       <==> forall j :: k <= j < |names| ==> WellFormedTexts(v.members[names[j]])
    decreases v, 0, |names| - k
  {
    if k < |names| {
      hide Canonical, WellFormedTexts, QuotedText;
      CanonicalDefined(v.members[names[k]]);
      MembersDefined(v, names, k + 1);
      MembersTextCons(v, names, k);
      hide MembersText;
    }
  }

  lemma MembersTextCons(v: Value, names: seq<Bytes>, k: nat)
    requires v.Object? && k < |names| && forall j :: 0 <= j < |names| ==> names[j] in v.members
    ensures MembersText(v, names, k).Some? <==>
      Canonical(v.members[names[k]]).Some? && MembersText(v, names, k + 1).Some?
  {
    hide Canonical, QuotedText;
  }

  /** Kind and lexeme of an integer do not reach the canonical text. */
  lemma {:induction false} CanonicalOfNormalized(v: Value)
    ensures Canonical(Normalize(v)) == Canonical(v)
    decreases v
  {
    match v
    case Array(items) => ItemsOfNormalized(v, 0);
    case Object(members) =>
      var w := Normalize(v);
      assert w.members.Keys == members.Keys;
      if forall key :: key in members ==> WellFormed(key) {
        assert !exists key :: key in w.members && !WellFormed(key);
        var names := OrderedNames(members.Keys);
        ListedMembers(names, members.Keys);
        MembersOfNormalized(v, names, 0);
      } else {
        var key :| key in members && !WellFormed(key);
        assert key in w.members;
      }
    case _ =>
  }

  lemma {:induction false} ItemsOfNormalized(v: Value, k: nat)
    requires v.Array? && k <= |v.items|
    ensures ItemsText(Normalize(v), k) == ItemsText(v, k)
    decreases v, |v.items| - k
  {
    if k < |v.items| {
      CanonicalOfNormalized(v.items[k]);
      ItemsOfNormalized(v, k + 1);
    }
  }

  lemma {:induction false} MembersOfNormalized(v: Value, names: seq<Bytes>, k: nat)
    requires v.Object? && k <= |names|
    requires forall j :: 0 <= j < |names| ==> names[j] in v.members
    ensures MembersText(Normalize(v), names, k) == MembersText(v, names, k)
    decreases v, |names| - k
  {
    if k < |names| {
      CanonicalOfNormalized(v.members[names[k]]);
      MembersOfNormalized(v, names, k + 1);
    }
  }

  // ---------------------------------------------------------------- a published answer

  const PRIVATE_USE: Bytes := [0xEE, 0x80, 0x80]    // U+E000
  const FACE: Bytes := [0xF0, 0x9F, 0x98, 0x80]     // U+1F600

  /** UTF-16 order is not code point order: a surrogate pair comes before U+E000. */
  lemma SurrogatesComeFirst()
    ensures Canonical(Object(map[PRIVATE_USE := CanonicalNumber(1), FACE := CanonicalNumber(2)]))
         == Some([123, 34] + FACE + [34, 58, 50, 44, 34] + PRIVATE_USE + [34, 58, 49, 125])
  {
    var v := Object(map[PRIVATE_USE := CanonicalNumber(1), FACE := CanonicalNumber(2)]);
    var names := OrderedNames(v.members.Keys);
    PublishedKeys();
    PublishedOrder(v.members.Keys, names);
    CanonicalObject(v, names);
    hide Canonical, OrderedNames, Utf16Key, WellFormed, MembersText;
    PublishedMembers(v, names);
    Regrouped(FACE, PRIVATE_USE);
  }

  lemma PublishedKeys()
    ensures WellFormed(PRIVATE_USE) && Utf16Key(PRIVATE_USE) == Some([0xE000])
    ensures WellFormed(FACE) && Utf16Key(FACE) == Some([0xD83D, 0xDE00])
  {
    DecodesAs(PRIVATE_USE, 0xE000);
    DecodesAs(FACE, 0x1F600);
  }

  lemma DecodesAs(t: Bytes, cp: nat)
    requires IsScalar(cp) && Encode(cp) == Some(t)
    ensures WellFormed(t) && Utf16Key(t) == Some(UnitsOf(cp))
  {
    hide Encode, UnitsOf;
    EncodeIs(cp);
    assert t[0..0 + |t|] == t;
    DecodeInvertsEncode(t, 0, cp);
    assert Decode(t, |t|) == Some([]);
    assert [cp] + [] == [cp];
    assert Decode(t, 0) == Some([cp]);
    OneScalar(cp);
  }

  lemma OneScalar(cp: nat)
    ensures Utf16([cp]) == UnitsOf(cp)
  {
    hide UnitsOf;
    assert [cp][1..] == [];
    assert UnitsOf(cp) + [] == UnitsOf(cp);
  }

  lemma PublishedOrder(keys: set<Bytes>, names: seq<Bytes>)
    requires keys == {PRIVATE_USE, FACE} && names == OrderedNames(keys)
    requires WellFormed(PRIVATE_USE) && Utf16Key(PRIVATE_USE) == Some([0xE000])
    requires WellFormed(FACE) && Utf16Key(FACE) == Some([0xD83D, 0xDE00])
    ensures names == [FACE, PRIVATE_USE]
  {
    hide Utf16Key, WellFormed;
    assert PRIVATE_USE[0] != FACE[0];
    assert |names| == |multiset(names)| == |multiset(keys)| == |keys| == 2;
    ListedMembers(names, keys);
    var a, b, p := NamesAscend(keys, 0, 1);
    assert names[0] in keys && names[1] in keys && names[0] != names[1];
    if names[0] == PRIVATE_USE {
      assert false;
    }
  }

  lemma PublishedMembers(v: Value, names: seq<Bytes>)
    requires v == Object(map[PRIVATE_USE := CanonicalNumber(1), FACE := CanonicalNumber(2)])
    requires names == [FACE, PRIVATE_USE]
    ensures MembersText(v, names, 0) == Some([34] + FACE + [34, 58, 50, 44, 34] + PRIVATE_USE + [34, 58, 49])
  {
    RawText(FACE);
    RawText(PRIVATE_USE);
    assert PRIVATE_USE[0] != FACE[0];
    hide QuotedText;
    assert Canonical(v.members[FACE]) == Some([50]) && Canonical(v.members[PRIVATE_USE]) == Some([49]);
    hide Canonical;
    assert MembersText(v, names, 2) == Some([]);
    assert MembersText(v, names, 1) == Some([44] + QuotedText(PRIVATE_USE) + [58] + [49] + []);
    assert MembersText(v, names, 0)
        == Some([] + QuotedText(FACE) + [58] + [50] + MembersText(v, names, 1).value);
    Regrouped(FACE, PRIVATE_USE);
  }

  lemma Regrouped(a: Bytes, b: Bytes)
    ensures [] + ([34] + a + [34]) + [58] + [50] + ([44] + ([34] + b + [34]) + [58] + [49] + [])
         == [34] + a + [34, 58, 50, 44, 34] + b + [34, 58, 49]
    ensures [123] + ([34] + a + [34, 58, 50, 44, 34] + b + [34, 58, 49]) + [125]
         == [123, 34] + a + [34, 58, 50, 44, 34] + b + [34, 58, 49, 125]
  {
  }

  lemma {:induction false} RawText(t: Bytes)
    requires forall k :: 0 <= k < |t| ==> t[k] >= 128
    ensures QuotedText(t) == [34] + t + [34]
  {
    RawFrom(t, 0);
    assert t[0..] == t;
  }

  lemma {:induction false} RawFrom(t: Bytes, k: nat)
    requires k <= |t| && forall j :: 0 <= j < |t| ==> t[j] >= 128
    ensures EscapeFrom(t, k) == t[k..]
    decreases |t| - k
  {
    if k < |t| {
      RawFrom(t, k + 1);
      assert t[k..] == [t[k]] + t[k + 1..];
    }
  }
}
