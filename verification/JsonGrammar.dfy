/**
 What the recursive-descent parser accepts, as functions of the text and a position.
 The parser class is proved against these functions.
 */
module JsonGrammar {
  import opened Prelude
  import opened Utf
  import opened JsonValue

  /** Error rules; paths and messages are not modelled. */
  datatype JsonError =
    | Syntax          // JSON-PARSE
    | BadString       // JSON-STRING
    | BadUnicode      // JSON-UNICODE
    | BadUtf8         // JCS-UTF8
    | DuplicateMember // JSON-DUPLICATE-KEY
    | IntegerRange    // JCS-I64-RANGE
    | Binary64        // a fraction or exponent follows: outside the model

  datatype Parsed<+T> = Good(value: T, next: nat) | Bad(error: JsonError)

  predicate IsSpace(b: byte) { b == 32 || b == 9 || b == 10 || b == 13 }

  predicate IsDigit(b: byte) { 48 <= b <= 57 }

  function SkipSpace(s: Bytes, i: nat): (j: nat)
    requires i <= |s|
    ensures i <= j <= |s|
    decreases |s| - i
  {
    if i < |s| && IsSpace(s[i]) then SkipSpace(s, i + 1) else i
  }

  function SkipDigits(s: Bytes, i: nat): (j: nat)
    requires i <= |s|
    ensures i <= j <= |s|
    ensures forall k :: i <= k < j ==> IsDigit(s[k])
    ensures j < |s| ==> !IsDigit(s[j])
    decreases |s| - i
  {
    if i < |s| && IsDigit(s[i]) then SkipDigits(s, i + 1) else i
  }

  function Literal(s: Bytes, i: nat, literal: Bytes, v: Value): Parsed<Value> {
    if At(s, i, literal) then Good(v, i + |literal|) else Bad(Syntax)
  }

  // ---------------------------------------------------------------- strings

  function HexDigit(b: byte): (r: Option<nat>)
    ensures r.Some? ==> r.value < 16
  {
    if 48 <= b <= 57 then Some(b - 48)
    else if 97 <= b <= 102 then Some(b - 87)
    else if 65 <= b <= 70 then Some(b - 55)
    else None
  }

  /** Folds hexadecimal digits s[i..end] into `acc`. */
  function HexFold(s: Bytes, i: nat, end: nat, acc: nat): Option<nat>
    requires i <= end <= |s|
    decreases end - i
  {
    if i == end then Some(acc)
    else
      var d := HexDigit(s[i]);
      if d.None? then None else HexFold(s, i + 1, end, acc * 16 + d.value)
  }

  function Hex4(s: Bytes, i: nat): (r: Parsed<nat>)
    ensures r.Good? ==> r.next == i + 4 <= |s|
  {
    if i + 4 > |s| then Bad(BadUnicode)
    else
      var v := HexFold(s, i, i + 4, 0);
      if v.None? then Bad(BadUnicode) else Good(v.value, i + 4)
  }

  lemma Hex4Value(s: Bytes, i: nat)
    requires Hex4(s, i).Good?
    ensures Hex4(s, i).value < 0x10000
  {
    var a, b, c, d := HexDigit(s[i]), HexDigit(s[i + 1]), HexDigit(s[i + 2]), HexDigit(s[i + 3]);
    assert HexFold(s, i, i + 4, 0) == HexFold(s, i + 1, i + 4, a.value);
    assert HexFold(s, i + 1, i + 4, a.value) == HexFold(s, i + 2, i + 4, a.value * 16 + b.value);
    assert HexFold(s, i + 2, i + 4, a.value * 16 + b.value)
        == HexFold(s, i + 3, i + 4, (a.value * 16 + b.value) * 16 + c.value);
  }

  /** The code point of a \u escape whose digits start at `i`. */
  function UnicodeEscape(s: Bytes, i: nat): (r: Parsed<nat>)
    ensures r.Good? ==> i < r.next <= |s| && IsScalar(r.value)
  {
    var first := Hex4(s, i);
    if first.Bad? then Bad(first.error)
    else
      Hex4Value(s, i);
      if 0xD800 <= first.value <= 0xDBFF then
        var j := first.next;
        if j + 2 > |s| || s[j] != 92 || s[j + 1] != 117 then Bad(BadUnicode)
        else
          var second := Hex4(s, j + 2);
          if second.Bad? then Bad(second.error)
          else if second.value < 0xDC00 || second.value > 0xDFFF then Bad(BadUnicode)
          else Good(JoinSurrogates(first.value, second.value), second.next)
      else if 0xDC00 <= first.value <= 0xDFFF then Bad(BadUnicode)
      else Good(first.value, first.next)
  }

  /** The byte a one-character escape stands for. */
  function SimpleEscape(b: byte): Option<byte> {
    if b == 34 || b == 92 || b == 47 then Some(b)
    else if b == 98 then Some(8)
    else if b == 102 then Some(12)
    else if b == 110 then Some(10)
    else if b == 114 then Some(13)
    else if b == 116 then Some(9)
    else None
  }

  /** The rest of a string whose decoded part so far is `output`. */
  function StringRest(s: Bytes, i: nat, output: Bytes): (r: Parsed<Bytes>)
    requires i <= |s|
    ensures r.Good? ==> i < r.next <= |s| && WellFormed(r.value)
    decreases |s| - i
  {
    if i >= |s| then Bad(BadString)
    else if s[i] == 34 then
      if WellFormed(output) then Good(output, i + 1) else Bad(BadUtf8)
    else if s[i] < 32 then Bad(BadString)
    else if s[i] != 92 then StringRest(s, i + 1, output + [s[i]])
    else if i + 1 >= |s| then Bad(BadString)
    else if s[i + 1] == 117 then
      var u := UnicodeEscape(s, i + 2);
      if u.Bad? then Bad(u.error) else StringRest(s, u.next, output + Encode(u.value).value)
    else
      var e := SimpleEscape(s[i + 1]);
      if e.None? then Bad(BadString) else StringRest(s, i + 2, output + [e.value])
  }

  // ---------------------------------------------------------------- numbers

  function DecimalValue(digits: Bytes): nat
    requires forall k :: 0 <= k < |digits| ==> IsDigit(digits[k])
  {
    if digits == [] then 0
    else
      assert IsDigit(digits[|digits| - 1]);
      DecimalValue(digits[..|digits| - 1]) * 10 + (digits[|digits| - 1] as int - 48)
  }

  /** End of the integer part that starts at `i`, or an error. */
  function IntegerPart(s: Bytes, i: nat): (r: Parsed<()>)
    requires i < |s|
    ensures r.Good? ==> i < r.next <= |s| && forall k :: i <= k < r.next ==> IsDigit(s[k])
  {
    if s[i] == 48 then
      if i + 1 < |s| && IsDigit(s[i + 1]) then Bad(Syntax) else Good((), i + 1)
    else if 49 <= s[i] <= 57 then Good((), SkipDigits(s, i))
    else Bad(Syntax)
  }

  function ParseNumber(s: Bytes, i: nat): (r: Parsed<Value>)
    requires i < |s|
    ensures r.Good? ==> i < r.next <= |s| && Fits(r.value) && WellFormedTexts(r.value)
  {
    var negative := s[i] == 45;
    var start := if negative then i + 1 else i;
    if start >= |s| then Bad(Syntax)
    else
      var part := IntegerPart(s, start);
      if part.Bad? then Bad(part.error)
      else
        var j := part.next;
        if j < |s| && (s[j] == 46 || s[j] == 101 || s[j] == 69) then Bad(Binary64)
        else
          var digits := s[start..j];
          assert forall k :: 0 <= k < |digits| ==> digits[k] == s[start + k];
          var n := DecimalValue(digits);
          if negative then
            if n > 0x8000_0000_0000_0000 then Bad(IntegerRange)
            else Good(Number(SignedInteger, s[i..j], -(n as int)), j)
          else if n > U64_MAX then Bad(IntegerRange)
          else Good(Number(UnsignedInteger, s[i..j], n), j)
  }

  // ---------------------------------------------------------------- values

  function ParseValue(s: Bytes, i: nat): (r: Parsed<Value>)
    requires i <= |s|
    ensures r.Good? ==> i < r.next <= |s|
    decreases |s| - i, 0
  {
    if i >= |s| then Bad(Syntax)
    else if s[i] == 110 then Literal(s, i, NULL_TEXT, Null)
    else if s[i] == 116 then Literal(s, i, TRUE_TEXT, Bool(true))
    else if s[i] == 102 then Literal(s, i, FALSE_TEXT, Bool(false))
    else if s[i] == 34 then
      var t := StringRest(s, i + 1, []);
      if t.Bad? then Bad(t.error) else Good(Text(t.value), t.next)
    else if s[i] == 91 then
      var j := SkipSpace(s, i + 1);
      if j < |s| && s[j] == 93 then Good(Array([]), j + 1) else ArrayRest(s, j, [])
    else if s[i] == 123 then
      var j := SkipSpace(s, i + 1);
      if j < |s| && s[j] == 125 then Good(Object(map[]), j + 1) else ObjectRest(s, j, map[])
    else if s[i] == 45 || IsDigit(s[i]) then ParseNumber(s, i)
    else Bad(Syntax)
  }

  /** Items from `i` on, after `items` have been read. */
  function ArrayRest(s: Bytes, i: nat, items: seq<Value>): (r: Parsed<Value>)
    requires i <= |s|
    ensures r.Good? ==> i < r.next <= |s|
    decreases |s| - i, 1
  {
    var v := ParseValue(s, i);
    if v.Bad? then Bad(v.error)
    else
      var j := SkipSpace(s, v.next);
      if j >= |s| then Bad(Syntax)
      else if s[j] == 93 then Good(Array(items + [v.value]), j + 1)
      else if s[j] != 44 then Bad(Syntax)
      else ArrayRest(s, SkipSpace(s, j + 1), items + [v.value])
  }

  /** One member: name, colon, value. */
  function ParseMember(s: Bytes, i: nat): (r: Parsed<(Bytes, Value)>)
    requires i <= |s|
    ensures r.Good? ==> i < r.next <= |s| && WellFormed(r.value.0)
    decreases |s| - i, 1
  {
    if i >= |s| || s[i] != 34 then Bad(Syntax)
    else
      var key := StringRest(s, i + 1, []);
      if key.Bad? then Bad(key.error)
      else
        var c := SkipSpace(s, key.next);
        if c >= |s| || s[c] != 58 then Bad(Syntax)
        else
          var v := ParseValue(s, SkipSpace(s, c + 1));
          if v.Bad? then Bad(v.error) else Good((key.value, v.value), v.next)
  }

  /** Members from `i` on, after `members` have been read. */
  function ObjectRest(s: Bytes, i: nat, members: map<Bytes, Value>): (r: Parsed<Value>)
    requires i <= |s|
    ensures r.Good? ==> i < r.next <= |s|
    decreases |s| - i, 2
  {
    var m := ParseMember(s, i);
    if m.Bad? then Bad(m.error)
    else if m.value.0 in members then Bad(DuplicateMember)
    else
      var j := SkipSpace(s, m.next);
      if j >= |s| then Bad(Syntax)
      else if s[j] == 125 then Good(Object(members[m.value.0 := m.value.1]), j + 1)
      else if s[j] != 44 then Bad(Syntax)
      else ObjectRest(s, SkipSpace(s, j + 1), members[m.value.0 := m.value.1])
  }

  function ParseDocument(s: Bytes): Result<Value, JsonError> {
    var v := ParseValue(s, SkipSpace(s, 0));
    if v.Bad? then Err(v.error)
    else if SkipSpace(s, v.next) != |s| then Err(Syntax)
    else Ok(v.value)
  }

  /** The values canonicalization is meant for. */
  ghost predicate Printable(v: Value) { Fits(v) && WellFormedTexts(v) }

  lemma AddItem(items: seq<Value>, v: Value)
    requires Printable(Array(items)) && Printable(v)
    ensures Printable(Array(items + [v]))
  {
  }

  lemma AddMember(members: map<Bytes, Value>, key: Bytes, v: Value)
    requires Printable(Object(members)) && Printable(v) && WellFormed(key)
    ensures Printable(Object(members[key := v]))
  {
  }

  /** Whatever the parser accepts holds 64-bit integers and well-formed texts only. */
  lemma {:induction false} ParsedIsPrintable(s: Bytes, i: nat)
    requires i <= |s| && ParseValue(s, i).Good?
    ensures Printable(ParseValue(s, i).value)
    decreases |s| - i, 0
  {
    if s[i] == 91 {
      var j := SkipSpace(s, i + 1);
      if !(j < |s| && s[j] == 93) {
        ArrayIsPrintable(s, j, []);
      }
    } else if s[i] == 123 {
      var j := SkipSpace(s, i + 1);
      if !(j < |s| && s[j] == 125) {
        ObjectIsPrintable(s, j, map[]);
      }
    }
  }

  lemma {:induction false} ArrayIsPrintable(s: Bytes, i: nat, items: seq<Value>)
    requires i <= |s| && ArrayRest(s, i, items).Good? && Printable(Array(items))
    ensures Printable(ArrayRest(s, i, items).value)
    decreases |s| - i, 1
  {
    ParsedIsPrintable(s, i);
    var v := ParseValue(s, i);
    AddItem(items, v.value);
    var j := SkipSpace(s, v.next);
    if s[j] != 93 {
      ArrayIsPrintable(s, SkipSpace(s, j + 1), items + [v.value]);
    }
  }

  lemma {:induction false} MemberIsPrintable(s: Bytes, i: nat)
    requires i <= |s| && ParseMember(s, i).Good?
    ensures Printable(ParseMember(s, i).value.1)
    decreases |s| - i, 1
  {
    var key := StringRest(s, i + 1, []);
    var c := SkipSpace(s, key.next);
    ParsedIsPrintable(s, SkipSpace(s, c + 1));
  }

  lemma {:induction false} ObjectIsPrintable(s: Bytes, i: nat, members: map<Bytes, Value>)
    requires i <= |s| && ObjectRest(s, i, members).Good? && Printable(Object(members))
    ensures Printable(ObjectRest(s, i, members).value)
    decreases |s| - i, 2
  {
    MemberIsPrintable(s, i);
    var m := ParseMember(s, i);
    AddMember(members, m.value.0, m.value.1);
    var j := SkipSpace(s, m.next);
    if s[j] != 125 {
      ObjectIsPrintable(s, SkipSpace(s, j + 1), members[m.value.0 := m.value.1]);
    }
  }
}
