/** The recursive-descent parser: an object that advances a position over its input. */
module JsonParser {
  import opened Prelude
  import opened Utf
  import opened JsonValue
  import opened JsonGrammar

  /** A call's result and the position it leaves agree with the grammar. */
  ghost predicate Agrees<T>(spec: Parsed<T>, r: Result<T, JsonError>, position: nat) {
    match spec
    case Good(v, next) => r == Ok(v) && position == next
    case Bad(e) => r == Err(e)
  }

  class Parser {
    const input: Bytes
    var position: nat

    constructor (input: Bytes)
      ensures this.input == input && position == 0
    {
      this.input := input;
      position := 0;
    }

    method Document() returns (r: Result<Value, JsonError>)
      requires position == 0
      modifies this
      ensures r == ParseDocument(input)
    {
      Spaces();
      r := ValueAt();
      if r.Err? {
        return;
      }
      Spaces();
      if position != |input| {
        return Err(Syntax);
      }
    }

    method Spaces()
      requires position <= |input|
      modifies this
      ensures position == SkipSpace(input, old(position))
    {
      while position < |input|
        invariant old(position) <= position <= |input|
        invariant SkipSpace(input, old(position)) == SkipSpace(input, position)
      {
        if !IsSpace(input[position]) {
          break;
        }
        position := position + 1;
      }
    }

    method ValueAt() returns (r: Result<Value, JsonError>)
      requires position <= |input|
      modifies this
      ensures position <= |input|
      ensures Agrees(ParseValue(input, old(position)), r, position)
      decreases |input| - position, 0
    {
      if position >= |input| {
        return Err(Syntax);
      }
      var b := input[position];
      if b == 110 {
        r := LiteralAt(NULL_TEXT, Null);
      } else if b == 116 {
        r := LiteralAt(TRUE_TEXT, Bool(true));
      } else if b == 102 {
        r := LiteralAt(FALSE_TEXT, Bool(false));
      } else if b == 34 {
        var text := StringAt();
        if text.Err? {
          return Err(text.error);
        }
        return Ok(Text(text.value));
      } else if b == 91 {
        position := position + 1;
        Spaces();
        r := ArrayAt();
      } else if b == 123 {
        position := position + 1;
        Spaces();
        r := ObjectAt();
      } else if b == 45 || IsDigit(b) {
        r := NumberAt();
      } else {
        r := Err(Syntax);
      }
    }

    method LiteralAt(literal: Bytes, v: Value) returns (r: Result<Value, JsonError>)
      requires position <= |input|
      modifies this
      ensures position <= |input|
      ensures Agrees(Literal(input, old(position), literal, v), r, position)
    {
      if !At(input, position, literal) {
        return Err(Syntax);
      }
      position := position + |literal|;
      return Ok(v);
    }

    method HexAt() returns (r: Result<nat, JsonError>)
      requires position <= |input|
      modifies this
      ensures position <= |input|
      ensures Agrees(Hex4(input, old(position)), r, position)
    {
      if position + 4 > |input| {
        return Err(BadUnicode);
      }
      ghost var start := position;
      var value := 0;
      for digitIndex := 0 to 4
        invariant position == start + digitIndex <= |input|
        invariant HexFold(input, start, start + 4, 0) == HexFold(input, position, start + 4, value)
      {
        var d := HexDigit(input[position]);
        position := position + 1;
        if d.None? {
          return Err(BadUnicode);
        }
        value := value * 16 + d.value;
      }
      return Ok(value);
    }

    method UnicodeAt() returns (r: Result<nat, JsonError>)
      requires position <= |input|
      modifies this
      ensures position <= |input|
      ensures Agrees(UnicodeEscape(input, old(position)), r, position)
    {
      var first := HexAt();
      if first.Err? {
        return first;
      }
      var codePoint := first.value;
      if codePoint >= 0xD800 && codePoint <= 0xDBFF {
        if position + 2 > |input| || input[position] != 92 || input[position + 1] != 117 {
          return Err(BadUnicode);
        }
        position := position + 2;
        var second := HexAt();
        if second.Err? {
          return second;
        }
        if second.value < 0xDC00 || second.value > 0xDFFF {
          return Err(BadUnicode);
        }
        codePoint := 0x10000 + (codePoint - 0xD800) * 1024 + (second.value - 0xDC00);
      } else if codePoint >= 0xDC00 && codePoint <= 0xDFFF {
        return Err(BadUnicode);
      }
      return Ok(codePoint);
    }

    method StringAt() returns (r: Result<Bytes, JsonError>)
      requires position < |input|
      modifies this
      ensures position <= |input|
      ensures Agrees(StringRest(input, old(position) + 1, []), r, position)
    {
      hide UnicodeEscape, SimpleEscape;
      ghost var start := position + 1;
      position := position + 1;
      var output: Bytes := [];
      while position < |input|
        invariant start <= position <= |input|
        invariant StringRest(input, start, []) == StringRest(input, position, output)
      {
        var b := input[position];
        position := position + 1;
        if b == 34 {
          var decoded := DecodeUtf8(output);
          if decoded.None? {
            return Err(BadUtf8);
          }
          return Ok(output);
        }
        if b < 32 {
          return Err(BadString);
        }
        if b != 92 {
          output := output + [b];
          continue;
        }
        if position >= |input| {
          return Err(BadString);
        }
        var escaped := input[position];
        position := position + 1;
        if escaped == 117 {
          var unicode := UnicodeAt();
          if unicode.Err? {
            return Err(unicode.error);
          }
          var ok;
          ok, output := AppendUtf8(output, unicode.value);
        } else {
          var simple := SimpleEscape(escaped);
          if simple.None? {
            return Err(BadString);
          }
          output := output + [simple.value];
        }
      }
      return Err(BadString);
    }

    /** After the opening bracket and any space. */
    method ArrayAt() returns (r: Result<Value, JsonError>)
      requires position <= |input|
      modifies this
      ensures position <= |input|
      ensures Agrees(
        if old(position) < |input| && input[old(position)] == 93 then Good(Array([]), old(position) + 1)
        else ArrayRest(input, old(position), []), r, position)
      decreases |input| - position, 3
    {
      hide ParseValue;
      ghost var start := position;
      var items: seq<Value> := [];
      if position < |input| && input[position] == 93 {
        position := position + 1;
        return Ok(Array(items));
      }
      while true
        invariant start <= position <= |input|
        invariant ArrayRest(input, start, []) == ArrayRest(input, position, items)
        decreases |input| - position
      {
        r := ValueAt();
        if r.Err? {
          return;
        }
        items := items + [r.value];
        Spaces();
        if position >= |input| {
          return Err(Syntax);
        }
        if input[position] == 93 {
          position := position + 1;
          return Ok(Array(items));
        }
        if input[position] != 44 {
          return Err(Syntax);
        }
        position := position + 1;
        Spaces();
      }
    }

    method MemberAt() returns (r: Result<(Bytes, Value), JsonError>)
      requires position <= |input|
      modifies this
      ensures position <= |input|
      ensures Agrees(ParseMember(input, old(position)), r, position)
      decreases |input| - position, 1
    {
      if position >= |input| || input[position] != 34 {
        return Err(Syntax);
      }
      var key := StringAt();
      if key.Err? {
        return Err(key.error);
      }
      Spaces();
      if position >= |input| || input[position] != 58 {
        return Err(Syntax);
      }
      position := position + 1;
      Spaces();
      var value := ValueAt();
      if value.Err? {
        return Err(value.error);
      }
      return Ok((key.value, value.value));
    }

    /** After the opening brace and any space. */
    method ObjectAt() returns (r: Result<Value, JsonError>)
      requires position <= |input|
      modifies this
      ensures position <= |input|
      ensures Agrees(
        if old(position) < |input| && input[old(position)] == 125 then Good(Object(map[]), old(position) + 1)
        else ObjectRest(input, old(position), map[]), r, position)
      decreases |input| - position, 3
    {
      hide ParseMember, SkipSpace;
      ghost var start := position;
      var members: map<Bytes, Value> := map[];
      if position < |input| && input[position] == 125 {
        position := position + 1;
        return Ok(Object(members));
      }
      while true
        invariant start <= position <= |input|
        invariant ObjectRest(input, start, map[]) == ObjectRest(input, position, members)
        decreases |input| - position
      {
        var member := MemberAt();
        if member.Err? {
          return Err(member.error);
        }
        var (name, value) := member.value;
        if name in members {
          return Err(DuplicateMember);
        }
        members := members[name := value];
        Spaces();
        if position >= |input| {
          return Err(Syntax);
        }
        if input[position] == 125 {
          position := position + 1;
          return Ok(Object(members));
        }
        if input[position] != 44 {
          return Err(Syntax);
        }
        position := position + 1;
        Spaces();
      }
    }

    method IntegerAt() returns (r: Result<(), JsonError>)
      requires position < |input|
      modifies this
      ensures position <= |input|
      ensures Agrees(IntegerPart(input, old(position)), r, position)
    {
      ghost var first := position;
      if input[position] == 48 {
        position := position + 1;
        if position < |input| && IsDigit(input[position]) {
          return Err(Syntax);
        }
      } else if input[position] >= 49 && input[position] <= 57 {
        while position < |input| && IsDigit(input[position])
          invariant first <= position <= |input|
          invariant SkipDigits(input, first) == SkipDigits(input, position)
          decreases |input| - position
        {
          position := position + 1;
        }
      } else {
        return Err(Syntax);
      }
      return Ok(());
    }

    method NumberAt() returns (r: Result<Value, JsonError>)
      requires position < |input|
      modifies this
      ensures position <= |input|
      ensures Agrees(ParseNumber(input, old(position)), r, position)
    {
      hide IntegerPart, DecimalValue;
      var begin := position;
      if input[position] == 45 {
        position := position + 1;
        if position >= |input| {
          return Err(Syntax);
        }
      }
      var first := position;
      var part := IntegerAt();
      if part.Err? {
        return Err(part.error);
      }
      if position < |input| && (input[position] == 46 || input[position] == 101 || input[position] == 69) {
        return Err(Binary64);
      }
      var digits := input[first..position];
      assert forall k :: 0 <= k < |digits| ==> digits[k] == input[first + k];
      var n := DecimalValue(digits);
      if begin < first {
        if n > 0x8000_0000_0000_0000 {
          return Err(IntegerRange);
        }
        return Ok(Number(SignedInteger, input[begin..position], -(n as int)));
      }
      if n > U64_MAX {
        return Err(IntegerRange);
      }
      return Ok(Number(UnsignedInteger, input[begin..position], n));
    }
  }

  /** The public entry point. */
  method Parse(input: Bytes) returns (r: Result<Value, JsonError>)
    ensures r == ParseDocument(input)
    ensures r.Ok? ==> Canonical(r.value).Some?
  {
    var parser := new Parser(input);
    r := parser.Document();
    if r.Ok? {
      ParsedIsPrintable(input, SkipSpace(input, 0));
      CanonicalDefined(r.value);
    }
  }
}
