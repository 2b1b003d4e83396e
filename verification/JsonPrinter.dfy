/** The canonical printer: appends to one output string, in loops. */
module JsonPrinter {
  import opened Prelude
  import opened Sorting
  import opened Utf
  import opened JsonValue

  lemma SliceCons(t: Bytes, k: nat, end: nat)
    requires k < end <= |t|
    ensures t[k..end] == [t[k]] + t[k + 1..end]
  {
  }

  lemma EscapeHigh(b: byte)
    requires b >= 128
    ensures Escape(b) == [b]
  {
  }

  /** Continuation bytes of a well-formed text are copied unescaped. */
  lemma {:induction false} EscapeCopies(t: Bytes, k: nat, end: nat)
    requires k <= end <= |t| && forall j :: k <= j < end ==> t[j] >= 128
    ensures EscapeFrom(t, k) == t[k..end] + EscapeFrom(t, end)
    decreases end - k
  {
    hide Escape;
    if k < end {
      EscapeHigh(t[k]);
      SliceCons(t, k, end);
      EscapeCopies(t, k + 1, end);
      Assoc([t[k]], t[k + 1..end], EscapeFrom(t, end));
    }
  }

  /** A multi-byte step of the decoder covers only bytes with the high bit set. */
  lemma {:induction false} ContinuationBytes(s: Bytes, i: nat, end: nat, acc: nat)
    requires i <= end <= |s| && Continue(s, i, end, acc).Some?
    ensures forall j :: i <= j < end ==> s[j] >= 128
    decreases end - i
  {
    if i < end {
      ContinuationBytes(s, i + 1, end, acc * 64 + s[i] % 64);
    }
  }

  /** The printer's jump over one multi-byte sequence stays in step with the decoder. */
  lemma JumpIsOneScalar(text: Bytes, index: nat)
    requires index < |text| && text[index] >= 128 && Decode(text, index).Some?
    ensures var n := LeadLength(text[index]);
            && 2 <= n <= 4 && index + n <= |text| && Decode(text, index + n).Some?
            && EscapeFrom(text, index) == text[index..index + n] + EscapeFrom(text, index + n)
  {
    var n := LeadLength(text[index]);
    assert DecodeAt(text, index).Some?;
    hide Continue, Escape, IsScalar;
    ContinuationBytes(text, index + 1, index + n, LeadPayload(text[index]));
    EscapeCopies(text, index, index + n);
  }

  lemma PlainIsOneScalar(text: Bytes, index: nat)
    requires index < |text| && text[index] < 128 && Decode(text, index).Some?
    ensures Decode(text, index + 1).Some?
  {
    assert DecodeAt(text, index).Some?;
  }

  /** The escape of a quote, backslash or control byte. */
  method AppendEscape(b: byte, output: Bytes) returns (result: Bytes)
    requires b < 32 || b == 34 || b == 92
    ensures result == output + Escape(b)
  {
    if b == 34 {
      result := output + [92, 34];
    } else if b == 92 {
      result := output + [92, 92];
    } else if b == 8 {
      result := output + [92, 98];
    } else if b == 9 {
      result := output + [92, 116];
    } else if b == 10 {
      result := output + [92, 110];
    } else if b == 12 {
      result := output + [92, 102];
    } else if b == 13 {
      result := output + [92, 114];
    } else {
      result := output + [92, 117, 48, 48];
      result := result + [HexChar(b / 16)];
      result := result + [HexChar(b % 16)];
    }
  }

  lemma MultibyteLength(b: byte)
    requires LeadLength(b) >= 2
    ensures LeadLength(b) == CopyLength(b)
  {
  }

  /** How many bytes the loop copies from a byte that is not ASCII. */
  function CopyLength(b: byte): nat { if b / 16 == 14 then 3 else if b / 8 == 30 then 4 else 2 }

  /** A scalar value of more than one byte is copied. */
  method AppendMultibyte(text: Bytes, index: nat, output: Bytes) returns (next: nat, result: Bytes)
    requires index < |text| && text[index] >= 128 && Decode(text, index).Some?
    ensures index < next <= |text| && Decode(text, next).Some?
    ensures output + EscapeFrom(text, index) == result + EscapeFrom(text, next)
  {
    hide EscapeFrom, Decode, LeadLength, CopyLength;
    JumpIsOneScalar(text, index);
    MultibyteLength(text[index]);
    var length := CopyLength(text[index]);
    Assoc(output, text[index..index + length], EscapeFrom(text, index + length));
    return index + length, output + text[index..index + length];
  }

  lemma EscapeFromStep(text: Bytes, index: nat)
    requires index < |text|
    ensures EscapeFrom(text, index) == Escape(text[index]) + EscapeFrom(text, index + 1)
  {
  }

  lemma PlainEscape(b: byte)
    ensures b >= 32 && b != 34 && b != 92 ==> Escape(b) == [b]
  {
  }

  /** One turn of the string loop: an escape, a plain byte, or a whole multi-byte sequence. */
  method AppendNext(text: Bytes, index: nat, output: Bytes) returns (next: nat, result: Bytes)
    requires index < |text| && Decode(text, index).Some?
    ensures index < next <= |text| && Decode(text, next).Some?
    ensures output + EscapeFrom(text, index) == result + EscapeFrom(text, next)
  {
    hide EscapeFrom, Decode, Escape;
    var b := text[index];
    if b >= 128 {
      next, result := AppendMultibyte(text, index, output);
      return;
    }
    PlainIsOneScalar(text, index);
    EscapeFromStep(text, index);
    Assoc(output, Escape(b), EscapeFrom(text, index + 1));
    PlainEscape(b);
    if b >= 32 && b != 34 && b != 92 {
      return index + 1, output + [b];
    }
    result := AppendEscape(b, output);
    next := index + 1;
  }

  /** Appends the quoted string, skipping whole multi-byte sequences at a time. */
  method AppendString(text: Bytes, output: Bytes) returns (ok: bool, result: Bytes)
    ensures ok <==> WellFormed(text)
    ensures ok ==> result == output + QuotedText(text)
  {
    var decoded := DecodeUtf8(text);
    if decoded.None? {
      return false, output;
    }
    result := output + [34];
    var index := 0;
    while index < |text|
      invariant 0 <= index <= |text|
      invariant Decode(text, index).Some?
      invariant output + [34] + EscapeFrom(text, 0) == result + EscapeFrom(text, index)
    {
      index, result := AppendNext(text, index, result);
    }
    Finish(output, [34], Some(EscapeFrom(text, 0)), result, [34]);
    result := result + [34];
    ok := true;
  }

  /** Appends the canonical text of `v`, or reports an ill-formed string in it. */
  method AppendCanonical(v: Value, output: Bytes) returns (ok: bool, result: Bytes)
    ensures ok <==> Canonical(v).Some?
    ensures ok ==> result == output + Canonical(v).value
    decreases v, 1
  {
    match v
    case Null => return true, output + NULL_TEXT;
    case Bool(flag) => return true, output + (if flag then TRUE_TEXT else FALSE_TEXT);
    case Number(_, _, n) => return true, output + IntegerText(n);
    case Text(t) => ok, result := AppendString(t, output);
    case Array(items) => ok, result := AppendItems(v, output);
    case Object(members) => ok, result := AppendMembers(v, output);
  }

  method AppendItems(v: Value, output: Bytes) returns (ok: bool, result: Bytes)
    requires v.Array?
    ensures ok <==> Canonical(v).Some?
    ensures ok ==> result == output + Canonical(v).value
    decreases v, 0
  {
    result := output + [91];
    ghost var start := result;
    for index := 0 to |v.items|
      invariant Extends(start, ItemsText(v, 0), result, ItemsText(v, index))
    {
      ghost var was := result;
      if index != 0 {
        result := result + [44];
      }
      assert result == was + Separator(index);
      ok, result := AppendCanonical(v.items[index], result);
      if !ok {
        return false, result;
      }
      Extend(was, Separator(index), Canonical(v.items[index]), ItemsText(v, index + 1));
    }
    Finish(output, [91], ItemsText(v, 0), result, [93]);
    result := result + [93];
    ok := true;
  }

  /** Two ways of cutting the same output into a written part and a part to come. */
  ghost predicate Extends(a: Bytes, restA: Option<Bytes>, b: Bytes, restB: Option<Bytes>) {
    if restA.None? then restB.None? else restB.Some? && a + restA.value == b + restB.value
  }

  lemma Extend(was: Bytes, head: Bytes, piece: Option<Bytes>, rest: Option<Bytes>)
    requires piece.Some?
    ensures Extends(was, Join(Join(Some(head), piece), rest), was + head + piece.value, rest)
  {
    if rest.Some? {
      Assoc(was, head, piece.value);
      Assoc(was, head + piece.value, rest.value);
    }
  }

  lemma Finish(output: Bytes, open: Bytes, body: Option<Bytes>, result: Bytes, close: Bytes)
    requires Extends(output + open, body, result, Some([]))
    ensures body.Some? && result + close == output + (open + body.value + close)
  {
    assert result + [] == result;
    Assoc(output, open, body.value);
    Assoc(output, open + body.value, close);
  }

  /** Collects the member names in whatever order the container yields them. */
  method CollectNames(keys: set<Bytes>) returns (ok: bool, names: seq<Bytes>)
    ensures ok <==> forall key :: key in keys ==> WellFormed(key)
    ensures ok ==> Lists(names, keys)
  {
    var rest := keys;
    names := [];
    while rest != {}
      invariant rest <= keys
      invariant multiset(names) + multiset(rest) == multiset(keys)
      invariant forall key :: key in keys && key !in rest ==> WellFormed(key)
    {
      var key :| key in rest;
      var units := ComputeUtf16Key(key);
      if units.None? {
        return false, names;
      }
      assert multiset(rest) == multiset{key} + multiset(rest - {key});
      rest := rest - {key};
      names := names + [key];
    }
    ok := true;
  }

  method AppendMembers(v: Value, output: Bytes) returns (ok: bool, result: Bytes)
    requires v.Object?
    ensures ok <==> Canonical(v).Some?
    ensures ok ==> result == output + Canonical(v).value
    decreases v, 0
  {
    var collected, unsorted := CollectNames(v.members.Keys);
    if !collected {
      return false, output;
    }
    hide Canonical, Lists;
    var names := Sort(NameLe, unsorted);
    SortedOrderIsUnique(unsorted, v.members.Keys);
    CanonicalObject(v, names);
    ok, result := AppendOrdered(v, names, output);
  }

  method AppendOrdered(v: Value, names: seq<Bytes>, output: Bytes) returns (ok: bool, result: Bytes)
    requires v.Object?
    requires forall j :: 0 <= j < |names| ==> names[j] in v.members && WellFormed(names[j])
    ensures ok <==> MembersText(v, names, 0).Some?
    ensures ok ==> result == output + ([123] + MembersText(v, names, 0).value + [125])
    decreases v, 0, 0
  {
    result := output + [123];
    ghost var start := result;
    for index := 0 to |names|
      invariant Extends(start, MembersText(v, names, 0), result, MembersText(v, names, index))
    {
      ghost var was := result;
      result := AppendName(names[index], index, result);
      ghost var head := Separator(index) + QuotedText(names[index]) + [58];
      ok, result := AppendCanonical(v.members[names[index]], result);
      if !ok {
        return false, result;
      }
      hide Canonical, QuotedText;
      Extend(was, head, Canonical(v.members[names[index]]), MembersText(v, names, index + 1));
    }
    Finish(output, [123], MembersText(v, names, 0), result, [125]);
    result := result + [125];
    ok := true;
  }

  method AppendName(name: Bytes, index: nat, output: Bytes) returns (result: Bytes)
    requires WellFormed(name)
    ensures result == output + (Separator(index) + QuotedText(name) + [58])
  {
    result := output;
    if index != 0 {
      result := result + [44];
    }
    var ok;
    ok, result := AppendString(name, result);
    result := result + [58];
    Assoc(output, Separator(index), QuotedText(name));
    Assoc(output, Separator(index) + QuotedText(name), [58]);
  }

  /** The public entry point. */
  method Canonicalize(v: Value) returns (r: Option<Bytes>)
    ensures r == Canonical(v)
    ensures r.Some? <==> WellFormedTexts(v)
  {
    CanonicalDefined(v);
    var ok, output := AppendCanonical(v, []);
    if !ok {
      return None;
    }
    assert [] + Canonical(v).value == Canonical(v).value;
    return Some(output);
  }
}
