/**
 UTF-8 and UTF-16 as the canonical JSON code uses them: a scalar encoder, a strict decoder,
 and the UTF-16 code-unit key by which object members are ordered.
 Bit operations on disjoint fields are written as the equivalent arithmetic.
 */
module Utf {
  import opened Prelude

  type byte = x: int | 0 <= x < 256
  type Bytes = seq<byte>

  predicate IsScalar(cp: int) {
    0 <= cp <= 0x10FFFF && !(0xD800 <= cp <= 0xDFFF)
  }

  lemma Assoc<T>(a: seq<T>, b: seq<T>, c: seq<T>)
    ensures a + b + c == a + (b + c)
  {
  }

  /** Occurrence of `piece` in `s` at position `i`. */
  predicate At(s: Bytes, i: int, piece: Bytes) {
    0 <= i && i + |piece| <= |s| && s[i..i + |piece|] == piece
  }

  lemma AtConcat(s: Bytes, i: int, a: Bytes, b: Bytes)
    ensures At(s, i, a + b) <==> At(s, i, a) && At(s, i + |a|, b)
  {
    if At(s, i, a + b) {
      assert s[i..i + |a|] == (a + b)[..|a|] == a;
      assert s[i + |a|..i + |a| + |b|] == (a + b)[|a|..] == b;
    }
    if At(s, i, a) && At(s, i + |a|, b) {
      assert s[i..i + |a + b|] == s[i..i + |a|] + s[i + |a|..i + |a| + |b|];
    }
  }

  lemma AtElements(s: Bytes, i: nat, piece: Bytes)
    requires At(s, i, piece)
    ensures forall k :: 0 <= k < |piece| ==> s[i + k] == piece[k]
    ensures forall k {:trigger s[k]} :: i <= k < i + |piece| ==> s[k] == piece[k - i]
  {
    forall k | i <= k < i + |piece| ensures s[k] == piece[k - i] {
      assert s[i..i + |piece|][k - i] == s[k];
    }
  }

  lemma AtHead(s: Bytes, i: nat, piece: Bytes)
    requires At(s, i, piece) && |piece| > 0
    ensures i < |s| && s[i] == piece[0]
  {
    assert s[i..i + |piece|][0] == s[i];
  }

  // ---------------------------------------------------------------- UTF-8

  /** The bytes appended for one code point; None where the encoder refuses it. */
  function Encode(cp: nat): Option<Bytes> {
    if cp <= 0x7F then Some([cp])
    else if cp <= 0x7FF then Some([0xC0 + cp / 64, 0x80 + cp % 64])
    else if cp <= 0xFFFF then
      if 0xD800 <= cp <= 0xDFFF then None
      else Some([0xE0 + cp / 4096, 0x80 + cp / 64 % 64, 0x80 + cp % 64])
    else if cp <= 0x10FFFF then
      Some([0xF0 + cp / 262144, 0x80 + cp / 4096 % 64, 0x80 + cp / 64 % 64, 0x80 + cp % 64])
    else None
  }

  /** The fields of the four forms: a marked lead byte and six payload bits in each further byte. */
  lemma EncodeIs(cp: nat)
    ensures Encode(cp).Some? <==> IsScalar(cp)
    ensures IsScalar(cp) ==>
      var e := Encode(cp).value;
      && (forall k :: 1 <= k < |e| ==> 0x80 <= e[k] <= 0xBF)
      && (if cp < 0x80 then e == [cp]
          else if cp < 0x800 then
            |e| == 2 && 0xC2 <= e[0] <= 0xDF && cp == (e[0] as int - 0xC0) * 64 + (e[1] as int - 0x80)
          else if cp < 0x10000 then
            |e| == 3 && 0xE0 <= e[0] <= 0xEF
            && cp == ((e[0] as int - 0xE0) * 64 + (e[1] as int - 0x80)) * 64 + (e[2] as int - 0x80)
          else
            |e| == 4 && 0xF0 <= e[0] <= 0xF4
            && cp == (((e[0] as int - 0xF0) * 64 + (e[1] as int - 0x80)) * 64 + (e[2] as int - 0x80)) * 64
                     + (e[3] as int - 0x80))
  {
    assert cp / 64 == cp / 4096 * 64 + cp / 64 % 64;
    assert cp / 4096 == cp / 262144 * 64 + cp / 4096 % 64;
  }

  /** Appends one code point, or reports that it is not a scalar value. */
  method AppendUtf8(output: Bytes, cp: nat) returns (ok: bool, result: Bytes)
    ensures ok <==> IsScalar(cp)
    ensures ok ==> Encode(cp).Some? && result == output + Encode(cp).value
    ensures !ok ==> result == output
  {
    result := output;
    if cp <= 0x7F {
      result := result + [cp];
    } else if cp <= 0x7FF {
      result := result + [0xC0 + cp / 64];
      result := result + [0x80 + cp % 64];
    } else if cp <= 0xFFFF {
      if cp >= 0xD800 && cp <= 0xDFFF {
        return false, result;
      }
      result := result + [0xE0 + cp / 4096];
      result := result + [0x80 + cp / 64 % 64];
      result := result + [0x80 + cp % 64];
    } else if cp <= 0x10FFFF {
      result := result + [0xF0 + cp / 262144];
      result := result + [0x80 + cp / 4096 % 64];
      result := result + [0x80 + cp / 64 % 64];
      result := result + [0x80 + cp % 64];
    } else {
      return false, result;
    }
    ok := true;
  }

  /** Sequence length announced by a lead byte, or 0. */
  function LeadLength(first: byte): nat {
    if first <= 0x7F then 1
    else if first / 32 == 6 then 2
    else if first / 16 == 14 then 3
    else if first / 8 == 30 then 4
    else 0
  }

  /** Payload bits of a lead byte. */
  function LeadPayload(first: byte): nat {
    if first <= 0x7F then first
    else if first / 32 == 6 then first % 32
    else if first / 16 == 14 then first % 16
    else first % 8
  }

  /** Folds the continuation bytes s[i..end] into `acc`. */
  function Continue(s: Bytes, i: nat, end: nat, acc: nat): Option<nat>
    requires i <= end <= |s|
    decreases end - i
  {
    if i == end then Some(acc)
    else if s[i] / 64 != 2 then None
    else Continue(s, i + 1, end, acc * 64 + s[i] % 64)
  }

  predicate Overlong(length: nat, cp: nat) {
    || (length == 2 && cp < 0x80)
    || (length == 3 && cp < 0x800)
    || (length == 4 && cp < 0x10000)
  }

  /** One strict decoding step: the scalar value at `i` and its length. */
  function DecodeAt(s: Bytes, i: nat): (r: Option<(nat, nat)>)
    requires i < |s|
    ensures r.Some? ==> 1 <= r.value.1 <= 4 && i + r.value.1 <= |s| && IsScalar(r.value.0)
  {
    var length := LeadLength(s[i]);
    if length == 0 || i + length > |s| then None
    else
      var folded := Continue(s, i + 1, i + length, LeadPayload(s[i]));
      if folded.None? || Overlong(length, folded.value) || !IsScalar(folded.value) then None
      else Some((folded.value, length))
  }

  function Decode(s: Bytes, i: nat): Option<seq<nat>>
    requires i <= |s|
    decreases |s| - i
  {
    if i == |s| then Some([])
    else
      var step := DecodeAt(s, i);
      if step.None? then None
      else
        Prefixed([step.value.0], Decode(s, i + step.value.1))
  }

  function Prefixed(done: seq<nat>, rest: Option<seq<nat>>): Option<seq<nat>> {
    if rest.None? then None else Some(done + rest.value)
  }

  lemma PrefixedMore(done: seq<nat>, more: seq<nat>, rest: Option<seq<nat>>)
    ensures Prefixed([], rest) == rest
    ensures Prefixed(done + more, rest) == Prefixed(done, Prefixed(more, rest))
  {
    if rest.Some? {
      assert [] + rest.value == rest.value;
      assert done + more + rest.value == done + (more + rest.value);
    }
  }

  predicate WellFormed(s: Bytes) { Decode(s, 0).Some? }

  /** The decoder loop. */
  method DecodeUtf8(input: Bytes) returns (r: Option<seq<nat>>)
    ensures r == Decode(input, 0)
  {
    var codePoints: seq<nat> := [];
    var index := 0;
    PrefixedMore([], [], Decode(input, 0));
    while index < |input|
      invariant 0 <= index <= |input|
      invariant Decode(input, 0) == Prefixed(codePoints, Decode(input, index))
    {
      var first := input[index];
      var length := LeadLength(first);
      if length == 0 || index + length > |input| {
        return None;
      }
      var codePoint: nat := LeadPayload(first);
      var offset := 1;
      while offset < length
        invariant 1 <= offset <= length
        invariant Continue(input, index + 1, index + length, LeadPayload(first))
               == Continue(input, index + offset, index + length, codePoint)
      {
        var next := input[index + offset];
        if next / 64 != 2 {
          return None;
        }
        codePoint := codePoint * 64 + next % 64;
        offset := offset + 1;
      }
      if Overlong(length, codePoint) || !IsScalar(codePoint) {
        return None;
      }
      PrefixedMore(codePoints, [codePoint], Decode(input, index + length));
      codePoints := codePoints + [codePoint];
      index := index + length;
    }
    assert codePoints + [] == codePoints;
    return Some(codePoints);
  }

  predicate IsContinuation(b: byte) { b / 64 == 2 }

  lemma Continue2(s: Bytes, i: nat, p: nat)
    requires i + 1 <= |s|
    ensures Continue(s, i, i + 1, p) == if IsContinuation(s[i]) then Some(p * 64 + s[i] % 64) else None
  {
  }

  lemma Continue3(s: Bytes, i: nat, p: nat)
    requires i + 2 <= |s|
    ensures Continue(s, i, i + 2, p)
         == if IsContinuation(s[i]) && IsContinuation(s[i + 1])
            then Some((p * 64 + s[i] % 64) * 64 + s[i + 1] % 64) else None
  {
    Continue2(s, i + 1, p * 64 + s[i] % 64);
  }

  lemma Continue4(s: Bytes, i: nat, p: nat)
    requires i + 3 <= |s|
    ensures Continue(s, i, i + 3, p)
         == if IsContinuation(s[i]) && IsContinuation(s[i + 1]) && IsContinuation(s[i + 2])
            then Some(((p * 64 + s[i] % 64) * 64 + s[i + 1] % 64) * 64 + s[i + 2] % 64) else None
  {
    Continue3(s, i + 1, p * 64 + s[i] % 64);
  }

  lemma SplitFields(cp: nat)
    ensures cp / 64 / 64 == cp / 4096 && cp / 4096 / 64 == cp / 262144
    ensures cp == cp / 64 * 64 + cp % 64
    ensures cp / 64 == cp / 4096 * 64 + cp / 64 % 64
    ensures cp / 4096 == cp / 262144 * 64 + cp / 4096 % 64
  {
  }

  /** Encoding a scalar value and decoding it anywhere in a text gives it back. */
  lemma DecodeInvertsEncode(s: Bytes, i: nat, cp: nat)
    requires IsScalar(cp) && At(s, i, Encode(cp).value)
    ensures i < |s| && DecodeAt(s, i) == Some((cp, |Encode(cp).value|))
  {
    BytesAt(s, i, Encode(cp).value);
    if cp <= 0x7F {
    } else if cp <= 0x7FF {
      DecodeOf2(s, i, cp);
    } else if cp <= 0xFFFF {
      DecodeOf3(s, i, cp);
    } else {
      DecodeOf4(s, i, cp);
    }
  }

  lemma BytesAt(s: Bytes, i: nat, e: Bytes)
    requires At(s, i, e)
    ensures i + |e| <= |s| && forall k :: 0 <= k < |e| ==> s[i + k] == e[k]
  {
    assert forall k :: 0 <= k < |e| ==> e[k] == s[i..i + |e|][k] == s[i + k];
  }

  lemma DecodeOf2(s: Bytes, i: nat, cp: nat)
    requires 0x80 <= cp <= 0x7FF && i + 2 <= |s|
    requires s[i] == 0xC0 + cp / 64 && s[i + 1] == 0x80 + cp % 64
    ensures DecodeAt(s, i) == Some((cp, 2))
  {
    SplitFields(cp);
    Continue2(s, i + 1, LeadPayload(s[i]));
    hide Continue;
  }

  lemma DecodeOf3(s: Bytes, i: nat, cp: nat)
    requires 0x800 <= cp <= 0xFFFF && IsScalar(cp) && i + 3 <= |s|
    requires s[i] == 0xE0 + cp / 4096 && s[i + 1] == 0x80 + cp / 64 % 64 && s[i + 2] == 0x80 + cp % 64
    ensures DecodeAt(s, i) == Some((cp, 3))
  {
    SplitFields(cp);
    assert cp / 4096 < 16;
    Continue3(s, i + 1, LeadPayload(s[i]));
    hide Continue;
  }

  lemma DecodeOf4(s: Bytes, i: nat, cp: nat)
    requires 0x10000 <= cp <= 0x10FFFF && i + 4 <= |s|
    requires s[i] == 0xF0 + cp / 262144 && s[i + 1] == 0x80 + cp / 4096 % 64
    requires s[i + 2] == 0x80 + cp / 64 % 64 && s[i + 3] == 0x80 + cp % 64
    ensures DecodeAt(s, i) == Some((cp, 4))
  {
    SplitFields(cp);
    assert cp / 262144 < 5;
    Continue4(s, i + 1, LeadPayload(s[i]));
    hide Continue;
  }

  lemma DivideFields(p: nat, low: nat)
    requires low < 64
    ensures (p * 64 + low) / 64 == p && (p * 64 + low) % 64 == low
  {
  }

  lemma EncodeOf2(a: byte, b: byte, cp: nat)
    requires a / 32 == 6 && IsContinuation(b)
    requires cp == a % 32 * 64 + b % 64 && 0x80 <= cp
    ensures Encode(cp) == Some([a, b])
  {
    DivideFields(a % 32, b % 64);
  }

  lemma EncodeOf3(a: byte, b: byte, c: byte, cp: nat)
    requires a / 16 == 14 && IsContinuation(b) && IsContinuation(c)
    requires cp == (a % 16 * 64 + b % 64) * 64 + c % 64 && 0x800 <= cp && IsScalar(cp)
    ensures Encode(cp) == Some([a, b, c])
  {
    SplitFields(cp);
    DivideFields(a % 16, b % 64);
    DivideFields(a % 16 * 64 + b % 64, c % 64);
  }

  lemma EncodeOf4(a: byte, b: byte, c: byte, d: byte, cp: nat)
    requires a / 8 == 30 && IsContinuation(b) && IsContinuation(c) && IsContinuation(d)
    requires cp == ((a % 8 * 64 + b % 64) * 64 + c % 64) * 64 + d % 64
    requires 0x10000 <= cp && IsScalar(cp)
    ensures Encode(cp) == Some([a, b, c, d])
  {
    SplitFields(cp);
    DivideFields(a % 8, b % 64);
    DivideFields(a % 8 * 64 + b % 64, c % 64);
    DivideFields((a % 8 * 64 + b % 64) * 64 + c % 64, d % 64);
  }

  /** Only the encoder's own bytes decode: no overlong or surrogate form is accepted. */
  lemma EncodeInvertsDecode(s: Bytes, i: nat)
    requires i < |s| && DecodeAt(s, i).Some?
    ensures var (cp, n) := DecodeAt(s, i).value;
            Encode(cp) == Some(s[i..i + n])
  {
    var (cp, n) := DecodeAt(s, i).value;
    var p := LeadPayload(s[i]);
    if n == 1 {
      assert s[i..i + 1] == [s[i]];
    } else if n == 2 {
      Continue2(s, i + 1, p);
      EncodeOf2(s[i], s[i + 1], cp);
      assert s[i..i + 2] == [s[i], s[i + 1]];
    } else if n == 3 {
      Continue3(s, i + 1, p);
      EncodeOf3(s[i], s[i + 1], s[i + 2], cp);
      assert s[i..i + 3] == [s[i], s[i + 1], s[i + 2]];
    } else {
      Continue4(s, i + 1, p);
      EncodeOf4(s[i], s[i + 1], s[i + 2], s[i + 3], cp);
      assert s[i..i + 4] == [s[i], s[i + 1], s[i + 2], s[i + 3]];
    }
  }

  predicate AllScalar(cps: seq<nat>) { forall k :: 0 <= k < |cps| ==> IsScalar(cps[k]) }

  function EncodeAll(cps: seq<nat>): Bytes
    requires AllScalar(cps)
  {
    if cps == [] then [] else Encode(cps[0]).value + EncodeAll(cps[1..])
  }

  lemma EncodeAllCons(cp: nat, rest: seq<nat>)
    requires IsScalar(cp) && AllScalar(rest)
    ensures AllScalar([cp] + rest) && EncodeAll([cp] + rest) == Encode(cp).value + EncodeAll(rest)
  {
    var all := [cp] + rest;
    assert all[1..] == rest;
    assert forall k :: 1 <= k < |all| ==> all[k] == rest[k - 1];
  }

  lemma {:induction false} DecodeInvertsEncodeAll(s: Bytes, i: nat, cps: seq<nat>)
    requires AllScalar(cps) && i <= |s| && s[i..] == EncodeAll(cps)
    ensures Decode(s, i) == Some(cps)
    decreases |cps|
  {
    hide DecodeAt;
    if cps != [] {
      var e := Encode(cps[0]).value;
      assert At(s, i, e) by {
        assert s[i..i + |e|] == s[i..][..|e|];
      }
      DecodeInvertsEncode(s, i, cps[0]);
      assert s[i + |e|..] == s[i..][|e|..] == EncodeAll(cps[1..]);
      DecodeInvertsEncodeAll(s, i + |e|, cps[1..]);
      assert cps == [cps[0]] + cps[1..];
    }
  }

  lemma NothingEncoded(s: Bytes)
    ensures Decode(s, |s|) == Some([]) && AllScalar([]) && EncodeAll([]) == s[|s|..]
  {
  }

  lemma JoinedSlices(s: Bytes, i: nat, n: nat)
    requires i + n <= |s|
    ensures s[i..] == s[i..i + n] + s[i + n..]
  {
  }

  lemma DecodeStep(s: Bytes, i: nat)
    requires i < |s| && Decode(s, i).Some?
    ensures DecodeAt(s, i).Some? && i + DecodeAt(s, i).value.1 <= |s|
    ensures var (cp, n) := DecodeAt(s, i).value;
            Decode(s, i + n).Some? && Decode(s, i).value == [cp] + Decode(s, i + n).value
  {
    hide DecodeAt;
  }

  lemma {:induction false} EncodeAllInvertsDecode(s: Bytes, i: nat)
    requires i <= |s| && Decode(s, i).Some?
    ensures AllScalar(Decode(s, i).value)
    ensures EncodeAll(Decode(s, i).value) == s[i..]
    decreases |s| - i
  {
    hide DecodeAt, Encode, Decode, EncodeAll, AllScalar;
    if i == |s| {
      NothingEncoded(s);
    } else {
      DecodeStep(s, i);
      var (cp, n) := DecodeAt(s, i).value;
      EncodeInvertsDecode(s, i);
      EncodeAllInvertsDecode(s, i + n);
      EncodeAllCons(cp, Decode(s, i + n).value);
      JoinedSlices(s, i, n);
    }
  }

  /** The well-formed byte strings are exactly the encodings of scalar-value sequences. */
  lemma WellFormedIsEncoded(s: Bytes)
    ensures WellFormed(s) <==> exists cps :: AllScalar(cps) && EncodeAll(cps) == s
  {
    assert s[0..] == s;
    if WellFormed(s) {
      EncodeAllInvertsDecode(s, 0);
    }
    if cps :| AllScalar(cps) && EncodeAll(cps) == s {
      DecodeInvertsEncodeAll(s, 0, cps);
    }
  }

  // ---------------------------------------------------------------- UTF-16

  function UnitsOf(cp: nat): seq<nat> {
    if cp <= 0xFFFF then [cp]
    else [0xD800 + (cp - 0x10000) / 1024, 0xDC00 + (cp - 0x10000) % 1024]
  }

  function Utf16(cps: seq<nat>): seq<nat> {
    if cps == [] then [] else UnitsOf(cps[0]) + Utf16(cps[1..])
  }

  /** The string parser's combination of a surrogate pair. */
  function JoinSurrogates(high: nat, low: nat): nat
    requires 0xD800 <= high <= 0xDBFF && 0xDC00 <= low <= 0xDFFF
  {
    0x10000 + (high - 0xD800) * 1024 + (low - 0xDC00)
  }

  /** Reads code units the way the string parser reads \u escapes. */
  function FromUtf16(units: seq<nat>): Option<seq<nat>> {
    if units == [] then Some([])
    else if 0xD800 <= units[0] <= 0xDBFF then
      if |units| < 2 || !(0xDC00 <= units[1] <= 0xDFFF) then None
      else
        Prefixed([JoinSurrogates(units[0], units[1])], FromUtf16(units[2..]))
    else if 0xDC00 <= units[0] <= 0xDFFF then None
    else
      Prefixed([units[0]], FromUtf16(units[1..]))
  }

  lemma {:induction false} FromUtf16InvertsUtf16(cps: seq<nat>)
    requires AllScalar(cps)
    ensures FromUtf16(Utf16(cps)) == Some(cps)
  {
    if cps != [] {
      FromUtf16InvertsUtf16(cps[1..]);
      hide FromUtf16, UnitsOf;
      UnitsReadBack(cps[0], Utf16(cps[1..]));
      assert cps == [cps[0]] + cps[1..];
    }
  }

  /** The units of one scalar value are read back as it. */
  lemma UnitsReadBack(cp: nat, rest: seq<nat>)
    requires IsScalar(cp)
    ensures FromUtf16(UnitsOf(cp) + rest) == Prefixed([cp], FromUtf16(rest))
  {
    var units := UnitsOf(cp) + rest;
    if cp > 0xFFFF {
      assert units[2..] == rest;
      SurrogatesJoin(cp);
    } else {
      assert units[1..] == rest;
    }
  }

  lemma SurrogatesJoin(cp: nat)
    requires 0x10000 <= cp <= 0x10FFFF
    ensures var u := UnitsOf(cp);
            && |u| == 2 && 0xD800 <= u[0] <= 0xDBFF && 0xDC00 <= u[1] <= 0xDFFF
            && cp == 0x10000 + (u[0] - 0xD800) * 1024 + (u[1] - 0xDC00) && JoinSurrogates(u[0], u[1]) == cp
  {
    var d := cp - 0x10000;
    assert 0 <= d / 1024 < 1024 && d == d / 1024 * 1024 + d % 1024;
  }

  /** The member-ordering key; None where the text is not well-formed UTF-8. */
  function Utf16Key(text: Bytes): Option<seq<nat>> {
    var decoded := Decode(text, 0);
    if decoded.None? then None else Some(Utf16(decoded.value))
  }

  /** The key loop. */
  method ComputeUtf16Key(text: Bytes) returns (r: Option<seq<nat>>)
    ensures r == Utf16Key(text)
  {
    var decoded := DecodeUtf8(text);
    if decoded.None? {
      return None;
    }
    var units: seq<nat> := [];
    for k := 0 to |decoded.value|
      invariant Utf16(decoded.value) == units + Utf16(decoded.value[k..])
    {
      var codePoint := decoded.value[k];
      ghost var before := units;
      if codePoint <= 0xFFFF {
        units := units + [codePoint];
      } else {
        codePoint := codePoint - 0x10000;
        units := units + [0xD800 + codePoint / 1024];
        units := units + [0xDC00 + codePoint % 1024];
      }
      assert units == before + UnitsOf(decoded.value[k]);
      hide UnitsOf;
      assert decoded.value[k..][1..] == decoded.value[k + 1..];
      Assoc(before, UnitsOf(decoded.value[k]), Utf16(decoded.value[k + 1..]));
    }
    assert units + [] == units;
    return Some(units);
  }

  /** Distinct well-formed texts have distinct keys, so the member order is never ambiguous. */
  lemma Utf16KeyInjective(a: Bytes, b: Bytes)
    requires WellFormed(a) && WellFormed(b) && Utf16Key(a) == Utf16Key(b)
    ensures a == b
  {
    EncodeAllInvertsDecode(a, 0);
    EncodeAllInvertsDecode(b, 0);
    FromUtf16InvertsUtf16(Decode(a, 0).value);
    FromUtf16InvertsUtf16(Decode(b, 0).value);
    assert a[0..] == a && b[0..] == b;
  }

  // ---------------------------------------------------------------- lexicographic order

  /** Lexicographic order of code-unit vectors. */
  predicate LexLe(a: seq<nat>, b: seq<nat>) {
    a == [] || (b != [] && (a[0] < b[0] || (a[0] == b[0] && LexLe(a[1..], b[1..]))))
  }

  /** Two vectors agree before `p`, and there `a` ends or has the smaller number. */
  ghost predicate FirstDifference(a: seq<nat>, b: seq<nat>, p: nat) {
    p <= |a| && p < |b| && a[..p] == b[..p] && (p == |a| || a[p] < b[p])
  }

  /** The vector that has the smaller number at the first difference comes first. */
  lemma {:induction false} LexIs(a: seq<nat>, b: seq<nat>)
    ensures LexLe(a, b) <==> a == b || exists p: nat :: FirstDifference(a, b, p)
  {
    if LexLe(a, b) && a != b {
      LexDiffers(a, b);
    }
    if exists p: nat :: FirstDifference(a, b, p) {
      var p: nat :| FirstDifference(a, b, p);
      LexFrom(a, b, p);
    }
    LexTotal(a, b);
  }

  lemma {:induction false} LexDiffers(a: seq<nat>, b: seq<nat>)
    requires LexLe(a, b) && a != b
    ensures exists p: nat :: FirstDifference(a, b, p)
  {
    if a == [] || a[0] < b[0] {
      assert FirstDifference(a, b, 0);
    } else {
      assert a == [a[0]] + a[1..] && b == [b[0]] + b[1..];
      LexDiffers(a[1..], b[1..]);
      var q: nat :| FirstDifference(a[1..], b[1..], q);
      assert a[..q + 1] == [a[0]] + a[1..][..q] && b[..q + 1] == [b[0]] + b[1..][..q];
      assert FirstDifference(a, b, q + 1);
    }
  }

  lemma {:induction false} LexFrom(a: seq<nat>, b: seq<nat>, p: nat)
    requires FirstDifference(a, b, p)
    ensures LexLe(a, b)
    decreases p
  {
    if p > 0 {
      assert a[0] == a[..p][0] == b[..p][0] == b[0];
      assert a[1..][..p - 1] == a[..p][1..] && b[1..][..p - 1] == b[..p][1..];
      LexFrom(a[1..], b[1..], p - 1);
    }
  }

  lemma {:induction false} LexTotal(a: seq<nat>, b: seq<nat>)
    ensures LexLe(a, b) || LexLe(b, a)
    ensures LexLe(a, b) && LexLe(b, a) ==> a == b
  {
    if a != [] && b != [] && a[0] == b[0] {
      LexTotal(a[1..], b[1..]);
      assert a == [a[0]] + a[1..] && b == [b[0]] + b[1..];
    }
  }

  lemma {:induction false} LexTransitive(a: seq<nat>, b: seq<nat>, c: seq<nat>)
    requires LexLe(a, b) && LexLe(b, c)
    ensures LexLe(a, c)
  {
    if a != [] && a[0] == b[0] == c[0] {
      LexTransitive(a[1..], b[1..], c[1..]);
    }
  }
}
