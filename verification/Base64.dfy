/**
 * Unpadded base64 in its standard and URL-safe alphabets (section 4 and section 5
 * of RFC 4648). Decoding skips line breaks and does not look at the unused low bits
 * of the last symbol.
 */
module Base64 {
  import opened Prelude

  type Byte = b: int | 0 <= b < 256

  datatype Alphabet = Standard | UrlSafe

  function Symbol(a: Alphabet, v: nat): (c: char)
    requires v < 64
    ensures ValueOf(a, c) == v
  {
    if v < 26 then (v + 'A' as int) as char
    else if v < 52 then (v - 26 + 'a' as int) as char
    else if v < 62 then (v - 52 + '0' as int) as char
    else if v == 62 then (if a.Standard? then '+' else '-')
    else if a.Standard? then '/' else '_'
  }

  /** The value of a symbol, or 64 for a character outside the alphabet. */
  function ValueOf(a: Alphabet, c: char): nat {
    if 'A' <= c <= 'Z' then c as int - 'A' as int
    else if 'a' <= c <= 'z' then c as int - 'a' as int + 26
    else if '0' <= c <= '9' then c as int - '0' as int + 52
    else if c == (if a.Standard? then '+' else '-') then 62
    else if c == (if a.Standard? then '/' else '_') then 63
    else 64
  }

  predicate InAlphabet(a: Alphabet, s: string) { forall i | 0 <= i < |s| :: ValueOf(a, s[i]) < 64 }

  function Encode(a: Alphabet, s: seq<Byte>): (r: string)
    ensures InAlphabet(a, r)
    ensures |r| == |s| / 3 * 4 + (if |s| % 3 == 0 then 0 else |s| % 3 + 1)
  {
    if |s| == 0 then ""
    else if |s| == 1 then [Symbol(a, s[0] / 4), Symbol(a, s[0] % 4 * 16)]
    else if |s| == 2 then
      [Symbol(a, s[0] / 4), Symbol(a, s[0] % 4 * 16 + s[1] / 16), Symbol(a, s[1] % 16 * 4)]
    else
      [Symbol(a, s[0] / 4), Symbol(a, s[0] % 4 * 16 + s[1] / 16), Symbol(a, s[1] % 16 * 4 + s[2] / 64), Symbol(a, s[2] % 64)]
      + Encode(a, s[3..])
  }

  function WithoutBreaks(t: string): (r: string)
    ensures (forall i | 0 <= i < |t| :: t[i] != '\r' && t[i] != '\n') ==> r == t
  {
    if t == "" then ""
    else
      assert t == [t[0]] + t[1..];
      (if t[0] == '\r' || t[0] == '\n' then "" else [t[0]]) + WithoutBreaks(t[1..])
  }

  /** Four symbols at a time; a lone last symbol is an error. */
  function DecodeSymbols(a: Alphabet, t: string): Option<seq<Byte>>
    requires InAlphabet(a, t)
  {
    if |t| == 0 then Some([])
    else if |t| == 1 then None
    else
      var v0, v1 := ValueOf(a, t[0]), ValueOf(a, t[1]);
      if |t| == 2 then Some([v0 * 4 + v1 / 16])
      else
        var v2 := ValueOf(a, t[2]);
        if |t| == 3 then Some([v0 * 4 + v1 / 16, v1 % 16 * 16 + v2 / 4])
        else
          match DecodeSymbols(a, t[4..])
          case None => None
          case Some(rest) => Some([v0 * 4 + v1 / 16, v1 % 16 * 16 + v2 / 4, v2 % 4 * 64 + ValueOf(a, t[3])] + rest)
  }

  function Decode(a: Alphabet, t: string): Option<seq<Byte>> {
    var symbols := WithoutBreaks(t);
    if InAlphabet(a, symbols) then DecodeSymbols(a, symbols) else None
  }

  /** Three bytes cut into four groups of six bits and put back together. */
  lemma SixBitGroups(x: Byte, y: Byte, z: Byte)
    ensures x / 4 * 4 + (x % 4 * 16) / 16 == x == x / 4 * 4 + (x % 4 * 16 + y / 16) / 16
    ensures (x % 4 * 16 + y / 16) % 16 * 16 + (y % 16 * 4) / 4 == y
    ensures (x % 4 * 16 + y / 16) % 16 * 16 + (y % 16 * 4 + z / 64) / 4 == y
    ensures (y % 16 * 4 + z / 64) % 4 * 64 + z % 64 == z
  {}

  lemma DecodeFour(a: Alphabet, v0: nat, v1: nat, v2: nat, v3: nat, rest: string)
    requires v0 < 64 && v1 < 64 && v2 < 64 && v3 < 64 && InAlphabet(a, rest)
    requires DecodeSymbols(a, rest).Some?
    ensures var t := [Symbol(a, v0), Symbol(a, v1), Symbol(a, v2), Symbol(a, v3)] + rest;
            && InAlphabet(a, t)
            && DecodeSymbols(a, t)
               == Some([v0 * 4 + v1 / 16, v1 % 16 * 16 + v2 / 4, v2 % 4 * 64 + v3] + DecodeSymbols(a, rest).value)
  {
    hide Symbol, ValueOf;
    var t := [Symbol(a, v0), Symbol(a, v1), Symbol(a, v2), Symbol(a, v3)] + rest;
    assert t[4..] == rest;
  }

  lemma DecodeTail(a: Alphabet, v0: nat, v1: nat, v2: nat)
    requires v0 < 64 && v1 < 64 && v2 < 64
    ensures InAlphabet(a, [Symbol(a, v0), Symbol(a, v1)])
    ensures DecodeSymbols(a, [Symbol(a, v0), Symbol(a, v1)]) == Some([v0 * 4 + v1 / 16])
    ensures InAlphabet(a, [Symbol(a, v0), Symbol(a, v1), Symbol(a, v2)])
    ensures DecodeSymbols(a, [Symbol(a, v0), Symbol(a, v1), Symbol(a, v2)])
         == Some([v0 * 4 + v1 / 16, v1 % 16 * 16 + v2 / 4])
  {
    hide Symbol, ValueOf;
  }

  lemma LastBytes(a: Alphabet, x: Byte, y: Byte)
    ensures InAlphabet(a, Encode(a, [x])) && DecodeSymbols(a, Encode(a, [x])) == Some([x])
    ensures InAlphabet(a, Encode(a, [x, y])) && DecodeSymbols(a, Encode(a, [x, y])) == Some([x, y])
  {
    hide Symbol, ValueOf, DecodeSymbols;
    SixBitGroups(x, y, 0);
    DecodeTail(a, x / 4, x % 4 * 16, 0);
    DecodeTail(a, x / 4, x % 4 * 16 + y / 16, y % 16 * 4);
  }

  lemma EncodeGroup(a: Alphabet, s: seq<Byte>)
    requires |s| >= 3
    ensures Encode(a, s)
         == [Symbol(a, s[0] / 4), Symbol(a, s[0] % 4 * 16 + s[1] / 16), Symbol(a, s[1] % 16 * 4 + s[2] / 64), Symbol(a, s[2] % 64)]
            + Encode(a, s[3..])
  {
    hide Symbol;
  }

  lemma EncodeThree(a: Alphabet, x: Byte, y: Byte, z: Byte, rest: seq<Byte>)
    ensures Encode(a, [x, y, z] + rest)
         == [Symbol(a, x / 4), Symbol(a, x % 4 * 16 + y / 16), Symbol(a, y % 16 * 4 + z / 64), Symbol(a, z % 64)]
            + Encode(a, rest)
  {
    hide Symbol, Encode;
    EncodeGroup(a, [x, y, z] + rest);
    assert ([x, y, z] + rest)[3..] == rest;
  }

  lemma ThreeBytes(a: Alphabet, x: Byte, y: Byte, z: Byte, rest: seq<Byte>)
    requires DecodeSymbols(a, Encode(a, rest)) == Some(rest)
    ensures DecodeSymbols(a, Encode(a, [x, y, z] + rest)) == Some([x, y, z] + rest)
  {
    hide Symbol, ValueOf, DecodeSymbols, Encode;
    SixBitGroups(x, y, z);
    EncodeThree(a, x, y, z, rest);
    DecodeFour(a, x / 4, x % 4 * 16 + y / 16, y % 16 * 4 + z / 64, z % 64, Encode(a, rest));
  }

  lemma {:induction false} SymbolsRoundTrip(a: Alphabet, s: seq<Byte>)
    ensures DecodeSymbols(a, Encode(a, s)) == Some(s)
  {
    hide Symbol, ValueOf;
    if 1 <= |s| <= 2 {
      LastBytes(a, s[0], s[|s| - 1]);
      assert s == if |s| == 1 then [s[0]] else [s[0], s[1]];
    } else if |s| >= 3 {
      SymbolsRoundTrip(a, s[3..]);
      ThreeBytes(a, s[0], s[1], s[2], s[3..]);
      assert s == [s[0], s[1], s[2]] + s[3..];
    }
  }

  /** Decoding what was encoded gives the bytes back. */
  lemma RoundTrip(a: Alphabet, s: seq<Byte>)
    ensures Decode(a, Encode(a, s)) == Some(s)
  {
    hide Encode, DecodeSymbols, WithoutBreaks;
    var t := Encode(a, s);
    forall i | 0 <= i < |t| ensures t[i] != '\r' && t[i] != '\n' {
      assert ValueOf(a, t[i]) < 64;
    }
    SymbolsRoundTrip(a, s);
  }

  /** Exactly the texts of alphabet symbols and line breaks whose symbols do not leave one over decode. */
  lemma {:induction false} DecodesExactly(a: Alphabet, t: string)
    ensures Decode(a, t).Some? <==> InAlphabet(a, WithoutBreaks(t)) && |WithoutBreaks(t)| % 4 != 1
  {
    if InAlphabet(a, WithoutBreaks(t)) {
      SymbolCount(a, WithoutBreaks(t));
    }
  }

  lemma {:induction false} SymbolCount(a: Alphabet, t: string)
    requires InAlphabet(a, t)
    ensures DecodeSymbols(a, t).Some? <==> |t| % 4 != 1
    ensures DecodeSymbols(a, t).Some? ==> |DecodeSymbols(a, t).value| == |t| / 4 * 3 + (if |t| % 4 == 0 then 0 else |t| % 4 - 1)
  {
    hide ValueOf;
    if |t| >= 4 {
      SymbolCount(a, t[4..]);
    }
  }

  /** The low bits of the last symbol that no byte uses are zero. */
  predicate SpareBitsZero(a: Alphabet, t: string)
    requires InAlphabet(a, t)
  {
    && (|t| % 4 == 2 ==> ValueOf(a, t[|t| - 1]) % 16 == 0)
    && (|t| % 4 == 3 ==> ValueOf(a, t[|t| - 1]) % 4 == 0)
  }

  /** The texts encoding produces: symbols only, no line breaks, no spare bits set. */
  predicate Canonical(a: Alphabet, t: string) {
    InAlphabet(a, t) && |t| % 4 != 1 && SpareBitsZero(a, t)
  }

  lemma SymbolOf(a: Alphabet, c: char)
    requires ValueOf(a, c) < 64
    ensures Symbol(a, ValueOf(a, c)) == c
  {}

  /** Four groups of six bits put into bytes and cut out again. */
  lemma ByteGroups(v0: nat, v1: nat, v2: nat, v3: nat)
    requires v0 < 64 && v1 < 64 && v2 < 64 && v3 < 64
    ensures var x, y, z := v0 * 4 + v1 / 16, v1 % 16 * 16 + v2 / 4, v2 % 4 * 64 + v3;
            && x < 256 && y < 256 && z < 256
            && x / 4 == v0 && x % 4 * 16 + y / 16 == v1 && y % 16 * 4 + z / 64 == v2 && z % 64 == v3
            && (v1 % 16 == 0 ==> x % 4 * 16 == v1) && (v2 % 4 == 0 ==> y % 16 * 4 == v2)
  {}

  lemma EncodeTail(a: Alphabet, x: Byte, y: Byte)
    ensures Encode(a, [x]) == [Symbol(a, x / 4), Symbol(a, x % 4 * 16)]
    ensures Encode(a, [x, y]) == [Symbol(a, x / 4), Symbol(a, x % 4 * 16 + y / 16), Symbol(a, y % 16 * 4)]
  {
    hide Symbol;
  }

  lemma TwoReencode(a: Alphabet, v0: nat, v1: nat)
    requires v0 < 64 && v1 < 64 && v1 % 16 == 0
    ensures var t := [Symbol(a, v0), Symbol(a, v1)];
            InAlphabet(a, t) && DecodeSymbols(a, t).Some? && Encode(a, DecodeSymbols(a, t).value) == t
  {
    ByteGroups(v0, v1, 0, 0);
    DecodeTail(a, v0, v1, 0);
    hide Symbol, Encode, DecodeSymbols, InAlphabet;
    EncodeTail(a, v0 * 4 + v1 / 16, 0);
  }

  /** The bytes three or four symbols stand for, and the symbols they are cut back into. */
  lemma BytesOfSymbols(a: Alphabet, v0: nat, v1: nat, v2: nat, v3: nat) returns (x: Byte, y: Byte, z: Byte)
    requires v0 < 64 && v1 < 64 && v2 < 64 && v3 < 64
    ensures x == v0 * 4 + v1 / 16 && y == v1 % 16 * 16 + v2 / 4 && z == v2 % 4 * 64 + v3
    ensures [Symbol(a, x / 4), Symbol(a, x % 4 * 16 + y / 16), Symbol(a, y % 16 * 4 + z / 64), Symbol(a, z % 64)]
         == [Symbol(a, v0), Symbol(a, v1), Symbol(a, v2), Symbol(a, v3)]
    ensures v2 % 4 == 0 ==> Symbol(a, y % 16 * 4) == Symbol(a, v2)
  {
    hide Symbol, ValueOf;
    ByteGroups(v0, v1, v2, v3);
    x, y, z := v0 * 4 + v1 / 16, v1 % 16 * 16 + v2 / 4, v2 % 4 * 64 + v3;
  }

  lemma FourDecoded(a: Alphabet, v0: nat, v1: nat, v2: nat, v3: nat, rest: string) returns (x: Byte, y: Byte, z: Byte)
    requires v0 < 64 && v1 < 64 && v2 < 64 && v3 < 64 && InAlphabet(a, rest) && DecodeSymbols(a, rest).Some?
    ensures var t := [Symbol(a, v0), Symbol(a, v1), Symbol(a, v2), Symbol(a, v3)] + rest;
            InAlphabet(a, t) && DecodeSymbols(a, t) == Some([x, y, z] + DecodeSymbols(a, rest).value)
    ensures [Symbol(a, x / 4), Symbol(a, x % 4 * 16 + y / 16), Symbol(a, y % 16 * 4 + z / 64), Symbol(a, z % 64)]
         == [Symbol(a, v0), Symbol(a, v1), Symbol(a, v2), Symbol(a, v3)]
  {
    hide Symbol, ValueOf, Encode, DecodeSymbols, InAlphabet;
    x, y, z := BytesOfSymbols(a, v0, v1, v2, v3);
    DecodeFour(a, v0, v1, v2, v3, rest);
  }

  lemma ThreeDecoded(a: Alphabet, v0: nat, v1: nat, v2: nat) returns (x: Byte, y: Byte)
    requires v0 < 64 && v1 < 64 && v2 < 64 && v2 % 4 == 0
    ensures var t := [Symbol(a, v0), Symbol(a, v1), Symbol(a, v2)];
            InAlphabet(a, t) && DecodeSymbols(a, t) == Some([x, y])
    ensures [Symbol(a, x / 4), Symbol(a, x % 4 * 16 + y / 16), Symbol(a, y % 16 * 4)]
         == [Symbol(a, v0), Symbol(a, v1), Symbol(a, v2)]
  {
    hide Symbol, ValueOf, Encode, DecodeSymbols, InAlphabet;
    var z;
    x, y, z := BytesOfSymbols(a, v0, v1, v2, 0);
    DecodeTail(a, v0, v1, v2);
  }

  lemma ThreeReencode(a: Alphabet, v0: nat, v1: nat, v2: nat)
    requires v0 < 64 && v1 < 64 && v2 < 64 && v2 % 4 == 0
    ensures var t := [Symbol(a, v0), Symbol(a, v1), Symbol(a, v2)];
            InAlphabet(a, t) && DecodeSymbols(a, t).Some? && Encode(a, DecodeSymbols(a, t).value) == t
  {
    hide Symbol, ValueOf, Encode, DecodeSymbols, InAlphabet;
    var x, y := ThreeDecoded(a, v0, v1, v2);
    EncodeTail(a, x, y);
  }

  lemma FourReencode(a: Alphabet, v0: nat, v1: nat, v2: nat, v3: nat, rest: string)
    requires v0 < 64 && v1 < 64 && v2 < 64 && v3 < 64
    requires InAlphabet(a, rest) && DecodeSymbols(a, rest).Some? && Encode(a, DecodeSymbols(a, rest).value) == rest
    ensures var t := [Symbol(a, v0), Symbol(a, v1), Symbol(a, v2), Symbol(a, v3)] + rest;
            InAlphabet(a, t) && DecodeSymbols(a, t).Some? && Encode(a, DecodeSymbols(a, t).value) == t
  {
    hide Symbol, ValueOf, Encode, DecodeSymbols, InAlphabet;
    var x, y, z := FourDecoded(a, v0, v1, v2, v3, rest);
    EncodeThree(a, x, y, z, DecodeSymbols(a, rest).value);
  }

  lemma {:induction false} Reencodes(a: Alphabet, t: string)
    requires Canonical(a, t)
    ensures DecodeSymbols(a, t).Some? && Encode(a, DecodeSymbols(a, t).value) == t
  {
    hide ValueOf, Symbol, Encode, DecodeSymbols;
    if t == "" {
      EncodeNothing(a);
    } else {
      var n := if |t| < 4 then |t| else 4;
      forall i | 0 <= i < n ensures ValueOf(a, t[i]) < 64 && Symbol(a, ValueOf(a, t[i])) == t[i] {
        SymbolOf(a, t[i]);
      }
      if |t| == 2 {
        TwoReencode(a, ValueOf(a, t[0]), ValueOf(a, t[1]));
        assert t == [t[0], t[1]];
      } else if |t| == 3 {
        ThreeReencode(a, ValueOf(a, t[0]), ValueOf(a, t[1]), ValueOf(a, t[2]));
        assert t == [t[0], t[1], t[2]];
      } else {
        Reencodes(a, t[4..]);
        FourReencode(a, ValueOf(a, t[0]), ValueOf(a, t[1]), ValueOf(a, t[2]), ValueOf(a, t[3]), t[4..]);
        assert t == [t[0], t[1], t[2], t[3]] + t[4..];
      }
    }
  }

  lemma EncodeNothing(a: Alphabet)
    ensures Encode(a, []) == "" && DecodeSymbols(a, "") == Some([])
  {}

  lemma TailCanonical(a: Alphabet, x: Byte, y: Byte)
    ensures Canonical(a, Encode(a, [x])) && Canonical(a, Encode(a, [x, y]))
  {
    EncodeTail(a, x, y);
    hide Symbol, ValueOf;
    assert ValueOf(a, Symbol(a, x % 4 * 16)) == x % 4 * 16 && ValueOf(a, Symbol(a, y % 16 * 4)) == y % 16 * 4;
  }

  lemma PrefixCanonical(a: Alphabet, head: string, rest: string)
    requires |head| == 4 && InAlphabet(a, head + rest) && Canonical(a, rest)
    ensures Canonical(a, head + rest)
  {
    hide ValueOf;
    assert rest != "" ==> (head + rest)[|rest| + 3] == rest[|rest| - 1];
  }

  lemma {:induction false} EncodeCanonical(a: Alphabet, s: seq<Byte>)
    ensures Canonical(a, Encode(a, s))
  {
    hide ValueOf, Symbol, Encode, Canonical;
    if s == [] {
      EncodeNothing(a);
      EmptyCanonical(a);
    } else if |s| <= 2 {
      TailCanonical(a, s[0], s[|s| - 1]);
      assert s == if |s| == 1 then [s[0]] else [s[0], s[1]];
    } else {
      EncodeCanonical(a, s[3..]);
      EncodeThree(a, s[0], s[1], s[2], s[3..]);
      assert s == [s[0], s[1], s[2]] + s[3..];
      PrefixCanonical(a, Encode(a, s)[..4], Encode(a, s[3..]));
      assert Encode(a, s) == Encode(a, s)[..4] + Encode(a, s[3..]);
    }
  }

  lemma EmptyCanonical(a: Alphabet)
    ensures Canonical(a, "")
  {}

  lemma PlainSymbols(a: Alphabet, t: string)
    requires InAlphabet(a, t)
    ensures WithoutBreaks(t) == t
  {
    forall i | 0 <= i < |t| ensures t[i] != '\r' && t[i] != '\n' {
      assert ValueOf(a, t[i]) < 64;
    }
  }

  /** Encoding undoes decoding exactly on the texts that encoding produces. */
  lemma ReencodesExactly(a: Alphabet, t: string, b: seq<Byte>)
    requires Decode(a, t) == Some(b)
    ensures Encode(a, b) == t <==> Canonical(a, t)
  {
    hide ValueOf, Symbol, Encode, DecodeSymbols, WithoutBreaks;
    if Canonical(a, t) {
      PlainSymbols(a, t);
      Reencodes(a, t);
    }
    EncodeCanonical(a, b);
  }

  const CAPITALS := "ABCDEFGHIJKLMNOPQRSTUVWXYZ"
  const SMALLS := "abcdefghijklmnopqrstuvwxyz"
  const DIGITS := "0123456789"

  /** The alphabets of the standard, in order: they differ in the last two symbols only. */
  lemma AlphabetTable(a: Alphabet, v: nat)
    requires v < 64
    ensures Symbol(a, v) == if v < 26 then CAPITALS[v] else if v < 52 then SMALLS[v - 26] else if v < 62 then DIGITS[v - 52]
                            else if a.Standard? then "+/"[v - 62] else "-_"[v - 62]
  {
    if v < 26 {
      Capital(v);
    } else if v < 52 {
      Small(v - 26);
    }
  }

  lemma Capital(v: nat)
    requires v < 26
    ensures CAPITALS[v] == (v + 'A' as int) as char
  {}

  lemma Small(v: nat)
    requires v < 26
    ensures SMALLS[v] == (v + 'a' as int) as char
  {}

  lemma ByteParts(x: Byte)
    ensures x / 4 * 4 + x % 4 == x && x / 16 * 16 + x % 16 == x && x / 64 * 64 + x % 64 == x
    ensures x / 4 < 64 && x / 16 < 16 && x / 64 < 4
  {}

  /** Three bytes and their four symbols are one 24-bit number, most significant first. */
  lemma GroupDigits(a: Alphabet, x: Byte, y: Byte, z: Byte)
    ensures var t := Encode(a, [x, y, z]);
            |t| == 4 && ((ValueOf(a, t[0]) * 64 + ValueOf(a, t[1])) * 64 + ValueOf(a, t[2])) * 64 + ValueOf(a, t[3])
                        == (x * 256 + y) * 256 + z
  {
    ByteParts(x);
    ByteParts(y);
    ByteParts(z);
    EncodeThree(a, x, y, z, []);
    EncodeNothing(a);
    assert [x, y, z] + [] == [x, y, z];
    hide Encode, ValueOf;
  }

  /** One or two bytes left over are written the same way, with zero bits filling the last symbol. */
  lemma TailDigits(a: Alphabet, x: Byte, y: Byte)
    ensures var t := Encode(a, [x]); |t| == 2 && ValueOf(a, t[0]) * 64 + ValueOf(a, t[1]) == x * 16
    ensures var t := Encode(a, [x, y]);
            |t| == 3 && (ValueOf(a, t[0]) * 64 + ValueOf(a, t[1])) * 64 + ValueOf(a, t[2]) == (x * 256 + y) * 4
  {
    ByteParts(x);
    ByteParts(y);
    EncodeTail(a, x, y);
    hide Encode, ValueOf;
  }

  lemma FirstGroup(a: Alphabet, s: seq<Byte>, rest: seq<Byte>) returns (head: string)
    requires |s| >= 3
    ensures Encode(a, s) == head + Encode(a, s[3..])
    ensures Encode(a, s + rest) == head + Encode(a, s[3..] + rest)
  {
    hide Encode, Symbol;
    EncodeGroup(a, s);
    EncodeGroup(a, s + rest);
    assert (s + rest)[3..] == s[3..] + rest;
    head := [Symbol(a, s[0] / 4), Symbol(a, s[0] % 4 * 16 + s[1] / 16), Symbol(a, s[1] % 16 * 4 + s[2] / 64), Symbol(a, s[2] % 64)];
  }

  /** Whole groups are encoded on their own. */
  lemma {:induction false} EncodeConcat(a: Alphabet, s: seq<Byte>, rest: seq<Byte>)
    requires |s| % 3 == 0
    ensures Encode(a, s + rest) == Encode(a, s) + Encode(a, rest)
  {
    hide Encode;
    if s == [] {
      EncodeNothing(a);
      assert s + rest == rest;
    } else {
      var head := FirstGroup(a, s, rest);
      EncodeConcat(a, s[3..], rest);
    }
  }
}
