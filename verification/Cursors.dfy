/** The opaque page cursor and the fingerprint of the query it belongs to. */
module Cursors {
  import opened Prelude
  import opened Ids
  import opened Money
  import opened Radix
  import opened Strings
  import Base64

  const CURSOR_VERSION := "1"
  const MAX_CURSOR_LEN := 512
  const UNIT: char := '\U{1F}'

  /** The ordering key of an event: its start in nanoseconds, then its identifier. */
  datatype EventKey = EventKey(start: Int64, id: string)

  datatype Cursor = Cursor(key: EventKey, scope: UInt64)

  /** Text as bytes: every character below 256 is one. */
  function Bytes(s: string): (r: seq<Base64.Byte>)
    requires forall i | 0 <= i < |s| :: s[i] as int < 256
    ensures |r| == |s|
  {
    seq(|s|, i requires 0 <= i < |s| => s[i] as int)
  }

  function Text(b: seq<Base64.Byte>): string {
    seq(|b|, i requires 0 <= i < |b| => b[i] as char)
  }

  lemma TextOfBytes(s: string)
    requires forall i | 0 <= i < |s| :: s[i] as int < 256
    ensures Text(Bytes(s)) == s
  {}

  function Fields(c: Cursor): (r: seq<string>)
    ensures |r| == 4
  {
    [CURSOR_VERSION, FormatSigned(c.key.start, 10), Format(c.scope, 36), c.key.id]
  }

  predicate Plain(s: string) { forall i | 0 <= i < |s| :: ' ' <= s[i] <= '~' }

  lemma PlainNumbers(n: int, m: nat)
    ensures Plain(FormatSigned(n, 10)) && Plain(Format(m, 36))
  {
    var s := FormatSigned(n, 10);
    var digits := Format(if n < 0 then -n else n, 10);
    assert forall i | 0 <= i < |digits| :: digits[i] in digits;
    assert forall i | 0 <= i < |Format(m, 36)| :: Format(m, 36)[i] in Format(m, 36);
  }

  function Raw(c: Cursor): string { JoinWith(Fields(c), UNIT) }

  lemma RawIsText(c: Cursor)
    requires ValidId(c.key.id)
    ensures forall i | 0 <= i < |Raw(c)| :: Raw(c)[i] as int < 256
    ensures forall i | 0 <= i < 4 :: UNIT !in Fields(c)[i]
    ensures |Raw(c)| == |Fields(c)[1]| + |Fields(c)[2]| + |c.key.id| + 4
  {
    PlainNumbers(c.key.start, c.scope);
    var f := Fields(c);
    assert Plain(f[0]) && Plain(f[1]) && Plain(f[2]) && Plain(f[3]);
    hide Format, FormatSigned, JoinWith;
    JoinFour(f[0], f[1], f[2], f[3], UNIT);
    assert Raw(c) == f[0] + [UNIT] + f[1] + [UNIT] + f[2] + [UNIT] + f[3];
  }

  function Encode(c: Cursor): string
    requires ValidId(c.key.id)
  {
    RawIsText(c);
    Base64.Encode(Base64.UrlSafe, Bytes(Raw(c)))
  }

  /**
   * Every field must parse, and the scope must be the one presented. The parsers are
   * the library's: line breaks in the base64, a leading plus or zeros in the instant
   * and upper-case letters in the scope are read as if they were not there.
   */
  function Decode(encoded: string, scope: UInt64): (r: Option<Cursor>)
    ensures r.Some? ==> r.value.scope == scope && ValidId(r.value.key.id)
  {
    if |encoded| > MAX_CURSOR_LEN then None
    else
      match Base64.Decode(Base64.UrlSafe, encoded)
      case None => None
      case Some(raw) =>
        var parts := SplitOn(Text(raw), UNIT);
        if |parts| != 4 then None
        else if parts[0] != CURSOR_VERSION then None
        else
          match ParseSigned(parts[1], 10, MAX_INT64)
          case None => None
          case Some(nanos) =>
            match ParseUnsigned(parts[2], 36, MAX_UINT64)
            case None => None
            case Some(got) =>
              if got != scope then None
              else if !ValidId(parts[3]) then None
              else Some(Cursor(EventKey(nanos, parts[3]), got))
  }

  /** 2^63 has nineteen decimal digits and 2^64 thirteen in base 36. */
  lemma NumberLengths(n: Int64, m: UInt64)
    ensures |FormatSigned(n, 10)| <= 20 && |Format(m, 36)| <= 13
  {
    Powers();
    hide Pow;
    FormatLength(if n < 0 then 0 - (n as int) else n, 10, 19);
    FormatLength(m, 36, 13);
  }

  lemma Powers()
    ensures Pow(10, 19) == 10_000_000_000_000_000_000
    ensures Pow(36, 13) == 170_581_728_179_578_208_256
  {
    assert Pow(10, 10) == 10_000_000_000;
    assert Pow(10, 19) == 1_000_000_000 * Pow(10, 10);
    assert Pow(36, 6) == 2_176_782_336;
    assert Pow(36, 13) == 78_364_164_096 * Pow(36, 6);
  }

  /** Every minted cursor is within the limit the decoder accepts. */
  lemma EncodedLength(c: Cursor)
    requires ValidId(c.key.id)
    ensures |Encode(c)| <= 220 <= MAX_CURSOR_LEN
  {
    RawIsText(c);
    NumberLengths(c.key.start, c.scope);
    hide Format, FormatSigned, JoinWith, Base64.Encode;
  }

  lemma DecodedRaw(c: Cursor)
    requires ValidId(c.key.id)
    ensures |Encode(c)| <= MAX_CURSOR_LEN
    ensures Base64.Decode(Base64.UrlSafe, Encode(c)).Some?
    ensures SplitOn(Text(Base64.Decode(Base64.UrlSafe, Encode(c)).value), UNIT) == Fields(c)
  {
    RawIsText(c);
    EncodedLength(c);
    Base64.RoundTrip(Base64.UrlSafe, Bytes(Raw(c)));
    TextOfBytes(Raw(c));
    SplitJoin(Fields(c), UNIT);
    hide Format, FormatSigned, JoinWith, Base64.Encode, Base64.Decode, SplitOn, Fields;
  }

  /** A cursor comes back exactly under its own scope, and under no other. */
  lemma CursorRoundTrip(c: Cursor, scope: UInt64)
    requires ValidId(c.key.id)
    ensures Decode(Encode(c), scope) == if scope == c.scope then Some(c) else None
  {
    DecodedRaw(c);
    SignedRoundTrip(c.key.start, 10, MAX_INT64);
    UnsignedRoundTrip(c.scope, 36, MAX_UINT64);
    hide Encode, Base64.Decode, SplitOn, Format, FormatSigned, ParseSigned, ParseUnsigned, ValidId;
  }

  /** What a cursor is underneath: version, instant in decimal, fingerprint in base 36 and identifier, in that order. */
  lemma CursorText(c: Cursor)
    requires ValidId(c.key.id)
    ensures var raw := Base64.Decode(Base64.UrlSafe, Encode(c));
            && raw.Some?
            && Text(raw.value) == "1" + [UNIT] + FormatSigned(c.key.start, 10) + [UNIT] + Format(c.scope, 36) + [UNIT] + c.key.id
  {
    RawIsText(c);
    Base64.RoundTrip(Base64.UrlSafe, Bytes(Raw(c)));
    TextOfBytes(Raw(c));
    var f := Fields(c);
    hide Format, FormatSigned, JoinWith, Base64.Encode, Base64.Decode;
    JoinFour(f[0], f[1], f[2], f[3], UNIT);
  }

  /** Exactly which texts decode under a fingerprint, and to what: nothing is asked beyond these fields. */
  lemma DecodesExactly(s: string, scope: UInt64, c: Cursor)
    ensures Decode(s, scope) == Some(c) <==>
            && |s| <= 512
            && Base64.Decode(Base64.UrlSafe, s).Some?
            && var parts := SplitOn(Text(Base64.Decode(Base64.UrlSafe, s).value), '\U{1F}');
               && |parts| == 4 && parts[0] == "1"
               && ParseSigned(parts[1], 10, MAX_INT64) == Some(c.key.start)
               && ParseUnsigned(parts[2], 36, MAX_UINT64) == Some(scope) && c.scope == scope
               && ValidId(parts[3]) && c.key.id == parts[3]
  {
    hide Base64.Decode, SplitOn, ParseSigned, ParseUnsigned, ValidId;
  }

  /** The bytes the fingerprint is taken over: each part behind its length, and a terminator. */
  function Framing(parts: seq<string>): string {
    if parts == [] then ""
    else Framing(parts[..|parts| - 1]) + Frame(parts[|parts| - 1])
  }

  const NUL: char := '\0'

  function Frame(p: string): string { Format(|p|, 10) + ":" + p + [NUL] }

  /** A hasher is a fold over bytes; FNV-1a supplies `mix` and the starting state. */
  function Feed(mix: (UInt64, char) -> UInt64, h: UInt64, s: string): UInt64 {
    if s == "" then h else mix(Feed(mix, h, s[..|s| - 1]), s[|s| - 1])
  }

  lemma {:induction false} FeedConcat(mix: (UInt64, char) -> UInt64, h: UInt64, a: string, b: string)
    ensures Feed(mix, h, a + b) == Feed(mix, Feed(mix, h, a), b)
  {
    if b == "" {
      assert a + b == a;
    } else {
      var m := |b| - 1;
      FeedConcat(mix, h, a, b[..m]);
      assert (a + b)[..|a + b| - 1] == a + b[..m];
    }
  }

  /** The parts are written to the hasher one frame at a time. */
  method CursorScope(mix: (UInt64, char) -> UInt64, basis: UInt64, parts: seq<string>) returns (h: UInt64)
    ensures h == Feed(mix, basis, Framing(parts))
  {
    h := basis;
    for i := 0 to |parts|
      invariant h == Feed(mix, basis, Framing(parts[..i]))
    {
      assert parts[..i + 1][..i] == parts[..i];
      FeedConcat(mix, basis, Framing(parts[..i]), Frame(parts[i]));
      h := Feed(mix, h, Frame(parts[i]));
    }
    assert parts[..|parts|] == parts;
  }

  lemma {:induction false} FramingCons(p: string, rest: seq<string>)
    ensures Framing([p] + rest) == Frame(p) + Framing(rest)
  {
    hide Frame;
    var all := [p] + rest;
    if rest == [] {
      assert all[..0] == [];
      assert Framing(all) == Framing([]) + Frame(p);
    } else {
      var m := |rest| - 1;
      FramingCons(p, rest[..m]);
      assert all[..|all| - 1] == [p] + rest[..m];
      assert Framing(all) == Framing([p] + rest[..m]) + Frame(rest[m]);
    }
  }

  lemma ColonSplits(p: string, x: string)
    ensures SplitOn(Frame(p) + x, ':')[0] == Format(|p|, 10)
    ensures Frame(p) + x == Format(|p|, 10) + [':'] + (p + [NUL] + x)
  {
    var a := Format(|p|, 10);
    assert ':' !in a;
    hide Format, SplitOn;
    SplitFirst(a, ':', p + [NUL] + x);
    assert Frame(p) + x == a + [':'] + (p + [NUL] + x);
  }

  /** The first colon ends the length, and the length ends the part. */
  lemma FrameInjective(p: string, q: string, x: string, y: string)
    requires Frame(p) + x == Frame(q) + y
    ensures p == q && x == y
  {
    ColonSplits(p, x);
    ColonSplits(q, y);
    FormatInjective(|p|, |q|, 10);
    hide Format, SplitOn, Frame;
    SameTail(Format(|p|, 10) + [':'], p + [NUL] + x, q + [NUL] + y);
    SamePart(p, q, x, y);
  }

  lemma SameTail(a: string, x: string, y: string)
    requires a + x == a + y
    ensures x == y
  {
    assert (a + x)[|a|..] == x && (a + y)[|a|..] == y;
  }

  lemma SamePart(p: string, q: string, x: string, y: string)
    requires |p| == |q| && p + [NUL] + x == q + [NUL] + y
    ensures p == q && x == y
  {
    var s := p + [NUL] + x;
    assert s[..|p|] == p && s[..|q|] == q;
    assert s[|p| + 1..] == x && s[|q| + 1..] == y;
  }

  /** No two different lists of parts are written as the same bytes. */
  lemma {:induction false} FramingInjective(a: seq<string>, b: seq<string>)
    requires Framing(a) == Framing(b)
    ensures a == b
    decreases |a|
  {
    hide Frame;
    if a != [] {
      assert a == [a[0]] + a[1..];
      FramingCons(a[0], a[1..]);
      FrameNonEmpty(a[0]);
    }
    if b != [] {
      assert b == [b[0]] + b[1..];
      FramingCons(b[0], b[1..]);
      FrameNonEmpty(b[0]);
    }
    if a != [] && b != [] {
      FrameInjective(a[0], b[0], Framing(a[1..]), Framing(b[1..]));
      FramingInjective(a[1..], b[1..]);
    }
  }

  lemma FrameNonEmpty(p: string)
    ensures Frame(p) != ""
  {}

  /** One frame spelt out: the length in decimal, a colon, the part and a zero byte. */
  lemma FrameText(p: string)
    ensures Framing([p]) == Format(|p|, 10) + ":" + p + "\0"
  {
    assert [p][..0] == [];
    assert Framing([]) == "";
    hide Format;
  }
}
