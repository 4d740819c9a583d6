/**
 * Stored password hashes in PHC form: the text a hash is written as and the parser
 * that reads it back. The derivation itself (argon2id) is a salt and a digest here.
 */
module Phc {
  import opened Prelude
  import opened Radix
  import opened Strings
  import Base64

  const MAX_UINT32: int := 0xFFFF_FFFF
  const MAX_UINT8: int := 0xFF
  const MAX_INT64: int := 0x7FFF_FFFF_FFFF_FFFF

  type UInt32 = x: int | 0 <= x <= MAX_UINT32
  type UInt8 = x: int | 0 <= x <= MAX_UINT8

  const MIN_MEMORY_KIB := 8 * 1024
  const MAX_MEMORY_KIB := 1024 * 1024
  const MIN_TIME := 1
  const MAX_TIME := 16
  const MIN_SALT_LEN := 8
  const MAX_SALT_LEN := 64
  const MIN_KEY_LEN := 16
  const MAX_KEY_LEN := 64

  datatype Params = Params(memoryKiB: UInt32, time: UInt32, parallelism: UInt8, saltLen: UInt32, keyLen: UInt32) {

    predicate Valid() {
      && MIN_MEMORY_KIB <= memoryKiB <= MAX_MEMORY_KIB
      && MIN_TIME <= time <= MAX_TIME
      && parallelism != 0
      && MIN_SALT_LEN <= saltLen <= MAX_SALT_LEN
      && MIN_KEY_LEN <= keyLen <= MAX_KEY_LEN
      && parallelism <= memoryKiB / 8
    }

    /** No weaker than the policy on any axis; parallelism must be equal. */
    predicate AtLeastAsStrongAs(policy: Params) {
      && memoryKiB >= policy.memoryKiB && time >= policy.time && parallelism == policy.parallelism
      && saltLen >= policy.saltLen && keyLen >= policy.keyLen
    }

    function Cost(): string {
      JoinWith(["m=" + Format(memoryKiB, 10), "t=" + Format(time, 10), "p=" + Format(parallelism, 10)], ',')
    }

    function Encode(): string { "$argon2id$v=19$" + Cost() + "$" }
  }

  function Hash(p: Params, salt: seq<Base64.Byte>, key: seq<Base64.Byte>): string {
    p.Encode() + Base64.Encode(Base64.Standard, salt) + "$" + Base64.Encode(Base64.Standard, key)
  }

  predicate IsSpace(c: char) { c == ' ' || '\t' <= c <= '\r' || c as int == 0x85 || c as int == 0xA0 }

  function DigitRun(s: string): (n: nat)
    ensures n <= |s|
    ensures forall i | 0 <= i < n :: '0' <= s[i] <= '9'
    ensures n < |s| ==> !('0' <= s[n] <= '9')
  {
    if s == "" || !('0' <= s[0] <= '9') then 0 else 1 + DigitRun(s[1..])
  }

  function SkipSpace(s: string): string {
    if s != "" && IsSpace(s[0]) && s[0] != '\n' then SkipSpace(s[1..]) else s
  }

  /** An optional sign and the longest run of digits; whatever follows is not looked at. */
  function ScanNumber(rest: string): Option<int> {
    var signed := rest != "" && (rest[0] == '-' || rest[0] == '+');
    var digits := if signed then rest[1..] else rest;
    ParseSigned((if signed then [rest[0]] else "") + digits[..DigitRun(digits)], 10, MAX_INT64)
  }

  /** Scanning "v=%d": the prefix, blanks, then the number. */
  function ScanVersion(s: string): Option<int> {
    if |s| < 2 || s[..2] != "v=" then None else ScanNumber(SkipSpace(s[2..]))
  }

  /** The cost fields read so far. */
  datatype Costs = Costs(m: Option<nat>, t: Option<nat>, p: Option<nat>)

  /** The value behind `name=`, if the field is that one and its decimals are in range. */
  function Field(f: string, name: char, limit: nat): Option<nat> {
    if |f| >= 2 && f[0] == name && f[1] == '=' then ParseUnsigned(f[2..], 10, limit) else None
  }

  /** One field noted; a repeated name overwrites, an unknown one or a bad value fails. */
  function Note(c: Costs, f: string): Option<Costs> {
    if Field(f, 'm', MAX_UINT32).Some? then Some(c.(m := Field(f, 'm', MAX_UINT32)))
    else if Field(f, 't', MAX_UINT32).Some? then Some(c.(t := Field(f, 't', MAX_UINT32)))
    else if Field(f, 'p', MAX_UINT8).Some? then Some(c.(p := Field(f, 'p', MAX_UINT8)))
    else None
  }

  function NoteAll(fields: seq<string>): Option<Costs> {
    if fields == [] then Some(Costs(None, None, None))
    else
      match NoteAll(fields[..|fields| - 1])
      case None => None
      case Some(c) => Note(c, fields[|fields| - 1])
  }

  function CostTriple(s: string): Option<(nat, nat, nat)> {
    var fields := SplitOn(s, ',');
    if |fields| != 3 then None
    else
      match NoteAll(fields)
      case None => None
      case Some(c) => if c.m.Some? && c.t.Some? && c.p.Some? then Some((c.m.value, c.t.value, c.p.value)) else None
  }

  /** Fields `i`, `j` and `k` are the m, the t and the p field, with these values. */
  predicate ReadsAs(fields: seq<string>, i: int, j: int, k: int, m: nat, t: nat, p: nat) {
    && |fields| == 3 && 0 <= i < 3 && 0 <= j < 3 && 0 <= k < 3 && i != j && j != k && i != k
    && Field(fields[i], 'm', MAX_UINT32) == Some(m)
    && Field(fields[j], 't', MAX_UINT32) == Some(t)
    && Field(fields[k], 'p', MAX_UINT8) == Some(p)
  }

  lemma NoteThree(a: string, b: string, c: string)
    ensures NoteAll([a, b, c]) ==
            match Note(Costs(None, None, None), a)
            case None => None
            case Some(x) =>
              match Note(x, b)
              case None => None
              case Some(y) => Note(y, c)
  {
    hide Note;
    assert [a, b, c][..2] == [a, b] && [a, b][..1] == [a] && [a][..0] == [];
    assert NoteAll([]) == Some(Costs(None, None, None));
    assert NoteAll([a]) == Note(Costs(None, None, None), a);
    assert NoteAll([a, b]) == match NoteAll([a]) case None => None case Some(x) => Note(x, b);
  }

  lemma TripleFound(f: seq<string>, m: nat, t: nat, p: nat) returns (i: int, j: int, k: int)
    requires |f| == 3 && NoteAll(f) == Some(Costs(Some(m), Some(t), Some(p)))
    ensures ReadsAs(f, i, j, k, m, t, p)
  {
    hide ParseUnsigned, NoteAll;
    assert f == [f[0], f[1], f[2]];
    NoteThree(f[0], f[1], f[2]);
    i := if f[0][0] == 'm' then 0 else if f[1][0] == 'm' then 1 else 2;
    j := if f[0][0] == 't' then 0 else if f[1][0] == 't' then 1 else 2;
    k := 3 - i - j;
  }

  lemma TripleRead(f: seq<string>, i: int, j: int, k: int, m: nat, t: nat, p: nat)
    requires ReadsAs(f, i, j, k, m, t, p)
    ensures NoteAll(f) == Some(Costs(Some(m), Some(t), Some(p)))
  {
    hide ParseUnsigned, NoteAll;
    assert f == [f[0], f[1], f[2]];
    NoteThree(f[0], f[1], f[2]);
    assert k == 3 - i - j;
  }

  /** One m, one t and one p field, in some order, with these values. */
  ghost predicate Triple(fields: seq<string>, m: nat, t: nat, p: nat) {
    exists i, j, k :: ReadsAs(fields, i, j, k, m, t, p)
  }

  /** Exactly the permutations of one m, one t and one p field with decimals in range are accepted. */
  lemma CostTripleExactly(s: string, m: nat, t: nat, p: nat)
    ensures CostTriple(s) == Some((m, t, p)) <==> Triple(SplitOn(s, ','), m, t, p)
  {
    var f := SplitOn(s, ',');
    if CostTriple(s) == Some((m, t, p)) {
      var i, j, k := TripleFound(f, m, t, p);
    }
    if Triple(f, m, t, p) {
      var i, j, k :| ReadsAs(f, i, j, k, m, t, p);
      TripleRead(f, i, j, k, m, t, p);
    }
  }

  /** The loop over the three fields, its values and its seen flags. */
  method DecodeCostTriple(s: string) returns (r: Option<(nat, nat, nat)>)
    ensures r == CostTriple(s)
  {
    var fields := SplitOn(s, ',');
    if |fields| != 3 {
      return None;
    }
    var memory, time, parallelism := 0, 0, 0;
    var seenM, seenT, seenP := false, false, false;
    for i := 0 to |fields|
      invariant NoteAll(fields[..i]) == Some(Costs(if seenM then Some(memory) else None,
                                                   if seenT then Some(time) else None,
                                                   if seenP then Some(parallelism) else None))
    {
      var f := fields[i];
      assert fields[..i + 1][..i] == fields[..i];
      var v := None;
      if |f| >= 2 && f[1] == '=' && f[0] == 'm' {
        v := ParseUnsigned(f[2..], 10, MAX_UINT32);
        if v.Some? {
          memory, seenM := v.value, true;
        }
      } else if |f| >= 2 && f[1] == '=' && f[0] == 't' {
        v := ParseUnsigned(f[2..], 10, MAX_UINT32);
        if v.Some? {
          time, seenT := v.value, true;
        }
      } else if |f| >= 2 && f[1] == '=' && f[0] == 'p' {
        v := ParseUnsigned(f[2..], 10, MAX_UINT8);
        if v.Some? {
          parallelism, seenP := v.value, true;
        }
      }
      if v.None? {
        FailureSticks(fields, i + 1);
        return None;
      }
    }
    assert fields[..|fields|] == fields;
    return if seenM && seenT && seenP then Some((memory, time, parallelism)) else None;
  }

  lemma {:induction false} FailureSticks(fields: seq<string>, i: nat)
    requires i <= |fields| && NoteAll(fields[..i]) == None
    ensures NoteAll(fields) == None
    decreases |fields|
  {
    if i < |fields| {
      var m := |fields| - 1;
      assert fields[..m][..i] == fields[..i];
      FailureSticks(fields[..m], i);
    } else {
      assert fields[..i] == fields;
    }
  }

  const ARGON2_VERSION := 19

  /** The six fields between the dollar signs. */
  function DecodeParts(parts: seq<string>): (r: Option<(Params, seq<Base64.Byte>, seq<Base64.Byte>)>)
    ensures r.Some? ==> r.value.0.Valid() && r.value.0.saltLen == |r.value.1| && r.value.0.keyLen == |r.value.2|
  {
    if |parts| != 6 || parts[0] != "" then None
    else if parts[1] != "argon2id" then None
    else if ScanVersion(parts[2]) != Some(ARGON2_VERSION) then None
    else
      match CostTriple(parts[3])
      case None => None
      case Some(cost) =>
        match Base64.Decode(Base64.Standard, parts[4])
        case None => None
        case Some(salt) =>
          match Base64.Decode(Base64.Standard, parts[5])
          case None => None
          case Some(key) =>
            if |salt| > MAX_SALT_LEN || |key| > MAX_KEY_LEN then None
            else if cost.0 > MAX_UINT32 || cost.1 > MAX_UINT32 || cost.2 > MAX_UINT8 then None
            else
              var params := Params(cost.0, cost.1, cost.2, |salt|, |key|);
              if params.Valid() then Some((params, salt, key)) else None
  }

  function DecodeHash(s: string): (r: Option<(Params, seq<Base64.Byte>, seq<Base64.Byte>)>)
    ensures r.Some? ==> r.value.0.Valid() && r.value.0.saltLen == |r.value.1| && r.value.0.keyLen == |r.value.2|
  {
    DecodeParts(SplitOn(s, '$'))
  }

  function NeedsRehash(policy: Params, s: string): Option<bool> {
    match DecodeHash(s)
    case None => None
    case Some(decoded) => Some(!decoded.0.AtLeastAsStrongAs(policy))
  }

  lemma NoSeparator(a: Base64.Alphabet, b: seq<Base64.Byte>, n: nat)
    ensures '$' !in Base64.Encode(a, b)
    ensures forall c | c in Format(n, 10) :: c != '$' && c != ','
  {
    var t := Base64.Encode(a, b);
    hide Base64.Encode, Format;
    assert forall i | 0 <= i < |t| :: t[i] != '$' by {
      assert forall i | 0 <= i < |t| :: Base64.ValueOf(a, t[i]) < 64;
    }
  }

  function CostFields(p: Params): (r: seq<string>)
    ensures |r| == 3
  {
    ["m=" + Format(p.memoryKiB, 10), "t=" + Format(p.time, 10), "p=" + Format(p.parallelism, 10)]
  }

  lemma FieldWritten(name: char, n: nat, limit: nat)
    requires n <= limit
    ensures Field([name] + "=" + Format(n, 10), name, limit) == Some(n)
  {
    UnsignedRoundTrip(n, 10, limit);
    var f := [name] + "=" + Format(n, 10);
    hide Format, ParseUnsigned;
    assert f[2..] == Format(n, 10);
  }

  lemma CostFieldsRead(p: Params)
    ensures ReadsAs(CostFields(p), 0, 1, 2, p.memoryKiB, p.time, p.parallelism)
  {
    hide Format, Field;
    FieldWritten('m', p.memoryKiB, MAX_UINT32);
    FieldWritten('t', p.time, MAX_UINT32);
    FieldWritten('p', p.parallelism, MAX_UINT8);
    assert "m=" == ['m'] + "=" && "t=" == ['t'] + "=" && "p=" == ['p'] + "=";
  }

  lemma CostSplit(p: Params)
    ensures '$' !in p.Cost()
    ensures SplitOn(p.Cost(), ',') == CostFields(p)
  {
    var f := CostFields(p);
    NoSeparator(Base64.Standard, [], p.memoryKiB);
    NoSeparator(Base64.Standard, [], p.time);
    NoSeparator(Base64.Standard, [], p.parallelism);
    assert forall i | 0 <= i < 3 :: ',' !in f[i] && '$' !in f[i] by {
      hide Format;
    }
    assert p.Cost() == JoinWith(f, ',');
    hide CostFields, Params.Cost, Format;
    SplitJoin(f, ',');
    JoinThree(f[0], f[1], f[2], ',');
    assert f == [f[0], f[1], f[2]];
  }

  lemma CostRoundTrip(p: Params)
    ensures '$' !in p.Cost()
    ensures CostTriple(p.Cost()) == Some((p.memoryKiB, p.time, p.parallelism))
  {
    CostSplit(p);
    CostFieldsRead(p);
    hide CostFields, ReadsAs, CostTriple, Params.Cost;
    CostTripleExactly(p.Cost(), p.memoryKiB, p.time, p.parallelism);
  }

  lemma ValueNineteen()
    ensures AllDigits("19", 10) && Value("19", 10) == 19 && Shortest("19")
  {
    ValueSnoc("", '1', 10);
    ValueSnoc("" + ['1'], '9', 10);
    assert "" + ['1'] + ['9'] == "19";
  }

  predicate Zeros(s: string) { forall i | 0 <= i < |s| :: s[i] == '0' }

  predicate Blanks(s: string) { forall i | 0 <= i < |s| :: IsSpace(s[i]) && s[i] != '\n' }

  /** The version field cut into what the scan skips, the number, and what it does not look at. */
  predicate Spells(f: string, blanks: string, sign: string, zeros: string, tail: string) {
    && f == "v=" + (blanks + (sign + (zeros + "19" + tail)))
    && Blanks(blanks) && (sign == "" || sign == "+") && Zeros(zeros)
    && (tail == "" || !('0' <= tail[0] <= '9'))
  }

  /** "v=", blanks, an optional plus, zeros, "19", and anything that does not go on with a digit. */
  ghost predicate SpellsNineteen(f: string) {
    exists blanks, sign, zeros, tail :: Spells(f, blanks, sign, zeros, tail)
  }

  lemma {:induction false} BlanksSkipped(s: string) returns (blanks: string)
    ensures Blanks(blanks) && s == blanks + SkipSpace(s)
  {
    if s != "" && IsSpace(s[0]) && s[0] != '\n' {
      blanks := BlanksSkipped(s[1..]);
      blanks := [s[0]] + blanks;
      assert s == [s[0]] + s[1..];
    } else {
      blanks := "";
    }
  }

  lemma {:induction false} SkipBlanks(blanks: string, rest: string)
    requires Blanks(blanks) && rest != "" && !IsSpace(rest[0])
    ensures SkipSpace(blanks + rest) == rest
  {
    var s := blanks + rest;
    if blanks == "" {
      assert s == rest;
    } else {
      assert s[0] == blanks[0] && s[1..] == blanks[1..] + rest;
      SkipBlanks(blanks[1..], rest);
    }
  }

  lemma {:induction false} RunEnds(digits: string, tail: string)
    requires forall i | 0 <= i < |digits| :: '0' <= digits[i] <= '9'
    requires tail == "" || !('0' <= tail[0] <= '9')
    ensures DigitRun(digits + tail) == |digits|
  {
    var s := digits + tail;
    if digits == "" {
      assert s == tail;
    } else {
      assert s[0] == digits[0] && s[1..] == digits[1..] + tail;
      RunEnds(digits[1..], tail);
    }
  }

  lemma ZerosNineteen(zeros: string)
    requires Zeros(zeros)
    ensures AllDigits(zeros + "19", 10) && Value(zeros + "19", 10) == 19
    ensures forall i | 0 <= i < |zeros + "19"| :: '0' <= (zeros + "19")[i] <= '9'
  {
    ValueNineteen();
    ZerosAddNothing(zeros, "19");
    hide Value;
  }

  /** Digits that read as 19 are "19" behind zeros. */
  lemma {:induction false} NineteenDigits(d: string) returns (zeros: string)
    requires d != "" && AllDigits(d, 10) && Value(d, 10) == 19
    ensures Zeros(zeros) && d == zeros + "19"
  {
    hide Value, Format, DigitOf;
    ValueNineteen();
    var one := d[..1];
    assert d == one + d[1..];
    if Shortest(d) {
      FormatOfValue(d);
      FormatOfValue("19");
      zeros := "";
    } else {
      ZerosAddNothing(one, d[1..]);
      zeros := NineteenDigits(d[1..]);
      zeros := one + zeros;
    }
  }

  lemma NumberScanned(sign: string, digits: string, limit: nat)
    requires sign == "" || sign == "+"
    requires digits != "" ==> '0' <= digits[0] <= '9'
    ensures ParseSigned(sign + digits, 10, limit) == ParseUnsigned(digits, 10, limit)
  {
    hide ParseUnsigned;
    var s := sign + digits;
    assert sign == "+" ==> s[1..] == digits;
    assert sign == "" ==> s == digits;
  }

  lemma SpelledByDigits(d: string)
    requires ParseUnsigned(d, 10, MAX_INT64) == Some(ARGON2_VERSION)
    ensures d != "" && AllDigits(d, 10) && Value(d, 10) == 19
  {}

  lemma NineteenRun(digits: string) returns (zeros: string)
    requires ParseUnsigned(digits[..DigitRun(digits)], 10, MAX_INT64) == Some(ARGON2_VERSION)
    ensures Zeros(zeros) && digits == zeros + "19" + digits[DigitRun(digits)..]
  {
    hide ParseUnsigned, Value, AllDigits;
    var d := digits[..DigitRun(digits)];
    SpelledByDigits(d);
    zeros := NineteenDigits(d);
    assert digits == d + digits[DigitRun(digits)..];
  }

  lemma SignSplit(rest: string) returns (sign: string, digits: string)
    ensures rest == sign + digits && (sign == "" || sign == "+" || sign == "-")
    ensures ScanNumber(rest) == ParseSigned(sign + digits[..DigitRun(digits)], 10, MAX_INT64)
  {
    hide ParseSigned, DigitRun;
    if rest != "" && (rest[0] == '-' || rest[0] == '+') {
      sign, digits := [rest[0]], rest[1..];
    } else {
      sign, digits := "", rest;
    }
  }

  lemma NineteenScanned(rest: string) returns (sign: string, zeros: string, tail: string)
    requires ScanNumber(rest) == Some(ARGON2_VERSION)
    ensures rest == sign + (zeros + "19" + tail)
    ensures (sign == "" || sign == "+") && Zeros(zeros) && (tail == "" || !('0' <= tail[0] <= '9'))
  {
    hide ScanNumber, ParseSigned, ParseUnsigned, DigitRun, Zeros;
    var digits;
    sign, digits := SignSplit(rest);
    var n := DigitRun(digits);
    tail := digits[n..];
    if sign == "-" {
      NegativeScanned(digits[..n], MAX_INT64);
    } else {
      NumberScanned(sign, digits[..n], MAX_INT64);
      zeros := NineteenRun(digits);
    }
  }

  lemma NegativeScanned(d: string, limit: nat)
    ensures var r := ParseSigned("-" + d, 10, limit); r.Some? ==> r.value <= 0
  {
    hide ParseUnsigned;
    assert ("-" + d)[1..] == d;
  }

  lemma ScannedNineteen(sign: string, zeros: string, tail: string)
    requires (sign == "" || sign == "+") && Zeros(zeros) && (tail == "" || !('0' <= tail[0] <= '9'))
    ensures ScanNumber(sign + (zeros + "19" + tail)) == Some(ARGON2_VERSION)
  {
    var d, rest := zeros + "19", sign + (zeros + "19" + tail);
    ZerosNineteen(zeros);
    RunEnds(d, tail);
    NumberScanned(sign, d, MAX_INT64);
    hide Value, DigitRun, ParseSigned;
    assert sign == "+" ==> rest[1..] == d + tail;
    assert sign == "" ==> rest == d + tail && rest[0] == d[0];
    assert (d + tail)[..|d|] == d;
  }

  /** Exactly which version fields are read as the version. */
  lemma VersionExactly(f: string)
    ensures ScanVersion(f) == Some(ARGON2_VERSION) <==> SpellsNineteen(f)
  {
    hide ScanNumber, SkipSpace;
    if ScanVersion(f) == Some(ARGON2_VERSION) {
      var blanks := BlanksSkipped(f[2..]);
      var sign, zeros, tail := NineteenScanned(SkipSpace(f[2..]));
      assert f == f[..2] + f[2..];
      assert Spells(f, blanks, sign, zeros, tail);
    }
    if SpellsNineteen(f) {
      var blanks, sign, zeros, tail :| Spells(f, blanks, sign, zeros, tail);
      SpelledScans(f, blanks, sign, zeros, tail);
    }
  }

  lemma SpelledScans(f: string, blanks: string, sign: string, zeros: string, tail: string)
    requires Spells(f, blanks, sign, zeros, tail)
    ensures ScanVersion(f) == Some(ARGON2_VERSION)
  {
    var rest := sign + (zeros + "19" + tail);
    ScannedNineteen(sign, zeros, tail);
    assert rest[0] == '+' || rest[0] == '0' || rest[0] == '1';
    SkipBlanks(blanks, rest);
    hide ScanNumber, SkipSpace;
    assert f[..2] == "v=" && f[2..] == blanks + rest;
  }

  /** The version field as written reads as the version, with any tail that is not another digit. */
  lemma VersionTail(tail: string)
    requires tail == "" || !('0' <= tail[0] <= '9')
    ensures ScanVersion("v=19" + tail) == Some(ARGON2_VERSION)
  {
    hide ScanVersion;
    assert "v=19" + tail == "v=" + ("" + ("" + ("" + "19" + tail)));
    SpelledScans("v=19" + tail, "", "", "", tail);
  }

  function WrittenFields(tail: string, p: Params, salt: seq<Base64.Byte>, key: seq<Base64.Byte>): (r: seq<string>)
    ensures |r| == 6
  {
    ["", "argon2id", "v=19" + tail, p.Cost(), Base64.Encode(Base64.Standard, salt), Base64.Encode(Base64.Standard, key)]
  }

  /** A written hash with a tail after its version number. */
  function Written(tail: string, p: Params, salt: seq<Base64.Byte>, key: seq<Base64.Byte>): string {
    JoinWith(WrittenFields(tail, p, salt, key), '$')
  }

  lemma WrittenIsHash(p: Params, salt: seq<Base64.Byte>, key: seq<Base64.Byte>)
    ensures Written("", p, salt, key) == Hash(p, salt, key)
  {
    var cost, a, b := p.Cost(), Base64.Encode(Base64.Standard, salt), Base64.Encode(Base64.Standard, key);
    hide JoinWith, Base64.Encode, Params.Cost;
    JoinSix("", "argon2id", "v=19", cost, a, b, '$');
    assert "v=19" + "" == "v=19";
    assert "" + ['$'] + "argon2id" + ['$'] + "v=19" + ['$'] == "$argon2id$v=19$";
  }

  lemma SixWithoutDollars(f: seq<string>)
    requires |f| == 6 && forall i | 0 <= i < 6 :: '$' !in f[i]
    ensures SplitOn(JoinWith(f, '$'), '$') == f
  {
    SplitJoin(f, '$');
  }

  lemma FieldsSplit(tail: string, p: Params, salt: seq<Base64.Byte>, key: seq<Base64.Byte>)
    requires '$' !in tail
    ensures SplitOn(Written(tail, p, salt, key), '$') == WrittenFields(tail, p, salt, key)
  {
    hide Base64.Encode, CostTriple, Params.Cost, SplitOn, JoinWith;
    CostRoundTrip(p);
    NoSeparator(Base64.Standard, salt, 0);
    NoSeparator(Base64.Standard, key, 0);
    var version := "v=19" + tail;
    assert '$' !in version;
    SixWithoutDollars(WrittenFields(tail, p, salt, key));
  }

  lemma PartsDecode(version: string, cost: string, a: string, b: string,
                    p: Params, salt: seq<Base64.Byte>, key: seq<Base64.Byte>)
    requires p.Valid() && |salt| == p.saltLen && |key| == p.keyLen
    requires ScanVersion(version) == Some(ARGON2_VERSION)
    requires CostTriple(cost) == Some((p.memoryKiB, p.time, p.parallelism))
    requires Base64.Decode(Base64.Standard, a) == Some(salt)
    requires Base64.Decode(Base64.Standard, b) == Some(key)
    ensures DecodeParts(["", "argon2id", version, cost, a, b]) == Some((p, salt, key))
  {
    hide Base64.Decode, CostTriple, ScanVersion;
  }

  lemma FieldsDecode(tail: string, p: Params, salt: seq<Base64.Byte>, key: seq<Base64.Byte>)
    requires p.Valid() && |salt| == p.saltLen && |key| == p.keyLen
    requires tail == "" || !('0' <= tail[0] <= '9')
    ensures DecodeParts(WrittenFields(tail, p, salt, key)) == Some((p, salt, key))
  {
    hide Base64.Decode, CostTriple, ScanVersion, DecodeParts, Params.Cost, Params.Valid;
    VersionTail(tail);
    CostRoundTrip(p);
    Base64.RoundTrip(Base64.Standard, salt);
    Base64.RoundTrip(Base64.Standard, key);
    PartsDecode("v=19" + tail, p.Cost(), Base64.Encode(Base64.Standard, salt), Base64.Encode(Base64.Standard, key),
                p, salt, key);
  }

  /**
   * What decoding makes of a hash with a tail after its version: the parameters,
   * salt and digest it was written with.
   */
  lemma DecodesWritten(tail: string, p: Params, salt: seq<Base64.Byte>, key: seq<Base64.Byte>)
    requires p.Valid() && |salt| == p.saltLen && |key| == p.keyLen
    requires '$' !in tail && (tail == "" || !('0' <= tail[0] <= '9'))
    ensures DecodeHash(Written(tail, p, salt, key)) == Some((p, salt, key))
  {
    FieldsSplit(tail, p, salt, key);
    FieldsDecode(tail, p, salt, key);
    hide DecodeParts, Written, WrittenFields;
  }

  /** Decoding a freshly written hash gives back exactly its parameters, salt and digest. */
  lemma HashRoundTrip(p: Params, salt: seq<Base64.Byte>, key: seq<Base64.Byte>)
    requires p.Valid() && |salt| == p.saltLen && |key| == p.keyLen
    ensures DecodeHash(Hash(p, salt, key)) == Some((p, salt, key))
    ensures NeedsRehash(p, Hash(p, salt, key)) == Some(false)
  {
    WrittenIsHash(p, salt, key);
    DecodesWritten("", p, salt, key);
    hide DecodeHash, Hash, Written;
  }

  /**
   * A stored hash is left alone exactly when none of its costs and lengths is below the
   * policy's and its parallelism is the policy's; what does not decode gets no answer.
   */
  lemma RehashExactly(policy: Params, s: string)
    ensures NeedsRehash(policy, s).None? <==> DecodeHash(s).None?
    ensures DecodeHash(s).Some? ==>
              var p := DecodeHash(s).value.0;
              NeedsRehash(policy, s) == Some(false) <==>
                && p.memoryKiB >= policy.memoryKiB && p.time >= policy.time && p.parallelism == policy.parallelism
                && p.saltLen >= policy.saltLen && p.keyLen >= policy.keyLen
  {
    hide DecodeHash;
  }

  /** In particular a hash written under other parameters. */
  lemma WrittenRehash(policy: Params, p: Params, salt: seq<Base64.Byte>, key: seq<Base64.Byte>)
    requires p.Valid() && |salt| == p.saltLen && |key| == p.keyLen
    ensures NeedsRehash(policy, Hash(p, salt, key)).Some?
    ensures NeedsRehash(policy, Hash(p, salt, key)) == Some(false) <==>
            && p.memoryKiB >= policy.memoryKiB && p.time >= policy.time && p.parallelism == policy.parallelism
            && p.saltLen >= policy.saltLen && p.keyLen >= policy.keyLen
  {
    HashRoundTrip(p, salt, key);
    RehashExactly(policy, Hash(p, salt, key));
    hide DecodeHash, Hash, NeedsRehash;
  }

  /** What each of the six fields must be for the text to decode to these values, and nothing else is asked. */
  lemma DecodesExactly(s: string, p: Params, salt: seq<Base64.Byte>, key: seq<Base64.Byte>)
    ensures DecodeHash(s) == Some((p, salt, key)) <==>
            var parts := SplitOn(s, '$');
            && |parts| == 6 && parts[0] == "" && parts[1] == "argon2id"
            && SpellsNineteen(parts[2])
            && Triple(SplitOn(parts[3], ','), p.memoryKiB, p.time, p.parallelism)
            && Base64.Decode(Base64.Standard, parts[4]) == Some(salt) && |salt| == p.saltLen
            && Base64.Decode(Base64.Standard, parts[5]) == Some(key) && |key| == p.keyLen
            && 8192 <= p.memoryKiB <= 1048576 && 1 <= p.time <= 16 && 1 <= p.parallelism && 8 * p.parallelism <= p.memoryKiB
            && 8 <= p.saltLen <= 64 && 16 <= p.keyLen <= 64
  {
    ValidRanges(p);
    var parts := SplitOn(s, '$');
    if |parts| == 6 {
      VersionExactly(parts[2]);
      CostTripleExactly(parts[3], p.memoryKiB, p.time, p.parallelism);
    }
    hide ScanVersion, SpellsNineteen, CostTriple, Triple, Base64.Decode, Params.Valid;
  }

  lemma ValidRanges(p: Params)
    ensures p.Valid() <==>
            && 8192 <= p.memoryKiB <= 1048576 && 1 <= p.time <= 16 && 1 <= p.parallelism && 8 * p.parallelism <= p.memoryKiB
            && 8 <= p.saltLen <= 64 && 16 <= p.keyLen <= 64
  {}

  /** A cost field as it is written. */
  predicate ShortField(f: string, name: char) {
    |f| >= 2 && f[0] == name && f[1] == '=' && Shortest(f[2..])
  }

  predicate CanonicalCost(cost: string) {
    var f := SplitOn(cost, ',');
    |f| == 3 && ShortField(f[0], 'm') && ShortField(f[1], 't') && ShortField(f[2], 'p')
  }

  /**
   * The fields as they are written: the bare version, the costs in order without
   * leading zeros, and base64 without line breaks or spare bits.
   */
  predicate Canonical(parts: seq<string>) {
    && |parts| == 6
    && parts[2] == "v=19"
    && CanonicalCost(parts[3])
    && Base64.Canonical(Base64.Standard, parts[4]) && Base64.Canonical(Base64.Standard, parts[5])
  }

  lemma ShortFieldWritten(name: char, n: nat)
    ensures ShortField([name] + "=" + Format(n, 10), name)
  {
    FormatShortest(n);
    var f := [name] + "=" + Format(n, 10);
    hide Format, Shortest;
    assert f[2..] == Format(n, 10);
  }

  lemma FieldReadBack(f: string, name: char, n: nat, limit: nat)
    requires ShortField(f, name) && Field(f, name, limit) == Some(n)
    ensures f == [name] + "=" + Format(n, 10)
  {
    FormatOfValue(f[2..]);
    hide Format, Value, Shortest;
    assert f == [f[0]] + [f[1]] + f[2..];
  }

  lemma CostCanonical(p: Params)
    ensures CanonicalCost(p.Cost())
  {
    CostSplit(p);
    ShortFieldWritten('m', p.memoryKiB);
    ShortFieldWritten('t', p.time);
    ShortFieldWritten('p', p.parallelism);
    hide Format, ShortField, SplitOn, Params.Cost;
    assert "m=" == ['m'] + "=" && "t=" == ['t'] + "=" && "p=" == ['p'] + "=";
  }

  /** Cost fields in order, without leading zeros, are the ones their values are written with. */
  lemma CostReadBack(cost: string, p: Params)
    requires CostTriple(cost) == Some((p.memoryKiB, p.time, p.parallelism)) && CanonicalCost(cost)
    ensures cost == p.Cost()
  {
    var f := SplitOn(cost, ',');
    CostTripleExactly(cost, p.memoryKiB, p.time, p.parallelism);
    var i, j, k :| ReadsAs(f, i, j, k, p.memoryKiB, p.time, p.parallelism);
    JoinSplit(cost, ',');
    hide SplitOn, CostTriple, Shortest, ParseUnsigned;
    assert i == 0 && j == 1 && k == 2;
    hide Field;
    FieldReadBack(f[0], 'm', p.memoryKiB, MAX_UINT32);
    FieldReadBack(f[1], 't', p.time, MAX_UINT32);
    FieldReadBack(f[2], 'p', p.parallelism, MAX_UINT8);
    hide ShortField, Format, JoinWith;
    assert "m=" == ['m'] + "=" && "t=" == ['t'] + "=" && "p=" == ['p'] + "=";
    assert f == CostFields(p);
  }

  lemma WrittenCanonical(p: Params, salt: seq<Base64.Byte>, key: seq<Base64.Byte>)
    ensures Canonical(SplitOn(Hash(p, salt, key), '$'))
  {
    WrittenIsHash(p, salt, key);
    FieldsSplit("", p, salt, key);
    CostCanonical(p);
    Base64.EncodeCanonical(Base64.Standard, salt);
    Base64.EncodeCanonical(Base64.Standard, key);
    hide CanonicalCost, Base64.Canonical, Params.Cost, Hash, Written;
    assert "v=19" + "" == "v=19";
  }

  lemma PartsRead(parts: seq<string>, p: Params, salt: seq<Base64.Byte>, key: seq<Base64.Byte>)
    requires DecodeParts(parts) == Some((p, salt, key))
    ensures |parts| == 6 && parts[0] == "" && parts[1] == "argon2id"
    ensures CostTriple(parts[3]) == Some((p.memoryKiB, p.time, p.parallelism))
    ensures Base64.Decode(Base64.Standard, parts[4]) == Some(salt)
    ensures Base64.Decode(Base64.Standard, parts[5]) == Some(key)
  {
    hide Base64.Decode, CostTriple, ScanVersion, Params.Valid;
  }

  lemma CanonicalReadBack(parts: seq<string>, p: Params, salt: seq<Base64.Byte>, key: seq<Base64.Byte>)
    requires DecodeParts(parts) == Some((p, salt, key)) && Canonical(parts)
    ensures parts == WrittenFields("", p, salt, key)
  {
    hide DecodeParts, CanonicalCost, Base64.Canonical, Base64.Decode, Base64.Encode, CostTriple, Params.Cost;
    PartsRead(parts, p, salt, key);
    Base64.ReencodesExactly(Base64.Standard, parts[4], salt);
    Base64.ReencodesExactly(Base64.Standard, parts[5], key);
    CostReadBack(parts[3], p);
    assert "v=19" + "" == "v=19";
  }

  /** Of the texts that decode, the ones that are written are exactly those whose fields are in their written form. */
  lemma WrittenExactly(s: string, p: Params, salt: seq<Base64.Byte>, key: seq<Base64.Byte>)
    requires DecodeHash(s) == Some((p, salt, key))
    ensures s == Hash(p, salt, key) <==> Canonical(SplitOn(s, '$'))
  {
    var parts := SplitOn(s, '$');
    if Canonical(parts) {
      CanonicalReadBack(parts, p, salt, key);
      JoinSplit(s, '$');
      WrittenIsHash(p, salt, key);
    }
    hide Canonical, DecodeParts, WrittenFields, Hash;
    WrittenCanonical(p, salt, key);
  }

  /** "Strict on every field" fails: this text is not one that is ever written, and decodes like the one that is. */
  lemma VersionJunkAccepted(p: Params, salt: seq<Base64.Byte>, key: seq<Base64.Byte>)
    requires p.Valid() && |salt| == p.saltLen && |key| == p.keyLen
    ensures Written("junk", p, salt, key) != Hash(p, salt, key)
    ensures DecodeHash(Written("junk", p, salt, key)) == DecodeHash(Hash(p, salt, key))
  {
    DecodesWritten("junk", p, salt, key);
    HashRoundTrip(p, salt, key);
    WrittenIsHash(p, salt, key);
    hide DecodeHash, Hash;
    var cost, a, b := p.Cost(), Base64.Encode(Base64.Standard, salt), Base64.Encode(Base64.Standard, key);
    hide JoinWith, Base64.Encode, Params.Cost;
    JoinSix("", "argon2id", "v=19" + "junk", cost, a, b, '$');
    JoinSix("", "argon2id", "v=19" + "", cost, a, b, '$');
    assert |Written("junk", p, salt, key)| == |Written("", p, salt, key)| + 4;
  }
}
