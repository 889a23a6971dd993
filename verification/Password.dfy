/** The password-hash string (internal/auth/auth.go): printing, parsing, verifying. Argon2 is a
    function parameter; the salt, random in the source, is an argument. */
module Password {
  type Byte = b: int | 0 <= b < 256

  datatype Result<T> = Ok(value: T) | Err

  // ------------------------------------------------------------- base64 without padding (RFC 4648, sections 3.2 and 4)

  function Enc6(v: int): char
    requires 0 <= v < 64
  {
    if v < 26 then ('A' as int + v) as char
    else if v < 52 then ('a' as int + v - 26) as char
    else if v < 62 then ('0' as int + v - 52) as char
    else if v == 62 then '+' else '/'
  }

  function Dec6(c: char): (v: int)
    ensures -1 <= v < 64
  {
    if 'A' <= c <= 'Z' then c as int - 'A' as int
    else if 'a' <= c <= 'z' then c as int - 'a' as int + 26
    else if '0' <= c <= '9' then c as int - '0' as int + 52
    else if c == '+' then 62 else if c == '/' then 63 else -1
  }

  lemma Dec6Enc6(v: int)
    requires 0 <= v < 64
    ensures Dec6(Enc6(v)) == v && Enc6(v) != '$' && Enc6(v) != '\n' && Enc6(v) != '\r'
  {
  }

  function Encode(b: seq<Byte>): string {
    if b == [] then []
    else if |b| == 1 then [Enc6(b[0] / 4), Enc6(b[0] % 4 * 16)]
    else if |b| == 2 then [Enc6(b[0] / 4), Enc6(b[0] % 4 * 16 + b[1] / 16), Enc6(b[1] % 16 * 4)]
    else
      [Enc6(b[0] / 4), Enc6(b[0] % 4 * 16 + b[1] / 16), Enc6(b[1] % 16 * 4 + b[2] / 64), Enc6(b[2] % 64)]
      + Encode(b[3..])
  }

  /** Line breaks are skipped wherever they are. */
  function SkipBreaks(s: string): string {
    if s == [] then [] else (if s[0] == '\n' || s[0] == '\r' then [] else [s[0]]) + SkipBreaks(s[1..])
  }

  function DecodeGroups(s: string): Result<seq<Byte>> {
    if s == [] then Ok([])
    else if |s| == 1 then Err
    else
      var a, b := Dec6(s[0]), Dec6(s[1]);
      if a < 0 || b < 0 then Err
      else if |s| == 2 then Ok([a * 4 + b / 16])
      else
        var c := Dec6(s[2]);
        if c < 0 then Err
        else if |s| == 3 then Ok([a * 4 + b / 16, b % 16 * 16 + c / 4])
        else
          var d := Dec6(s[3]);
          if d < 0 then Err
          else
            var rest := DecodeGroups(s[4..]);
            if rest.Err? then Err
            else Ok([a * 4 + b / 16, b % 16 * 16 + c / 4, c % 4 * 64 + d] + rest.value)
  }

  function Decode(s: string): Result<seq<Byte>> { DecodeGroups(SkipBreaks(s)) }

  ghost predicate Plain(s: string) {
    forall i :: 0 <= i < |s| ==> s[i] != '$' && s[i] != '\n' && s[i] != '\r'
  }

  lemma {:induction false} EncodeIsPlain(b: seq<Byte>)
    ensures Plain(Encode(b))
  {
    if |b| >= 3 {
      Dec6Enc6(b[0] / 4);
      Dec6Enc6(b[0] % 4 * 16 + b[1] / 16);
      Dec6Enc6(b[1] % 16 * 4 + b[2] / 64);
      Dec6Enc6(b[2] % 64);
      EncodeIsPlain(b[3..]);
    } else if |b| == 2 {
      Dec6Enc6(b[0] / 4);
      Dec6Enc6(b[0] % 4 * 16 + b[1] / 16);
      Dec6Enc6(b[1] % 16 * 4);
    } else if |b| == 1 {
      Dec6Enc6(b[0] / 4);
      Dec6Enc6(b[0] % 4 * 16);
    }
  }

  lemma {:induction false} NothingToSkip(s: string)
    requires Plain(s)
    ensures SkipBreaks(s) == s
  {
    if s != [] {
      NothingToSkip(s[1..]);
      assert s == [s[0]] + s[1..];
    }
  }

  /** Four characters carry three bytes. */
  lemma FullGroup(x: Byte, y: Byte, z: Byte, rest: string)
    requires DecodeGroups(rest).Ok?
    ensures var s := [Enc6(x / 4), Enc6(x % 4 * 16 + y / 16), Enc6(y % 16 * 4 + z / 64), Enc6(z % 64)] + rest;
      DecodeGroups(s) == Ok([x, y, z] + DecodeGroups(rest).value)
  {
    var s := [Enc6(x / 4), Enc6(x % 4 * 16 + y / 16), Enc6(y % 16 * 4 + z / 64), Enc6(z % 64)] + rest;
    Dec6Enc6(x / 4);
    Dec6Enc6(x % 4 * 16 + y / 16);
    Dec6Enc6(y % 16 * 4 + z / 64);
    Dec6Enc6(z % 64);
    assert s[4..] == rest;
    Recombine(x, y, z);
  }

  lemma LastByte(x: Byte)
    ensures DecodeGroups(Encode([x])) == Ok([x])
  {
    Dec6Enc6(x / 4);
    Dec6Enc6(x % 4 * 16);
  }

  lemma LastTwoBytes(x: Byte, y: Byte)
    ensures DecodeGroups(Encode([x, y])) == Ok([x, y])
  {
    var a, b, c := x / 4, x % 4 * 16 + y / 16, y % 16 * 4;
    Dec6Enc6(a);
    Dec6Enc6(b);
    Dec6Enc6(c);
    assert Encode([x, y]) == [Enc6(a), Enc6(b), Enc6(c)];
    assert DecodeGroups([Enc6(a), Enc6(b), Enc6(c)]) == Ok([a * 4 + b / 16, b % 16 * 16 + c / 4]);
    Recombine(x, y, 0);
  }

  lemma Recombine(x: Byte, y: Byte, z: Byte)
    ensures var a, b, c, d := x / 4, x % 4 * 16 + y / 16, y % 16 * 4 + z / 64, z % 64;
      a * 4 + b / 16 == x && b % 16 * 16 + c / 4 == y && c % 4 * 64 + d == z
  {
  }

  lemma {:induction false} GroupsRoundTrip(b: seq<Byte>)
    ensures DecodeGroups(Encode(b)) == Ok(b)
  {
    if b == [] {
    } else if |b| == 1 {
      LastByte(b[0]);
      assert b == [b[0]];
    } else if |b| == 2 {
      LastTwoBytes(b[0], b[1]);
      assert b == [b[0], b[1]];
    } else {
      GroupsRoundTrip(b[3..]);
      FirstGroup(b);
      FullGroup(b[0], b[1], b[2], Encode(b[3..]));
      assert b == [b[0], b[1], b[2]] + b[3..];
    }
  }

  lemma FirstGroup(b: seq<Byte>)
    requires |b| > 2
    ensures Encode(b) ==
      [Enc6(b[0] / 4), Enc6(b[0] % 4 * 16 + b[1] / 16), Enc6(b[1] % 16 * 4 + b[2] / 64), Enc6(b[2] % 64)]
      + Encode(b[3..])
  {
  }

  lemma Base64RoundTrip(b: seq<Byte>)
    ensures Decode(Encode(b)) == Ok(b)
  {
    EncodeIsPlain(b);
    NothingToSkip(Encode(b));
    GroupsRoundTrip(b);
  }

  /** A group of three bytes on its own. */
  lemma OneGroup(x: Byte, y: Byte, z: Byte)
    ensures Encode([x, y, z]) == [Enc6(x / 4), Enc6(x % 4 * 16 + y / 16), Enc6(y % 16 * 4 + z / 64), Enc6(z % 64)]
  {
    FirstGroup([x, y, z]);
    assert [x, y, z][3..] == [];
  }

  /** The alphabet and the bit order are the standard ones: test vectors of section 10 of RFC 4648, unpadded, and
      the two characters in which the URL-safe alphabet differs. */
  lemma StandardVectors()
    ensures Encode([102]) == "Zg" && Encode([102, 111]) == "Zm8"
    ensures Encode([102, 111, 111]) == "Zm9v" && Encode([98, 97, 114]) == "YmFy" && Encode([251, 255, 191]) == "+/+/"
  {
    OneGroup(102, 111, 111);
    OneGroup(98, 97, 114);
    OneGroup(251, 255, 191);
  }

  lemma SkipBreaksCons(c: char, s: string)
    ensures SkipBreaks([c] + s) == (if c == '\n' || c == '\r' then [] else [c]) + SkipBreaks(s)
  {
    assert ([c] + s)[1..] == s;
  }

  lemma Regroup(a: string, b: string, c: string)
    ensures a + (b + c) == (a + b) + c
  {
  }

  lemma {:induction false} SkipBreaksConcat(a: string, b: string)
    ensures SkipBreaks(a + b) == SkipBreaks(a) + SkipBreaks(b)
  {
    if a == [] {
      assert a + b == b;
    } else {
      SkipBreaksConcat(a[1..], b);
      assert a + b == [a[0]] + (a[1..] + b) && a == [a[0]] + a[1..];
      SkipBreaksCons(a[0], a[1..] + b);
      SkipBreaksCons(a[0], a[1..]);
      Regroup(if a[0] == '\n' || a[0] == '\r' then [] else [a[0]], SkipBreaks(a[1..]), SkipBreaks(b));
    }
  }

  /** A line break anywhere makes no difference to what is decoded. */
  lemma BreaksAreSkipped(a: string, c: char, b: string)
    requires c == '\n' || c == '\r'
    ensures Decode(a + [c] + b) == Decode(a + b)
  {
    SkipBreaksConcat(a + [c], b);
    SkipBreaksConcat(a, [c]);
    SkipBreaksConcat(a, b);
    assert SkipBreaks([c]) == [] by { assert [c][1..] == []; }
    assert SkipBreaks(a) + [] == SkipBreaks(a);
  }

  predicate Base64Char(c: char) { 'A' <= c <= 'Z' || 'a' <= c <= 'z' || '0' <= c <= '9' || c == '+' || c == '/' }

  ghost predicate Alphabetic(s: string) { forall i :: 0 <= i < |s| ==> Base64Char(s[i]) }

  lemma AlphabeticFour(s: string)
    requires |s| >= 4
    ensures Alphabetic(s) <==>
      Base64Char(s[0]) && Base64Char(s[1]) && Base64Char(s[2]) && Base64Char(s[3]) && Alphabetic(s[4..])
  {
    if Alphabetic(s[4..]) {
      forall i | 4 <= i < |s| ensures Base64Char(s[i]) { assert s[4..][i - 4] == s[i]; }
    }
  }

  lemma Dec6Is(c: char)
    ensures Dec6(c) >= 0 <==> Base64Char(c)
  {
  }

  lemma FourLess(n: nat)
    requires n >= 4
    ensures (n - 4) % 4 == n % 4
  {
  }

  lemma ShortDecodes(s: string)
    requires |s| < 4
    ensures DecodeGroups(s).Ok? <==> |s| != 1 && Alphabetic(s)
  {
    if |s| >= 2 {
      Dec6Is(s[0]);
      Dec6Is(s[1]);
      if |s| == 3 { Dec6Is(s[2]); }
    }
  }

  lemma GroupUnrolls(s: string)
    requires |s| >= 4
    ensures DecodeGroups(s).Ok? <==>
      Dec6(s[0]) >= 0 && Dec6(s[1]) >= 0 && Dec6(s[2]) >= 0 && Dec6(s[3]) >= 0 && DecodeGroups(s[4..]).Ok?
  {
  }

  lemma GroupDecodes(s: string)
    requires |s| >= 4
    ensures DecodeGroups(s).Ok? <==>
      Base64Char(s[0]) && Base64Char(s[1]) && Base64Char(s[2]) && Base64Char(s[3]) && DecodeGroups(s[4..]).Ok?
  {
    GroupUnrolls(s);
    Dec6Is(s[0]);
    Dec6Is(s[1]);
    Dec6Is(s[2]);
    Dec6Is(s[3]);
  }

  /** What is decoded at all: nothing but characters of the alphabet, line breaks aside, and not one over a
      multiple of four. */
  lemma {:induction false} DecodesIff(s: string)
    ensures DecodeGroups(s).Ok? <==> |s| % 4 != 1 && Alphabetic(s)
    decreases |s|
  {
    if |s| < 4 {
      ShortDecodes(s);
    } else {
      GroupDecodes(s);
      AlphabeticFour(s);
      FourLess(|s|);
      DecodesIff(s[4..]);
    }
  }

  // ---------------------------------------------------------------- %d, printed and scanned

  predicate IsDigit(c: char) { '0' <= c <= '9' }

  function Digit(d: int): char
    requires 0 <= d < 10
  {
    ('0' as int + d) as char
  }

  function Decimal(n: nat): string {
    if n < 10 then [Digit(n)] else Decimal(n / 10) + [Digit(n % 10)]
  }

  function Value(ds: string): nat
    requires forall i :: 0 <= i < |ds| ==> IsDigit(ds[i])
  {
    if ds == [] then 0
    else
      assert IsDigit(ds[|ds| - 1]);
      Value(ds[..|ds| - 1]) * 10 + (ds[|ds| - 1] as int - '0' as int)
  }

  /** How many digits `s` starts with. */
  function Leading(s: string): (n: nat)
    ensures n <= |s| && forall i :: 0 <= i < n ==> IsDigit(s[i])
  {
    if s == [] || !IsDigit(s[0]) then 0 else 1 + Leading(s[1..])
  }

  const MAX_INT: int := 0x7FFF_FFFF_FFFF_FFFF

  /** White space other than a newline is skipped before a number. */
  function SkipSpace(s: string): string {
    if s != [] && (s[0] == ' ' || s[0] == '\t' || s[0] == '\r' || s[0] as int == 11 || s[0] as int == 12)
    then SkipSpace(s[1..])
    else s
  }

  /** Sscanf's %d into an int: white space, an optional sign, one or more digits, within 64 bits. */
  function ScanInt(s0: string): Result<(int, string)> {
    var s1 := SkipSpace(s0);
    var signed := s1 != [] && (s1[0] == '+' || s1[0] == '-');
    var s := if signed then s1[1..] else s1;
    var n := Leading(s);
    if n == 0 then Err
    else
      var v: int := if signed && s1[0] == '-' then -(Value(s[..n]) as int) else Value(s[..n]);
      if -MAX_INT - 1 <= v <= MAX_INT then Ok((v, s[n..])) else Err
  }

  /** Literal text of a scan format. */
  function ScanText(s: string, text: string): Result<string> {
    if text <= s then Ok(s[|text|..]) else Err
  }

  /** Sscanf(s, text + "%d", ...), leaving what follows. */
  function ScanField(s: string, text: string): Result<(int, string)> {
    var r := ScanText(s, text);
    if r.Err? then Err else ScanInt(r.value)
  }

  lemma {:induction false} DecimalDigits(n: nat)
    ensures Decimal(n) != [] && forall i :: 0 <= i < |Decimal(n)| ==> IsDigit(Decimal(n)[i])
  {
    if n >= 10 { DecimalDigits(n / 10); }
  }

  lemma {:induction false} DecimalValue(n: nat)
    requires forall i :: 0 <= i < |Decimal(n)| ==> IsDigit(Decimal(n)[i])
    ensures Value(Decimal(n)) == n
  {
    var s := Decimal(n);
    if n >= 10 {
      DecimalDigits(n / 10);
      DecimalValue(n / 10);
      assert s[..|s| - 1] == Decimal(n / 10);
    } else {
      assert s[..|s| - 1] == [];
    }
  }

  lemma {:induction false} LeadingAll(ds: string, rest: string)
    requires forall i :: 0 <= i < |ds| ==> IsDigit(ds[i])
    requires rest == [] || !IsDigit(rest[0])
    ensures Leading(ds + rest) == |ds|
  {
    if ds == [] {
      assert ds + rest == rest;
    } else {
      LeadingAll(ds[1..], rest);
      assert (ds + rest)[1..] == ds[1..] + rest;
    }
  }

  /** A printed number scans back, up to whatever follows it. */
  lemma ScanDecimal(n: nat, rest: string)
    requires n <= MAX_INT && (rest == [] || !IsDigit(rest[0]))
    ensures ScanInt(Decimal(n) + rest) == Ok((n, rest))
  {
    var s := Decimal(n) + rest;
    DecimalDigits(n);
    DecimalValue(n);
    LeadingAll(Decimal(n), rest);
    assert s[0] == Decimal(n)[0] && SkipSpace(s) == s;
    assert s[..|Decimal(n)|] == Decimal(n) && s[|Decimal(n)|..] == rest;
  }

  /** White space before a number is skipped: space, tab, vertical tab, form feed, carriage return. */
  lemma SpaceIsSkipped(c: char, s: string)
    requires c == ' ' || c as int == 9 || c as int == 11 || c as int == 12 || c as int == 13
    ensures ScanInt([c] + s) == ScanInt(s)
  {
    assert ([c] + s)[1..] == s;
  }

  lemma ScanDigits(n: nat, rest: string)
    requires rest == [] || !IsDigit(rest[0])
    ensures var s := Decimal(n) + rest;
      && Leading(s) == |Decimal(n)| > 0 && s[..Leading(s)] == Decimal(n) && s[Leading(s)..] == rest
      && Value(s[..Leading(s)]) == n && IsDigit(s[0])
  {
    DecimalDigits(n);
    DecimalValue(n);
    LeadingAll(Decimal(n), rest);
    assert (Decimal(n) + rest)[0] == Decimal(n)[0];
    assert (Decimal(n) + rest)[..|Decimal(n)|] == Decimal(n);
  }

  /** A sign is read, and a number that does not fit in 64 bits is refused. */
  lemma ScanSigned(n: int, rest: string, sign: char)
    requires n >= 0 && (rest == [] || !IsDigit(rest[0])) && (sign == '+' || sign == '-')
    ensures var v := if sign == '-' then 0 - n else n;
      ScanInt([sign] + (Decimal(n) + rest)) ==
      if -9223372036854775808 <= v <= 9223372036854775807 then Ok((v, rest)) else Err
  {
    var t := Decimal(n) + rest;
    ScanDigits(n, rest);
    assert ([sign] + t)[1..] == t && SkipSpace([sign] + t) == [sign] + t;
  }

  /** Where there is no digit, after a sign or without one, there is no number. */
  lemma ScanNothing(s: string, sign: char)
    requires (s == [] || !IsDigit(s[0])) && SkipSpace(s) == s && (sign == '+' || sign == '-')
    ensures ScanInt([sign] + s) == Err
    ensures (s == [] || (s[0] != '+' && s[0] != '-')) ==> ScanInt(s) == Err
  {
    assert ([sign] + s)[1..] == s && SkipSpace([sign] + s) == [sign] + s;
  }

  lemma ScanUnsigned(n: int, rest: string)
    requires n >= 0 && (rest == [] || !IsDigit(rest[0]))
    ensures ScanInt(Decimal(n) + rest) == if n <= 9223372036854775807 then Ok((n, rest)) else Err
  {
    var t := Decimal(n) + rest;
    ScanDigits(n, rest);
    assert SkipSpace(t) == t;
  }

  lemma ScanPrinted(text: string, n: nat, rest: string)
    requires n <= MAX_INT && (rest == [] || !IsDigit(rest[0]))
    ensures ScanField(text + Decimal(n) + rest, text) == Ok((n, rest))
  {
    var s := text + Decimal(n) + rest;
    assert s == text + (Decimal(n) + rest);
    assert s[|text|..] == Decimal(n) + rest;
    ScanDecimal(n, rest);
  }

  /** Numbers are printed without leading zeros. */
  lemma {:induction false} NoLeadingZero(n: nat)
    ensures Decimal(n) != [] && (Decimal(n)[0] == '0' <==> n == 0) && (n == 0 ==> |Decimal(n)| == 1)
  {
    if n >= 10 { NoLeadingZero(n / 10); }
  }

  // ---------------------------------------------------------------- splitting

  function Split(s: string, c: char): (parts: seq<string>)
    ensures parts != []
  {
    if s == [] then [[]]
    else
      var rest := Split(s[1..], c);
      if s[0] == c then [[]] + rest else [[s[0]] + rest[0]] + rest[1..]
  }

  lemma {:induction false} SplitFirst(a: string, b: string, c: char)
    requires c !in a
    ensures Split(a + [c] + b, c) == [a] + Split(b, c)
  {
    var s := a + [c] + b;
    if a == [] {
      assert s[1..] == b;
    } else {
      SplitFirst(a[1..], b, c);
      assert s[1..] == a[1..] + [c] + b;
      assert a == [a[0]] + a[1..];
    }
  }

  lemma {:induction false} SplitLast(a: string, c: char)
    requires c !in a
    ensures Split(a, c) == [a]
  {
    if a != [] {
      SplitLast(a[1..], c);
      assert a == [a[0]] + a[1..];
    }
  }

  function Join(parts: seq<string>, c: char): string
    requires parts != []
  {
    if |parts| == 1 then parts[0] else parts[0] + [c] + Join(parts[1..], c)
  }

  /** The parts are what lies between the separators: joined again they are the string, and none has one. */
  lemma {:induction false} SplitIs(s: string, c: char)
    ensures Join(Split(s, c), c) == s && forall i :: 0 <= i < |Split(s, c)| ==> c !in Split(s, c)[i]
  {
    if s != [] {
      var rest, parts := Split(s[1..], c), Split(s, c);
      SplitIs(s[1..], c);
      if s[0] == c {
        assert parts[1..] == rest;
        assert [] + [c] + Join(rest, c) == [c] + s[1..];
      } else {
        assert parts[1..] == rest[1..];
        assert Join(parts, c) == [s[0]] + Join(rest, c);
      }
    }
  }

  // ---------------------------------------------------------------- the hash string

  const VERSION: nat := 19

  datatype Params = Params(memory: int, iterations: int, parallelism: int, saltLength: int, keyLength: int)
  datatype Decoded = Decoded(params: Params, salt: seq<Byte>, hash: seq<Byte>)

  function PrintVersion(): string { "v=" + Decimal(VERSION) }

  function PrintParams(m: nat, t: nat, p: nat): string {
    "m=" + Decimal(m) + (",t=" + Decimal(t) + (",p=" + Decimal(p)))
  }

  function Print(m: nat, t: nat, p: nat, salt: seq<Byte>, hash: seq<Byte>): string {
    "" + "$" + ("argon2id" + "$" + (PrintVersion() + "$"
      + (PrintParams(m, t, p) + "$" + (Encode(salt) + "$" + Encode(hash)))))
  }

  function Uint32(v: int): int { v % 0x1_0000_0000 }
  function Uint8(v: int): int { v % 0x100 }

  /** What is scanned from the parameter part; text after the last number is ignored. */
  function ScanParams(s: string): Result<(int, int, int)> {
    var m := ScanField(s, "m=");
    if m.Err? then Err
    else
      var t := ScanField(m.value.1, ",t=");
      if t.Err? then Err
      else
        var p := ScanField(t.value.1, ",p=");
        if p.Err? then Err else Ok((m.value.0, t.value.0, p.value.0))
  }

  function DecodeHash(s: string): Result<Decoded> { DecodeParts(Split(s, '$')) }

  function DecodeParts(parts: seq<string>): Result<Decoded> {
    if |parts| != 6 || parts[0] != "" || parts[1] != "argon2id" then Err
    else DecodeFields(parts[2], parts[3], parts[4], parts[5])
  }

  function DecodeFields(version: string, params: string, salt: string, hash: string): Result<Decoded> {
    var v := ScanField(version, "v=");
    if v.Err? || v.value.0 != VERSION then Err
    else
      var ps := ScanParams(params);
      if ps.Err? then Err
      else
        var s := Decode(salt);
        if s.Err? then Err
        else
          var h := Decode(hash);
          if h.Err? then Err else Ok(DecodedOf(ps.value, s.value, h.value))
  }

  function DecodedOf(params: (int, int, int), salt: seq<Byte>, hash: seq<Byte>): Decoded {
    var (m, t, p) := params;
    Decoded(Params(Uint32(m), Uint32(t), Uint8(p), Uint32(|salt|), Uint32(|hash|)), salt, hash)
  }

  lemma {:induction false} DecimalPlain(n: nat)
    ensures '$' !in Decimal(n)
  {
    DecimalDigits(n);
  }

  lemma LastParts(params: string, salt: string, hash: string)
    requires '$' !in params && '$' !in salt && '$' !in hash
    ensures Split(params + "$" + (salt + "$" + hash), '$') == [params, salt, hash]
  {
    SplitLast(hash, '$');
    SplitFirst(salt, hash, '$');
    SplitFirst(params, salt + "$" + hash, '$');
  }

  lemma ThreeFirst(a: string, b: string, c: string, rest: seq<string>)
    ensures [a] + ([b] + ([c] + rest)) == [a, b, c] + rest
  {
  }

  lemma FirstParts(version: string, rest: string)
    requires '$' !in version
    ensures Split("" + "$" + ("argon2id" + "$" + (version + "$" + rest)), '$') ==
      ["", "argon2id", version] + Split(rest, '$')
  {
    var b := version + "$" + rest;
    SplitFirst(version, rest, '$');
    SplitFirst("argon2id", b, '$');
    SplitFirst("", "argon2id" + "$" + b, '$');
    ThreeFirst("", "argon2id", version, Split(rest, '$'));
  }

  lemma PartsOfPrint(m: nat, t: nat, p: nat, salt: seq<Byte>, hash: seq<Byte>)
    ensures Split(Print(m, t, p, salt, hash), '$') ==
            ["", "argon2id", PrintVersion(), PrintParams(m, t, p), Encode(salt), Encode(hash)]
  {
    EncodeIsPlain(salt);
    EncodeIsPlain(hash);
    DecimalPlain(VERSION);
    DecimalPlain(m);
    DecimalPlain(t);
    DecimalPlain(p);
    LastParts(PrintParams(m, t, p), Encode(salt), Encode(hash));
    FirstParts(PrintVersion(), PrintParams(m, t, p) + "$" + (Encode(salt) + "$" + Encode(hash)));
  }

  lemma ParamsRoundTrip(m: nat, t: nat, p: nat)
    requires m <= MAX_INT && t <= MAX_INT && p <= MAX_INT
    ensures ScanParams(PrintParams(m, t, p)) == Ok((m as int, t as int, p as int))
  {
    var ps := ",p=" + Decimal(p);
    var ts := ",t=" + Decimal(t) + ps;
    ScanPrinted("m=", m, ts);
    ScanPrinted(",t=", t, ps);
    ScanPrinted(",p=", p, "");
    assert ",p=" + Decimal(p) + "" == ps;
    assert PrintParams(m, t, p) == "m=" + Decimal(m) + ts;
  }

  /** decodeHash recovers everything that was printed. */
  lemma HashStringRoundTrip(m: nat, t: nat, p: nat, salt: seq<Byte>, hash: seq<Byte>)
    requires m < 0x1_0000_0000 && t < 0x1_0000_0000 && p < 0x100
    requires |salt| < 0x1_0000_0000 && |hash| < 0x1_0000_0000
    ensures DecodeHash(Print(m, t, p, salt, hash)) == Ok(Decoded(Params(m, t, p, |salt|, |hash|), salt, hash))
  {
    PartsOfPrint(m, t, p, salt, hash);
    VersionRoundTrip();
    ParamsRoundTrip(m, t, p);
    Base64RoundTrip(salt);
    Base64RoundTrip(hash);
    PartsDecode(PrintVersion(), PrintParams(m, t, p), Encode(salt), Encode(hash), m, t, p);
    FitsUnsigned(m, t, p, |salt|, |hash|);
    DecodeSplit(Print(m, t, p, salt, hash),
      ["", "argon2id", PrintVersion(), PrintParams(m, t, p), Encode(salt), Encode(hash)]);
  }

  lemma DecodeSplit(s: string, parts: seq<string>)
    requires Split(s, '$') == parts
    ensures DecodeHash(s) == DecodeParts(parts)
  {
  }

  /** Parameters are cut to 32 and 8 bits: what is left is in range, and differs by a multiple. */
  lemma UnsignedIs(v: int)
    ensures 0 <= Uint32(v) < 4294967296 && (v - Uint32(v)) % 4294967296 == 0
    ensures 0 <= Uint8(v) < 256 && (v - Uint8(v)) % 256 == 0
  {
  }

  lemma FitsUnsigned(m: nat, t: nat, p: nat, s: nat, h: nat)
    requires m < 0x1_0000_0000 && t < 0x1_0000_0000 && p < 0x100 && s < 0x1_0000_0000 && h < 0x1_0000_0000
    ensures Params(Uint32(m), Uint32(t), Uint8(p), Uint32(s), Uint32(h)) == Params(m, t, p, s, h)
  {
  }

  lemma VersionRoundTrip()
    ensures ScanField(PrintVersion(), "v=") == Ok((VERSION, ""))
  {
    ScanPrinted("v=", VERSION, "");
    assert "v=" + Decimal(VERSION) + "" == PrintVersion();
  }

  lemma FieldsDecode(version: string, params: string, salt: string, hash: string, m: int, t: int, p: int)
    requires ScanField(version, "v=") == Ok((VERSION, "")) && ScanParams(params) == Ok((m, t, p))
    requires Decode(salt).Ok? && Decode(hash).Ok?
    ensures DecodeFields(version, params, salt, hash) ==
      Ok(DecodedOf((m, t, p), Decode(salt).value, Decode(hash).value))
  {
  }

  lemma PartsAreFields(version: string, params: string, salt: string, hash: string)
    ensures DecodeParts(["", "argon2id", version, params, salt, hash]) == DecodeFields(version, params, salt, hash)
  {
    var parts := ["", "argon2id", version, params, salt, hash];
    assert parts[0] == "" && parts[1] == "argon2id" && parts[2] == version;
    assert parts[3] == params && parts[4] == salt && parts[5] == hash;
  }

  lemma PartsDecode(version: string, params: string, salt: string, hash: string, m: int, t: int, p: int)
    requires ScanField(version, "v=") == Ok((VERSION, "")) && ScanParams(params) == Ok((m, t, p))
    requires Decode(salt).Ok? && Decode(hash).Ok?
    ensures var s, h := Decode(salt).value, Decode(hash).value;
      DecodeParts(["", "argon2id", version, params, salt, hash]) ==
      Ok(Decoded(Params(Uint32(m), Uint32(t), Uint8(p), Uint32(|s|), Uint32(|h|)), s, h))
  {
    FieldsDecode(version, params, salt, hash, m, t, p);
    PartsAreFields(version, params, salt, hash);
  }

  // ---------------------------------------------------------------- hashing and verifying

  const MEMORY: nat := 65536
  const ITERATIONS: nat := 3
  const PARALLELISM: nat := 2
  const KEY_LENGTH: nat := 32

  /** password, salt, iterations, memory, parallelism, key length */
  type Argon2 = (string, seq<Byte>, int, int, int, int) -> seq<Byte>

  function HashPassword(argon: Argon2, password: string, salt: seq<Byte>): string {
    Print(MEMORY, ITERATIONS, PARALLELISM, salt, argon(password, salt, ITERATIONS, MEMORY, PARALLELISM, KEY_LENGTH))
  }

  /** Argon2 itself panics on zero iterations or threads. */
  datatype Verdict = Malformed | Panics | Checked(valid: bool)

  function VerifyPassword(argon: Argon2, password: string, encoded: string): Verdict {
    match DecodeHash(encoded)
    case Err => Malformed
    case Ok(d) =>
      if d.params.iterations < 1 || d.params.parallelism < 1 then Panics
      else
        var p := d.params;
        Checked(d.hash == argon(password, d.salt, p.iterations, p.memory, p.parallelism, p.keyLength))
  }

  lemma NumbersPrinted()
    ensures Decimal(19) == "19" && Decimal(3) == "3" && Decimal(2) == "2" && Decimal(65536) == "65536"
  {
    assert Decimal(65) == "65" && Decimal(655) == "655" && Decimal(6553) == "6553";
  }

  lemma ParametersPrinted()
    ensures PrintVersion() == "v=19" && PrintParams(65536, 3, 2) == "m=65536,t=3,p=2"
  {
    NumbersPrinted();
  }

  /** The string that HashPassword makes, part by part. */
  lemma HashedText(argon: Argon2, password: string, salt: seq<Byte>)
    ensures Split(HashPassword(argon, password, salt), '$') ==
            ["", "argon2id", "v=19", "m=65536,t=3,p=2", Encode(salt), Encode(argon(password, salt, 3, 65536, 2, 32))]
  {
    ParametersPrinted();
    PartsOfPrint(65536, 3, 2, salt, argon(password, salt, 3, 65536, 2, 32));
  }

  /** What is parsed at all: six parts of which the first is empty, the second names the algorithm and the third
      its version 19, three scanned parameters, and two base64 parts. */
  lemma ParsesIff(s: string)
    ensures var ps := Split(s, '$');
      DecodeHash(s).Ok? <==>
        && |ps| == 6 && ps[0] == "" && ps[1] == "argon2id"
        && ScanField(ps[2], "v=").Ok? && ScanField(ps[2], "v=").value.0 == 19
        && ScanParams(ps[3]).Ok? && Decode(ps[4]).Ok? && Decode(ps[5]).Ok?
  {
  }

  /** Verifying against any printed hash: with no iterations or threads Argon2 panics, otherwise it is asked with
      the printed parameters, the printed salt and the length of the printed hash. */
  lemma VerifyPrinted(argon: Argon2, password: string, m: nat, t: nat, p: nat, salt: seq<Byte>, hash: seq<Byte>)
    requires m < 0x1_0000_0000 && t < 0x1_0000_0000 && p < 0x100
    requires |salt| < 0x1_0000_0000 && |hash| < 0x1_0000_0000
    ensures VerifyPassword(argon, password, Print(m, t, p, salt, hash)) ==
            if t == 0 || p == 0 then Panics else Checked(hash == argon(password, salt, t, m, p, |hash|))
  {
    HashStringRoundTrip(m, t, p, salt, hash);
  }

  /** A hash verifies for exactly the passwords whose Argon2 value is the same, its own among them. */
  lemma VerifyHashed(argon: Argon2, password: string, salt: seq<Byte>, other: string)
    requires |salt| < 0x1_0000_0000
    requires |argon(password, salt, ITERATIONS, MEMORY, PARALLELISM, KEY_LENGTH)| == KEY_LENGTH
    ensures VerifyPassword(argon, password, HashPassword(argon, password, salt)) == Checked(true)
    ensures VerifyPassword(argon, other, HashPassword(argon, password, salt)) ==
            Checked(argon(other, salt, ITERATIONS, MEMORY, PARALLELISM, KEY_LENGTH) ==
              argon(password, salt, ITERATIONS, MEMORY, PARALLELISM, KEY_LENGTH))
  {
    HashStringRoundTrip(MEMORY, ITERATIONS, PARALLELISM, salt,
      argon(password, salt, ITERATIONS, MEMORY, PARALLELISM, KEY_LENGTH));
  }
}
