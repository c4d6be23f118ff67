/**
 * The pagination cursor (internal/handler/pagination.go): a timestamp and a UUID as text, joined by a
 * bar and wrapped in URL-safe base64 (section 5 of RFC 4648; section 5.6 of RFC 3339), and read back.
 * A Go string of bytes is a string whose characters are below 256.
 */
module CursorCodec {
  import opened Prelude

  predicate Bytes(s: string) {
    forall i | 0 <= i < |s| :: s[i] as int < 256
  }

  // ---------------------------------------------------------------- base64

  function Sextet(v: int): char
    requires 0 <= v < 64
  {
    if v < 26 then (v + 65) as char
    else if v < 52 then (v + 71) as char
    else if v < 62 then (v - 4) as char
    else if v == 62 then '-' else '_'
  }

  function SextetValue(c: char): Option<int> {
    if 'A' <= c <= 'Z' then Some(c as int - 65)
    else if 'a' <= c <= 'z' then Some(c as int - 71)
    else if '0' <= c <= '9' then Some(c as int + 4)
    else if c == '-' then Some(62)
    else if c == '_' then Some(63)
    else None
  }

  predicate Byte(b: int) { 0 <= b < 256 }

  /** Three bytes as four sextets. */
  function Group(b0: int, b1: int, b2: int): (g: string)
    requires Byte(b0) && Byte(b1) && Byte(b2)
    ensures |g| == 4
  {
    [Sextet(b0 / 4), Sextet(b0 % 4 * 16 + b1 / 16), Sextet(b1 % 16 * 4 + b2 / 64), Sextet(b2 % 64)]
  }

  function EncodeBase64(s: string): string
    requires Bytes(s)
  {
    if s == "" then ""
    else if |s| == 1 then Group(s[0] as int, 0, 0)[..2] + "=="
    else if |s| == 2 then Group(s[0] as int, s[1] as int, 0)[..3] + "="
    else Group(s[0] as int, s[1] as int, s[2] as int) + EncodeBase64(s[3..])
  }

  /** The decoder skips line breaks; everything else must come in quanta of four, padded only at the end. */
  function WithoutBreaks(s: string): string {
    if s == "" then ""
    else if s[0] == '\r' || s[0] == '\n' then WithoutBreaks(s[1..])
    else [s[0]] + WithoutBreaks(s[1..])
  }

  /** Four characters of the alphabet as three bytes. */
  function Ungroup(g: string): Option<string>
    requires |g| == 4
  {
    var v0, v1, v2, v3 := SextetValue(g[0]), SextetValue(g[1]), SextetValue(g[2]), SextetValue(g[3]);
    if v0.None? || v1.None? || v2.None? || v3.None? then None
    else Some([((v0.value * 4 + v1.value / 16) % 256) as char,
               ((v1.value % 16 * 16 + v2.value / 4) % 256) as char,
               ((v2.value % 4 * 64 + v3.value) % 256) as char])
  }

  /** Padding stands for sextets whose bytes are not used. */
  function UngroupLast(g: string): Option<string>
    requires |g| == 4
  {
    if g[2..] == "==" then
      var bytes := Ungroup(g[..2] + "AA");
      if bytes.Some? && |bytes.value| == 3 then Some(bytes.value[..1]) else None
    else if g[3..] == "=" then
      var bytes := Ungroup(g[..3] + "A");
      if bytes.Some? && |bytes.value| == 3 then Some(bytes.value[..2]) else None
    else None
  }

  function DecodeQuanta(s: string): Option<string> {
    if s == "" then Some("")
    else if |s| < 4 then None
    else
      var bytes := Ungroup(s[..4]);
      if bytes.None? then (if |s| == 4 then UngroupLast(s) else None)
      else
        match DecodeQuanta(s[4..])
        case None => None
        case Some(rest) => Some(bytes.value + rest)
  }

  function DecodeBase64(s: string): Option<string> {
    DecodeQuanta(WithoutBreaks(s))
  }

  lemma SextetRoundTrip(v: int)
    requires 0 <= v < 64
    ensures SextetValue(Sextet(v)) == Some(v)
    ensures Sextet(v) != '\r' && Sextet(v) != '\n' && Sextet(v) != '='
  {
  }

  lemma {:induction false} NoBreaks(s: string)
    requires forall i | 0 <= i < |s| :: s[i] != '\r' && s[i] != '\n'
    ensures WithoutBreaks(s) == s
    decreases |s|
  {
    if s != "" {
      NoBreaks(s[1..]);
      assert s == [s[0]] + s[1..];
    }
  }

  /** Three bytes survive as four sextets. */
  lemma TripleRoundTrip(b0: int, b1: int, b2: int)
    requires Byte(b0) && Byte(b1) && Byte(b2)
    ensures
      var v0, v1, v2, v3 := b0 / 4, b0 % 4 * 16 + b1 / 16, b1 % 16 * 4 + b2 / 64, b2 % 64;
      && 0 <= v0 < 64 && 0 <= v1 < 64 && 0 <= v2 < 64 && 0 <= v3 < 64
      && v0 * 4 + v1 / 16 == b0 && v1 % 16 * 16 + v2 / 4 == b1 && v2 % 4 * 64 + v3 == b2
  {
  }

  /** The decoder on four characters that carry three bytes. */
  lemma UngroupChars(g: string, v0: int, v1: int, v2: int, v3: int, b0: int, b1: int, b2: int)
    requires |g| == 4 && Byte(b0) && Byte(b1) && Byte(b2)
    requires SextetValue(g[0]) == Some(v0) && SextetValue(g[1]) == Some(v1)
    requires SextetValue(g[2]) == Some(v2) && SextetValue(g[3]) == Some(v3)
    requires v0 * 4 + v1 / 16 == b0 && v1 % 16 * 16 + v2 / 4 == b1 && v2 % 4 * 64 + v3 == b2
    ensures Ungroup(g) == Some([b0 as char, b1 as char, b2 as char])
  {
    ByteModulo(b0);
    ByteModulo(b1);
    ByteModulo(b2);
    assert (v0 * 4 + v1 / 16) % 256 == b0;
    assert (v1 % 16 * 16 + v2 / 4) % 256 == b1;
    assert (v2 % 4 * 64 + v3) % 256 == b2;
  }

  lemma ByteModulo(b: int)
    requires Byte(b)
    ensures b % 256 == b
  {
  }

  lemma UngroupSextets(v0: int, v1: int, v2: int, v3: int, b0: int, b1: int, b2: int)
    requires 0 <= v0 < 64 && 0 <= v1 < 64 && 0 <= v2 < 64 && 0 <= v3 < 64 && Byte(b0) && Byte(b1) && Byte(b2)
    requires v0 * 4 + v1 / 16 == b0 && v1 % 16 * 16 + v2 / 4 == b1 && v2 % 4 * 64 + v3 == b2
    ensures Ungroup([Sextet(v0), Sextet(v1), Sextet(v2), Sextet(v3)]) == Some([b0 as char, b1 as char, b2 as char])
  {
    SextetRoundTrip(v0);
    SextetRoundTrip(v1);
    SextetRoundTrip(v2);
    SextetRoundTrip(v3);
    UngroupChars([Sextet(v0), Sextet(v1), Sextet(v2), Sextet(v3)], v0, v1, v2, v3, b0, b1, b2);
  }

  lemma SextetsAreUnbroken(v0: int, v1: int, v2: int, v3: int)
    requires 0 <= v0 < 64 && 0 <= v1 < 64 && 0 <= v2 < 64 && 0 <= v3 < 64
    ensures Unbroken([Sextet(v0), Sextet(v1), Sextet(v2), Sextet(v3)]) && Sextet(v2) != '='
  {
    SextetRoundTrip(v0);
    SextetRoundTrip(v1);
    SextetRoundTrip(v2);
    SextetRoundTrip(v3);
  }

  lemma GroupRoundTrip(b0: int, b1: int, b2: int)
    requires Byte(b0) && Byte(b1) && Byte(b2)
    ensures Ungroup(Group(b0, b1, b2)) == Some([b0 as char, b1 as char, b2 as char])
  {
    TripleRoundTrip(b0, b1, b2);
    UngroupSextets(b0 / 4, b0 % 4 * 16 + b1 / 16, b1 % 16 * 4 + b2 / 64, b2 % 64, b0, b1, b2);
  }

  lemma GroupIsUnbroken(b0: int, b1: int, b2: int)
    requires Byte(b0) && Byte(b1) && Byte(b2)
    ensures Unbroken(Group(b0, b1, b2)) && Group(b0, b1, b2)[2] != '='
  {
    TripleRoundTrip(b0, b1, b2);
    SextetsAreUnbroken(b0 / 4, b0 % 4 * 16 + b1 / 16, b1 % 16 * 4 + b2 / 64, b2 % 64);
  }

  predicate Unbroken(s: string) { forall i | 0 <= i < |s| :: s[i] != '\r' && s[i] != '\n' }

  lemma JoinUnbroken(s: string, t: string)
    requires Unbroken(s) && Unbroken(t)
    ensures Unbroken(s + t)
  {
  }

  /** A padded last quantum. */
  lemma PaddedThen(s: string)
    requires |s| == 4 && SextetValue(s[3]).None?
    ensures DecodeQuanta(s) == UngroupLast(s)
  {
    assert s[..4] == s;
  }

  lemma OneByteRoundTrip(b0: int)
    requires Byte(b0)
    ensures
      var s := Group(b0, 0, 0)[..2] + "==";
      |s| == 4 && DecodeQuanta(s) == Some([b0 as char]) && Unbroken(s)
  {
    var g := Group(b0, 0, 0);
    var s := g[..2] + "==";
    GroupRoundTrip(b0, 0, 0);
    GroupIsUnbroken(b0, 0, 0);
    JoinUnbroken(g[..2], "==");
    PaddedThen(s);
    assert s[2..] == "==" && s[..2] + "AA" == g;
    assert [b0 as char, 0 as char, 0 as char][..1] == [b0 as char];
  }

  lemma TwoBytesRoundTrip(b0: int, b1: int)
    requires Byte(b0) && Byte(b1)
    ensures
      var s := Group(b0, b1, 0)[..3] + "=";
      |s| == 4 && DecodeQuanta(s) == Some([b0 as char, b1 as char]) && Unbroken(s)
  {
    var g := Group(b0, b1, 0);
    var s := g[..3] + "=";
    GroupRoundTrip(b0, b1, 0);
    GroupIsUnbroken(b0, b1, 0);
    JoinUnbroken(g[..3], "=");
    PaddedThen(s);
    assert s[2] == g[2];
    assert s[3..] == "=" && s[..3] + "A" == g;
    assert [b0 as char, b1 as char, 0 as char][..2] == [b0 as char, b1 as char];
  }

  lemma GroupThen(g: string, bytes: string, rest: string)
    requires |g| == 4 && Ungroup(g) == Some(bytes) && DecodeQuanta(rest).Some?
    ensures DecodeQuanta(g + rest) == Some(bytes + DecodeQuanta(rest).value)
  {
    assert (g + rest)[..4] == g && (g + rest)[4..] == rest;
  }

  lemma {:induction false} QuantaRoundTrip(s: string)
    requires Bytes(s)
    ensures DecodeQuanta(EncodeBase64(s)) == Some(s)
    decreases |s|
  {
    if |s| == 1 {
      OneByteRoundTrip(s[0] as int);
      assert s == [s[0]];
    } else if |s| == 2 {
      TwoBytesRoundTrip(s[0] as int, s[1] as int);
      assert s == [s[0], s[1]];
    } else if |s| > 2 {
      QuantaRoundTrip(s[3..]);
      QuantumThen(s, EncodeBase64(s[3..]));
    }
  }

  lemma QuantumThen(s: string, rest: string)
    requires Bytes(s) && |s| > 2 && DecodeQuanta(rest) == Some(s[3..])
    ensures DecodeQuanta(Group(s[0] as int, s[1] as int, s[2] as int) + rest) == Some(s)
  {
    var b0, b1, b2 := s[0] as int, s[1] as int, s[2] as int;
    GroupRoundTrip(b0, b1, b2);
    GroupThen(Group(b0, b1, b2), [s[0], s[1], s[2]], rest);
    assert s == [s[0], s[1], s[2]] + s[3..];
  }

  lemma {:induction false} EncodedIsLonger(s: string)
    requires Bytes(s)
    ensures |EncodeBase64(s)| >= |s|
    decreases |s|
  {
    if |s| > 2 {
      EncodedIsLonger(s[3..]);
    }
  }

  lemma {:induction false} EncodedIsUnbroken(s: string)
    requires Bytes(s)
    ensures Unbroken(EncodeBase64(s))
    decreases |s|
  {
    if |s| == 1 {
      OneByteRoundTrip(s[0] as int);
    } else if |s| == 2 {
      TwoBytesRoundTrip(s[0] as int, s[1] as int);
    } else if |s| > 2 {
      var b0, b1, b2 := s[0] as int, s[1] as int, s[2] as int;
      EncodedIsUnbroken(s[3..]);
      GroupIsUnbroken(b0, b1, b2);
      JoinUnbroken(Group(b0, b1, b2), EncodeBase64(s[3..]));
    }
  }

  // ---------------------------------------------------------------- Decimal and hexadecimal digits

  function DigitChar(v: int): char
    requires 0 <= v < 10
  {
    (v + 48) as char
  }

  function Decimal(n: int, width: nat): string
    requires n >= 0
  {
    if width == 0 then "" else Decimal(n / 10, width - 1) + [DigitChar(n % 10)]
  }

  predicate AllDigits(s: string) {
    forall i | 0 <= i < |s| :: '0' <= s[i] <= '9'
  }

  function DecimalValue(s: string): nat
    requires AllDigits(s)
  {
    if s == "" then 0 else DecimalValue(s[..|s| - 1]) * 10 + (s[|s| - 1] as int - 48)
  }

  function Power10(k: nat): (p: nat)
    ensures p > 0
  {
    if k == 0 then 1 else 10 * Power10(k - 1)
  }

  lemma {:induction false} DecimalRoundTrip(n: int, width: nat)
    requires 0 <= n < Power10(width)
    ensures |Decimal(n, width)| == width && AllDigits(Decimal(n, width))
    ensures DecimalValue(Decimal(n, width)) == n
    decreases width
  {
    if width > 0 {
      DecimalRoundTrip(n / 10, width - 1);
      var s := Decimal(n, width);
      assert s[..width - 1] == Decimal(n / 10, width - 1);
    }
  }

  /** parseUint on a field of the timestamp: digits within bounds. */
  function ParseField(s: string, low: int, high: int): Option<int> {
    if AllDigits(s) && low <= DecimalValue(s) <= high then Some(DecimalValue(s)) else None
  }

  lemma FieldRoundTrip(n: int, width: nat, low: int, high: int)
    requires 0 <= low <= n <= high < Power10(width)
    ensures |Decimal(n, width)| == width && AllDigits(Decimal(n, width))
    ensures ParseField(Decimal(n, width), low, high) == Some(n)
  {
    DecimalRoundTrip(n, width);
  }

  // ---------------------------------------------------------------- RFC 3339 timestamps

  /** A civil time with its zone offset in minutes east of UTC. */
  datatype Stamp = Stamp(
    year: int, month: int, day: int, hour: int, minute: int, second: int, nanos: int, offset: int)

  predicate IsLeap(year: int) {
    year % 4 == 0 && (year % 100 != 0 || year % 400 == 0)
  }

  function DaysIn(month: int, year: int): int {
    if month == 2 then (if IsLeap(year) then 29 else 28)
    else if month in {4, 6, 9, 11} then 30 else 31
  }

  /** Times with a four-digit year and an offset of whole minutes within a day. */
  predicate ValidStamp(t: Stamp) {
    && 0 <= t.year <= 9999 && 1 <= t.month <= 12 && 1 <= t.day <= DaysIn(t.month, t.year)
    && 0 <= t.hour <= 23 && 0 <= t.minute <= 59 && 0 <= t.second <= 59
    && 0 <= t.nanos < 1_000_000_000 && -1440 < t.offset < 1440
  }

  /** The fraction without its trailing zeros. */
  function TrimZeros(s: string): string {
    if s != "" && s[|s| - 1] == '0' then TrimZeros(s[..|s| - 1]) else s
  }

  function FormatFraction(nanos: int): string
    requires nanos >= 0
  {
    if nanos == 0 then "" else "." + TrimZeros(Decimal(nanos, 9))
  }

  function FormatZone(offset: int): string {
    if offset == 0 then "Z" else
    var minutes := if offset < 0 then -offset else offset;
    [if offset < 0 then '-' else '+'] + Decimal(minutes / 60, 2) + ":" + Decimal(minutes % 60, 2)
  }

  function FormatDate(t: Stamp): string
    requires ValidStamp(t)
  {
    Decimal(t.year, 4) + "-" + Decimal(t.month, 2) + "-" + Decimal(t.day, 2)
  }

  function FormatClock(t: Stamp): string
    requires ValidStamp(t)
  {
    "T" + Decimal(t.hour, 2) + ":" + Decimal(t.minute, 2) + ":" + Decimal(t.second, 2)
  }

  /** Format(time.RFC3339Nano) */
  function FormatStamp(t: Stamp): string
    requires ValidStamp(t)
  {
    FormatDate(t) + FormatClock(t) + (FormatFraction(t.nanos) + FormatZone(t.offset))
  }

  function LeadingDigits(s: string): (n: nat)
    ensures n <= |s| && AllDigits(s[..n]) && (n < |s| ==> !('0' <= s[n] <= '9'))
  {
    if s != "" && '0' <= s[0] <= '9' then
      var n := LeadingDigits(s[1..]);
      assert forall i | 0 <= i < n :: s[1..][..n][i] == s[i + 1];
      n + 1
    else 0
  }

  /** The digits after the point as nanoseconds; digits beyond the ninth are dropped. */
  function FractionValue(digits: string): nat
    requires AllDigits(digits)
  {
    if |digits| > 9 then DecimalValue(digits[..9]) else DecimalValue(digits) * Power10(9 - |digits|)
  }

  function ParseZone(s: string): Option<int> {
    if s == "Z" then Some(0)
    else if |s| != 6 || s[3] != ':' || (s[0] != '+' && s[0] != '-') then None
    else
      var hours, minutes := ParseField(s[1..3], 0, 23), ParseField(s[4..6], 0, 59);
      if hours.None? || minutes.None? then None
      else
        var offset := hours.value * 60 + minutes.value;
        Some(if s[0] == '-' then -offset else offset)
  }

  /** Nanoseconds and offset: what follows the seconds. */
  function ParseTail(s: string): Option<(nat, int)> {
    if |s| >= 2 && s[0] == '.' && '0' <= s[1] <= '9' then
      var n := LeadingDigits(s[1..]);
      match ParseZone(s[1 + n..])
      case None => None
      case Some(offset) => Some((FractionValue(s[1..][..n]), offset))
    else
      match ParseZone(s)
      case None => None
      case Some(offset) => Some((0, offset))
  }

  /** time.Parse(time.RFC3339Nano, ...) on its strict path. */
  function ParseStamp(s: string): Option<Stamp> {
    if |s| < 19 || s[4] != '-' || s[7] != '-' || s[10] != 'T' || s[13] != ':' || s[16] != ':' then None
    else
      var year, month := ParseField(s[0..4], 0, 9999), ParseField(s[5..7], 1, 12);
      var hour, minute, second :=
        ParseField(s[11..13], 0, 23), ParseField(s[14..16], 0, 59), ParseField(s[17..19], 0, 59);
      if year.None? || month.None? || hour.None? || minute.None? || second.None? then None
      else
        var day := ParseField(s[8..10], 1, DaysIn(month.value, year.value));
        var tail := ParseTail(s[19..]);
        if day.None? || tail.None? then None
        else Some(Stamp(year.value, month.value, day.value, hour.value, minute.value, second.value,
                        tail.value.0, tail.value.1))
  }

  lemma {:induction false} TrimmedValue(s: string)
    requires AllDigits(s) && |s| <= 9
    ensures AllDigits(TrimZeros(s)) && |TrimZeros(s)| <= |s|
    ensures FractionValue(TrimZeros(s)) == FractionValue(s)
    decreases |s|
  {
    if s != "" && s[|s| - 1] == '0' {
      TrimmedValue(s[..|s| - 1]);
      assert DecimalValue(s) == DecimalValue(s[..|s| - 1]) * 10;
      assert Power10(9 - (|s| - 1)) == 10 * Power10(9 - |s|);
      TimesTen(DecimalValue(s[..|s| - 1]), Power10(9 - |s|));
    }
  }

  lemma TimesTen(a: int, b: int)
    ensures a * (10 * b) == (a * 10) * b
  {
  }

  lemma {:induction false} AllZeros(s: string)
    requires AllDigits(s) && TrimZeros(s) == ""
    ensures DecimalValue(s) == 0
    decreases |s|
  {
    if s != "" {
      AllZeros(s[..|s| - 1]);
    }
  }

  lemma {:induction false} DigitsBefore(digits: string, rest: string)
    requires AllDigits(digits) && (rest == "" || !('0' <= rest[0] <= '9'))
    ensures LeadingDigits(digits + rest) == |digits|
    decreases |digits|
  {
    if digits == "" {
      assert digits + rest == rest;
    } else {
      assert (digits + rest)[1..] == digits[1..] + rest;
      DigitsBefore(digits[1..], rest);
    }
  }

  lemma ZoneText(sign: char, hours: string, minutes: string)
    requires |hours| == 2 && |minutes| == 2
    ensures
      var s := [sign] + hours + ":" + minutes;
      |s| == 6 && s[0] == sign && s[1..3] == hours && s[3] == ':' && s[4..6] == minutes
  {
  }

  lemma ParseZoneText(sign: char, hours: string, minutes: string)
    requires |hours| == 2 && |minutes| == 2 && (sign == '+' || sign == '-')
    requires ParseField(hours, 0, 23).Some? && ParseField(minutes, 0, 59).Some?
    ensures
      var offset := ParseField(hours, 0, 23).value * 60 + ParseField(minutes, 0, 59).value;
      ParseZone([sign] + hours + ":" + minutes) == Some(if sign == '-' then -offset else offset)
  {
    ZoneText(sign, hours, minutes);
  }

  lemma ZoneRoundTrip(offset: int)
    requires -1440 < offset < 1440
    ensures ParseZone(FormatZone(offset)) == Some(offset)
    ensures FormatZone(offset) != "" && FormatZone(offset)[0] in {'Z', '+', '-'}
  {
    if offset != 0 {
      var minutes := if offset < 0 then -offset else offset;
      NineDigits();
      FieldRoundTrip(minutes / 60, 2, 0, 23);
      FieldRoundTrip(minutes % 60, 2, 0, 59);
      ParseZoneText(if offset < 0 then '-' else '+', Decimal(minutes / 60, 2), Decimal(minutes % 60, 2));
    }
  }

  /** The digits of a fraction denote its nanoseconds again; there is at least one. */
  lemma FractionRoundTrip(nanos: int)
    requires 0 < nanos < 1_000_000_000
    ensures
      var digits := TrimZeros(Decimal(nanos, 9));
      digits != "" && AllDigits(digits) && FractionValue(digits) == nanos
  {
    NineDigits();
    DecimalRoundTrip(nanos, 9);
    TrimmedValue(Decimal(nanos, 9));
    assert Power10(0) == 1 && FractionValue(Decimal(nanos, 9)) == nanos;
    if TrimZeros(Decimal(nanos, 9)) == "" {
      AllZeros(Decimal(nanos, 9));
    }
  }

  lemma ParseFraction(digits: string, zone: string)
    requires digits != "" && AllDigits(digits) && zone != "" && !('0' <= zone[0] <= '9') && ParseZone(zone).Some?
    ensures ParseTail(("." + digits) + zone) == Some((FractionValue(digits), ParseZone(zone).value))
  {
    var s := ("." + digits) + zone;
    assert s[1..] == digits + zone;
    DigitsBefore(digits, zone);
    assert s[1..][..|digits|] == digits && s[1 + |digits|..] == zone;
  }

  lemma TailRoundTrip(nanos: int, offset: int)
    requires 0 <= nanos < 1_000_000_000 && -1440 < offset < 1440
    ensures ParseTail(FormatFraction(nanos) + FormatZone(offset)) == Some((nanos, offset))
  {
    ZoneRoundTrip(offset);
    if nanos == 0 {
      assert FormatFraction(nanos) + FormatZone(offset) == FormatZone(offset);
    } else {
      FractionRoundTrip(nanos);
      ParseFraction(TrimZeros(Decimal(nanos, 9)), FormatZone(offset));
    }
  }

  lemma NineDigits()
    ensures Power10(9) == 1_000_000_000 && Power10(4) == 10_000 && Power10(2) == 100
  {
    assert Power10(1) == 10 && Power10(2) == 100 && Power10(3) == 1000 && Power10(4) == 10_000;
    assert Power10(5) == 100_000 && Power10(6) == 1_000_000 && Power10(7) == 10_000_000 && Power10(8) == 100_000_000;
  }

  lemma StampText(y: string, mo: string, d: string, h: string, mi: string, sec: string, tail: string)
    requires |y| == 4 && |mo| == |d| == |h| == |mi| == |sec| == 2
    ensures
      var s := (y + "-" + mo + "-" + d) + ("T" + h + ":" + mi + ":" + sec) + tail;
      && |s| == 19 + |tail|
      && s[4] == '-' && s[7] == '-' && s[10] == 'T' && s[13] == ':' && s[16] == ':'
      && s[0..4] == y && s[5..7] == mo && s[8..10] == d
      && s[11..13] == h && s[14..16] == mi && s[17..19] == sec && s[19..] == tail
  {
  }

  /** The timestamp text reads back as the same civil time and zone, hence the same instant. */
  lemma StampRoundTrip(t: Stamp)
    requires ValidStamp(t)
    ensures ParseStamp(FormatStamp(t)) == Some(t)
  {
    NineDigits();
    var y, mo, d := Decimal(t.year, 4), Decimal(t.month, 2), Decimal(t.day, 2);
    var h, mi, sec := Decimal(t.hour, 2), Decimal(t.minute, 2), Decimal(t.second, 2);
    var tail := FormatFraction(t.nanos) + FormatZone(t.offset);
    FieldRoundTrip(t.year, 4, 0, 9999);
    FieldRoundTrip(t.month, 2, 1, 12);
    FieldRoundTrip(t.day, 2, 1, DaysIn(t.month, t.year));
    FieldRoundTrip(t.hour, 2, 0, 23);
    FieldRoundTrip(t.minute, 2, 0, 59);
    FieldRoundTrip(t.second, 2, 0, 59);
    TailRoundTrip(t.nanos, t.offset);
    StampText(y, mo, d, h, mi, sec, tail);
  }

  // ---------------------------------------------------------------- UUIDs

  function HexChar(v: int): char
    requires 0 <= v < 16
  {
    if v < 10 then (v + 48) as char else (v + 87) as char
  }

  function HexValue(c: char): Option<int> {
    if '0' <= c <= '9' then Some(c as int - 48)
    else if 'a' <= c <= 'f' then Some(c as int - 87)
    else if 'A' <= c <= 'F' then Some(c as int - 55)
    else None
  }

  predicate Octets(b: seq<int>) {
    forall i | 0 <= i < |b| :: 0 <= b[i] < 256
  }

  function Hex(b: seq<int>): string
    requires Octets(b)
  {
    if b == [] then "" else [HexChar(b[0] / 16), HexChar(b[0] % 16)] + Hex(b[1..])
  }

  function ParseHex(s: string): Option<seq<int>> {
    if s == "" then Some([])
    else if |s| == 1 then None
    else
      var high, low, rest := HexValue(s[0]), HexValue(s[1]), ParseHex(s[2..]);
      if high.None? || low.None? || rest.None? then None else Some([high.value * 16 + low.value] + rest.value)
  }

  /** A UUID's sixteen octets in their five groups. */
  predicate ValidUUID(id: seq<int>) {
    |id| == 16 && Octets(id)
  }

  function FormatUUID(id: seq<int>): string
    requires ValidUUID(id)
  {
    Hex(id[0..4]) + "-" + Hex(id[4..6]) + "-" + Hex(id[6..8]) + "-" + Hex(id[8..10]) + "-" + Hex(id[10..16])
  }

  /** uuid.Parse on the dashed form. */
  function ParseUUID(s: string): Option<seq<int>> {
    if |s| != 36 || s[8] != '-' || s[13] != '-' || s[18] != '-' || s[23] != '-' then None
    else
      var a, b, c := ParseHex(s[0..8]), ParseHex(s[9..13]), ParseHex(s[14..18]);
      var d, e := ParseHex(s[19..23]), ParseHex(s[24..36]);
      if a.None? || b.None? || c.None? || d.None? || e.None? then None
      else Some(a.value + b.value + c.value + d.value + e.value)
  }

  lemma {:induction false} HexRoundTrip(b: seq<int>)
    requires Octets(b)
    ensures ParseHex(Hex(b)) == Some(b) && |Hex(b)| == 2 * |b|
    decreases |b|
  {
    if b != [] {
      HexRoundTrip(b[1..]);
      assert Hex(b)[2..] == Hex(b[1..]);
      assert b == [b[0]] + b[1..];
    }
  }

  lemma UUIDText(a: string, b: string, c: string, d: string, e: string)
    requires |a| == 8 && |b| == |c| == |d| == 4 && |e| == 12
    ensures
      var s := a + "-" + b + "-" + c + "-" + d + "-" + e;
      && |s| == 36 && s[8] == '-' && s[13] == '-' && s[18] == '-' && s[23] == '-'
      && s[0..8] == a && s[9..13] == b && s[14..18] == c && s[19..23] == d && s[24..36] == e
  {
  }

  lemma UUIDRoundTrip(id: seq<int>)
    requires ValidUUID(id)
    ensures ParseUUID(FormatUUID(id)) == Some(id)
  {
    HexRoundTrip(id[0..4]);
    HexRoundTrip(id[4..6]);
    HexRoundTrip(id[6..8]);
    HexRoundTrip(id[8..10]);
    HexRoundTrip(id[10..16]);
    UUIDText(Hex(id[0..4]), Hex(id[4..6]), Hex(id[6..8]), Hex(id[8..10]), Hex(id[10..16]));
    UUIDParts(id);
  }

  lemma UUIDParts(id: seq<int>)
    requires |id| == 16
    ensures id[0..4] + id[4..6] + id[6..8] + id[8..10] + id[10..16] == id
  {
  }

  // ---------------------------------------------------------------- The cursor

  datatype Cursor = Cursor(createdAt: Stamp, id: seq<int>)

  predicate ValidCursor(c: Cursor) {
    ValidStamp(c.createdAt) && ValidUUID(c.id)
  }

  /** splitOnce: the text around the first separator, or the whole text when there is none. */
  function SplitAt(s: string, sep: char): seq<string> {
    if sep !in s then [s]
    else if s[0] == sep then [s[..0], s[1..]]
    else
      var rest := SplitAt(s[1..], sep);
      [[s[0]] + rest[0]] + rest[1..]
  }

  lemma {:induction false} SplitAtFirst(s: string, sep: char, i: nat)
    requires i < |s| && s[i] == sep && sep !in s[..i]
    ensures SplitAt(s, sep) == [s[..i], s[i + 1..]]
    decreases |s|
  {
    if i > 0 {
      assert s[0] in s[..i];
      assert s[1..][..i - 1] == s[1..i];
      forall k | 0 <= k < i - 1 ensures s[1..i][k] != sep {
        assert s[1..i][k] == s[..i][k + 1];
      }
      SplitAtFirst(s[1..], sep, i - 1);
      assert [s[0]] + s[1..i] == s[..i];
    }
  }

  method SplitOnce(s: string, sep: char) returns (parts: seq<string>)
    ensures parts == SplitAt(s, sep)
  {
    for i := 0 to |s|
      invariant sep !in s[..i]
    {
      if s[i] == sep {
        SplitAtFirst(s, sep, i);
        return [s[..i], s[i + 1..]];
      }
      assert s[..i + 1] == s[..i] + [s[i]];
    }
    assert s[..|s|] == s;
    parts := [s];
  }

  function CursorText(c: Cursor): string
    requires ValidCursor(c)
  {
    FormatStamp(c.createdAt) + "|" + FormatUUID(c.id)
  }

  lemma UUIDChars(id: seq<int>)
    requires ValidUUID(id)
    ensures Plain(FormatUUID(id))
  {
    HexChars(id[0..4]);
    HexChars(id[4..6]);
    HexChars(id[6..8]);
    HexChars(id[8..10]);
    HexChars(id[10..16]);
    var a, b, c, d, e := Hex(id[0..4]), Hex(id[4..6]), Hex(id[6..8]), Hex(id[8..10]), Hex(id[10..16]);
    PlainJoin(a, "-");
    PlainJoin(a + "-", b);
    PlainJoin(a + "-" + b, "-");
    PlainJoin(a + "-" + b + "-", c);
    PlainJoin(a + "-" + b + "-" + c, "-");
    PlainJoin(a + "-" + b + "-" + c + "-", d);
    PlainJoin(a + "-" + b + "-" + c + "-" + d, "-");
    PlainJoin(a + "-" + b + "-" + c + "-" + d + "-", e);
  }

  /** The characters of a cursor's text are plain ASCII, and the timestamp has no bar in it. */
  lemma CursorTextIsPlain(c: Cursor)
    requires ValidCursor(c)
    ensures Bytes(CursorText(c)) && '|' !in FormatStamp(c.createdAt)
  {
    StampChars(c.createdAt);
    UUIDChars(c.id);
  }

  predicate Plain(s: string) {
    forall i | 0 <= i < |s| :: s[i] != '|' && s[i] as int < 128
  }

  lemma {:induction false} DecimalChars(n: int, width: nat)
    requires n >= 0
    ensures Plain(Decimal(n, width)) && AllDigits(Decimal(n, width))
    decreases width
  {
    if width > 0 {
      DecimalChars(n / 10, width - 1);
    }
  }

  lemma {:induction false} TrimChars(s: string)
    requires Plain(s)
    ensures Plain(TrimZeros(s))
    decreases |s|
  {
    if s != "" && s[|s| - 1] == '0' {
      TrimChars(s[..|s| - 1]);
    }
  }

  lemma {:induction false} HexChars(b: seq<int>)
    requires Octets(b)
    ensures Plain(Hex(b))
    decreases |b|
  {
    if b != [] {
      HexChars(b[1..]);
    }
  }

  lemma PlainJoin(s: string, t: string)
    requires Plain(s) && Plain(t)
    ensures Plain(s + t)
  {
  }

  lemma TailChars(nanos: int, offset: int)
    requires 0 <= nanos && -1440 < offset < 1440
    ensures Plain(FormatFraction(nanos) + FormatZone(offset))
  {
    DecimalChars(nanos, 9);
    TrimChars(Decimal(nanos, 9));
    var minutes := if offset < 0 then -offset else offset;
    DecimalChars(minutes / 60, 2);
    DecimalChars(minutes % 60, 2);
    assert Plain(FormatFraction(nanos));
    assert Plain(FormatZone(offset));
    PlainJoin(FormatFraction(nanos), FormatZone(offset));
  }

  lemma StampChars(t: Stamp)
    requires ValidStamp(t)
    ensures Plain(FormatStamp(t))
  {
    DecimalChars(t.year, 4);
    DecimalChars(t.month, 2);
    DecimalChars(t.day, 2);
    DecimalChars(t.hour, 2);
    DecimalChars(t.minute, 2);
    DecimalChars(t.second, 2);
    TailChars(t.nanos, t.offset);
    PlainJoin(FormatDate(t), FormatClock(t));
    PlainJoin(FormatDate(t) + FormatClock(t), FormatFraction(t.nanos) + FormatZone(t.offset));
  }

  function EncodeCursor(c: Cursor): string
    requires ValidCursor(c)
  {
    CursorTextIsPlain(c);
    EncodeBase64(CursorText(c))
  }

  function DecodeCursor(s: string): Option<Cursor> {
    match DecodeBase64(s)
    case None => None
    case Some(text) =>
      var parts := SplitAt(text, '|');
      if |parts| != 2 then None
      else
        var createdAt, id := ParseStamp(parts[0]), ParseUUID(parts[1]);
        if createdAt.None? || id.None? then None else Some(Cursor(createdAt.value, id.value))
  }

  /** The text of a cursor splits at its bar and reads back. */
  lemma TextRoundTrip(c: Cursor)
    requires ValidCursor(c)
    ensures
      var stamp, id := FormatStamp(c.createdAt), FormatUUID(c.id);
      && SplitAt(CursorText(c), '|') == [stamp, id] && |CursorText(c)| >= 2
      && ParseStamp(stamp) == Some(c.createdAt) && ParseUUID(id) == Some(c.id)
  {
    var text := CursorText(c);
    var stamp, id := FormatStamp(c.createdAt), FormatUUID(c.id);
    CursorTextIsPlain(c);
    assert text[..|stamp|] == stamp && text[|stamp| + 1..] == id;
    SplitAtFirst(text, '|', |stamp|);
    StampRoundTrip(c.createdAt);
    UUIDRoundTrip(c.id);
    HexRoundTrip(c.id[0..4]);
  }

  lemma Base64RoundTrip(s: string)
    requires Bytes(s)
    ensures DecodeBase64(EncodeBase64(s)) == Some(s) && |EncodeBase64(s)| >= |s|
  {
    QuantaRoundTrip(s);
    EncodedIsLonger(s);
    EncodedIsUnbroken(s);
    NoBreaks(EncodeBase64(s));
  }

  /** Main theorem: the cursor of a row decodes to that row's time and identifier, and is never one of
      the two texts that parsePagination reads as "no cursor". */
  lemma CursorRoundTrip(c: Cursor)
    requires ValidCursor(c)
    ensures DecodeCursor(EncodeCursor(c)) == Some(c)
    ensures EncodeCursor(c) != "" && EncodeCursor(c) != "0"
  {
    CursorTextIsPlain(c);
    Base64RoundTrip(CursorText(c));
    TextRoundTrip(c);
  }

  datatype PageError = InvalidLimit | InvalidCursor

  /** parsePagination. `limit` is the query parameter: absent, or present with what Atoi makes of it. */
  method ParsePagination(limit: Option<Option<int>>, cursor: string)
    returns (r: Result<(int, Option<Cursor>), PageError>)
    ensures limit == Some(None) || (limit.Some? && limit.value.value < 1) <==> r == Err(InvalidLimit)
    ensures r.Ok? ==>
      r.value.0 == (if limit.None? then 50 else if limit.value.value > 100 then 100 else limit.value.value)
    ensures r.Ok? ==> 1 <= r.value.0 <= 100
    ensures r.Ok? ==> (r.value.1.None? <==> cursor == "" || cursor == "0")
    ensures r.Ok? && r.value.1.Some? ==> r.value.1 == DecodeCursor(cursor)
    ensures r == Err(InvalidCursor) ==> DecodeCursor(cursor).None?
  {
    var n := 50;
    if limit.Some? {
      if limit.value.None? || limit.value.value < 1 {
        return Err(InvalidLimit);
      }
      n := limit.value.value;
      if n > 100 {
        n := 100;
      }
    }
    var position := None;
    if cursor != "" && cursor != "0" {
      position := DecodeCursor(cursor);
      if position.None? {
        return Err(InvalidCursor);
      }
    }
    r := Ok((n, position));
  }
}
