/**
 * The text of a cursor, character by character, and which texts are read as cursors
 * (internal/handler/pagination.go): base64url (section 5 of RFC 4648), timestamps (section 5.6 of
 * RFC 3339) and dashed UUIDs.
 */
module CursorText {
  import opened Prelude
  import opened CursorCodec

  // ---------------------------------------------------------------- base64url

  /** Table 2 of RFC 4648: capitals, small letters, digits, minus and underscore. */
  function Letter(v: int): char
    requires 0 <= v < 64
  {
    if v < 26 then ('A' as int + v) as char
    else if v < 52 then ('a' as int + (v - 26)) as char
    else if v < 62 then ('0' as int + (v - 52)) as char
    else if v == 62 then '-'
    else '_'
  }

  lemma SextetIsLetter(v: int)
    requires 0 <= v < 64
    ensures Sextet(v) == Letter(v)
  {
  }

  /** Three bytes as one number. */
  function Bits(b0: int, b1: int, b2: int): int { (b0 * 256 + b1) * 256 + b2 }

  /** The `j`-th six bits of three bytes. */
  function SixBits(b0: int, b1: int, b2: int, j: nat): int
    requires j < 4
  {
    if j == 0 then Bits(b0, b1, b2) / 262144 % 64
    else if j == 1 then Bits(b0, b1, b2) / 4096 % 64
    else if j == 2 then Bits(b0, b1, b2) / 64 % 64
    else Bits(b0, b1, b2) % 64
  }

  lemma InThree(high: int, middle: int, low: int, d: int, e: int)
    requires 0 <= middle < 64 && 0 <= low < d && e == 64 * d && d > 0
    ensures ((high * 64 + middle) * d + low) / d == high * 64 + middle
    ensures (high * 64 + middle) / 64 == high && (high * 64 + middle) % 64 == middle
  {
    QuotientIs((high * 64 + middle) * d + low, d, high * 64 + middle);
  }

  lemma FirstSixBits(b0: int, b1: int, b2: int)
    requires Byte(b0) && Byte(b1) && Byte(b2)
    ensures SixBits(b0, b1, b2, 0) == b0 / 4
    ensures SixBits(b0, b1, b2, 1) == b0 % 4 * 16 + b1 / 16
  {
    var middle := b0 % 4 * 16 + b1 / 16;
    var low := b1 % 16 * 256 + b2;
    InThree(b0 / 4, middle, low, 4096, 262144);
    assert Bits(b0, b1, b2) == (b0 / 4 * 64 + middle) * 4096 + low;
    InThree(0, b0 / 4, middle * 4096 + low, 262144, 64 * 262144);
  }

  lemma LastSixBits(b0: int, b1: int, b2: int)
    requires Byte(b0) && Byte(b1) && Byte(b2)
    ensures SixBits(b0, b1, b2, 2) == b1 % 16 * 4 + b2 / 64
    ensures SixBits(b0, b1, b2, 3) == b2 % 64
  {
    var high, middle, low := b0 * 16 + b1 / 16, b1 % 16 * 4 + b2 / 64, b2 % 64;
    InThree(high, middle, low, 64, 4096);
    assert Bits(b0, b1, b2) == (high * 64 + middle) * 64 + low;
    InThree(0, low, 0, 1, 64);
  }

  lemma GroupIsSixBits(b0: int, b1: int, b2: int, j: nat)
    requires Byte(b0) && Byte(b1) && Byte(b2) && j < 4
    ensures 0 <= SixBits(b0, b1, b2, j) < 64
    ensures Group(b0, b1, b2)[j] == Letter(SixBits(b0, b1, b2, j))
  {
    FirstSixBits(b0, b1, b2);
    LastSixBits(b0, b1, b2);
    SextetIsLetter(SixBits(b0, b1, b2, j));
  }

  /** The byte at `i`, or 0 behind the end. */
  function ByteAt(s: string, i: nat): int { if i < |s| then s[i] as int else 0 }

  /**
   * Main theorem: the encoding has four characters for each three bytes begun; each of them stands for
   * its six bits, and `=` fills up where no byte is left.
   */
  lemma {:induction false} EncodedCharacter(s: string, k: nat, j: nat)
    requires Bytes(s) && 3 * k < |s| && j < 4
    ensures |EncodeBase64(s)| == (|s| + 2) / 3 * 4 && 4 * k + j < |EncodeBase64(s)|
    ensures
      var v := SixBits(ByteAt(s, 3 * k), ByteAt(s, 3 * k + 1), ByteAt(s, 3 * k + 2), j);
      && 0 <= v < 64
      && EncodeBase64(s)[4 * k + j] == if 3 * k + j > |s| then '=' else Letter(v)
    decreases |s|
  {
    EncodedLength(s);
    if k == 0 {
      GroupIsSixBits(ByteAt(s, 0), ByteAt(s, 1), ByteAt(s, 2), j);
    } else {
      EncodedCharacter(s[3..], k - 1, j);
      SameBytes(s, k);
    }
  }

  lemma SameBytes(s: string, k: nat)
    requires 3 <= 3 * k < |s|
    ensures ByteAt(s[3..], 3 * (k - 1)) == ByteAt(s, 3 * k)
    ensures ByteAt(s[3..], 3 * (k - 1) + 1) == ByteAt(s, 3 * k + 1)
    ensures ByteAt(s[3..], 3 * (k - 1) + 2) == ByteAt(s, 3 * k + 2)
  {
  }

  lemma {:induction false} EncodedLength(s: string)
    requires Bytes(s)
    ensures |EncodeBase64(s)| == (|s| + 2) / 3 * 4
    decreases |s|
  {
    if |s| > 2 {
      EncodedLength(s[3..]);
      OneGroupMore(s);
    } else {
      LastGroup(s);
    }
  }

  lemma LastGroup(s: string)
    requires Bytes(s) && |s| <= 2
    ensures |EncodeBase64(s)| == if s == "" then 0 else 4
  {
  }

  lemma OneGroupMore(s: string)
    requires Bytes(s) && |s| > 2
    ensures EncodeBase64(s) == Group(s[0] as int, s[1] as int, s[2] as int) + EncodeBase64(s[3..])
  {
  }

  predicate IsLetter(c: char) { 'A' <= c <= 'Z' || 'a' <= c <= 'z' || '0' <= c <= '9' || c == '-' || c == '_' }

  /** Whole groups of four, letters of the alphabet but for `pad` padding characters at the end. */
  predicate IsPadded(s: string, pad: nat) {
    && pad <= 2 && pad <= |s| && |s| % 4 == 0
    && (forall i | 0 <= i < |s| - pad :: IsLetter(s[i]))
    && (forall i | |s| - pad <= i < |s| :: s[i] == '=')
  }

  lemma GroupIsReadExactlyWhen(g: string)
    requires |g| == 4
    ensures Ungroup(g).Some? <==> forall i | 0 <= i < 4 :: IsLetter(g[i])
  {
    assert forall i | 0 <= i < 4 :: SextetValue(g[i]).Some? <==> IsLetter(g[i]);
  }

  lemma LastGroupIsReadExactlyWhen(g: string)
    requires |g| == 4 && Ungroup(g).None?
    ensures UngroupLast(g).Some? <==> IsPadded(g, 1) || IsPadded(g, 2)
  {
    GroupIsReadExactlyWhen(g);
    GroupIsReadExactlyWhen(g[..2] + "AA");
    GroupIsReadExactlyWhen(g[..3] + "A");
    var two, three := g[..2] + "AA", g[..3] + "A";
    assert two[0] == g[0] && two[1] == g[1] && two[2] == two[3] == 'A';
    assert three[0] == g[0] && three[1] == g[1] && three[2] == g[2] && three[3] == 'A';
    assert g[2..] == [g[2], g[3]] && g[3..] == [g[3]];
  }

  /** Exactly padded texts over the alphabet are read. */
  lemma {:induction false} QuantaAreReadExactlyWhen(s: string)
    ensures DecodeQuanta(s).Some? <==> exists pad :: IsPadded(s, pad)
    decreases |s|
  {
    if s == "" {
      assert IsPadded(s, 0);
    } else if |s| >= 4 {
      GroupIsReadExactlyWhen(s[..4]);
      if Ungroup(s[..4]).Some? {
        QuantaAreReadExactlyWhen(s[4..]);
        PaddedBehind(s);
      } else if |s| == 4 {
        assert s[..4] == s;
        LastGroupIsReadExactlyWhen(s);
        assert !IsPadded(s, 0);
      } else {
        FirstGroupIsNotPadded(s);
      }
    }
  }

  lemma PaddedBehind(s: string)
    requires |s| >= 4 && forall i | 0 <= i < 4 :: IsLetter(s[i])
    ensures (exists pad :: IsPadded(s, pad)) <==> exists pad :: IsPadded(s[4..], pad)
  {
    if pad: nat :| IsPadded(s, pad) {
      assert |s| == 4 ==> pad == 0 by {
        assert pad > 0 ==> s[|s| - 1] == '=';
      }
      assert forall i | 0 <= i < |s[4..]| :: s[4..][i] == s[i + 4];
      assert IsPadded(s[4..], pad);
    }
    if pad: nat :| IsPadded(s[4..], pad) {
      assert forall i | 4 <= i < |s| :: s[i] == s[4..][i - 4];
      assert IsPadded(s, pad);
    }
  }

  lemma FirstGroupIsNotPadded(s: string)
    requires |s| > 4 && !(forall i | 0 <= i < 4 :: IsLetter(s[..4][i]))
    ensures forall pad :: !IsPadded(s, pad)
  {
    var i :| 0 <= i < 4 && !IsLetter(s[..4][i]);
    assert !IsLetter(s[i]);
  }

  /** Line breaks are skipped wherever they stand, and nothing else is. */
  lemma {:induction false} BreaksAreSkipped(s: string, c: char, t: string)
    ensures WithoutBreaks(s + ([c] + t)) ==
      if c == '\r' || c == '\n' then WithoutBreaks(s + t) else WithoutBreaks(s) + ([c] + WithoutBreaks(t))
    decreases |s|
  {
    if s == "" {
      assert s + ([c] + t) == [c] + t && s + t == t && ([c] + t)[1..] == t;
      assert "" + ([c] + WithoutBreaks(t)) == [c] + WithoutBreaks(t);
    } else {
      assert (s + ([c] + t))[1..] == s[1..] + ([c] + t) && (s + t)[1..] == s[1..] + t;
      BreaksAreSkipped(s[1..], c, t);
      BreaksInFront(s[0], WithoutBreaks(s[1..]), [c] + WithoutBreaks(t));
    }
  }

  lemma BreaksInFront(x: char, a: string, b: string)
    ensures ([x] + a) + b == [x] + (a + b)
  {
  }

  // ---------------------------------------------------------------- Decimal numbers

  /** The digit at `i` from the left. */
  lemma {:induction false} DecimalDigit(n: int, width: nat, i: nat)
    requires n >= 0 && i < width
    ensures |Decimal(n, width)| == width
    ensures Decimal(n, width)[i] == DigitChar(n / Power10(width - 1 - i) % 10)
    decreases width
  {
    DecimalWidth(n, width);
    DecimalWidth(n / 10, width - 1);
    if i < width - 1 {
      DecimalDigit(n / 10, width - 1, i);
      DivideTwice(n, Power10(width - 2 - i));
    }
  }

  lemma {:induction false} DecimalWidth(n: int, width: nat)
    requires n >= 0
    ensures |Decimal(n, width)| == width
    decreases width
  {
    if width > 0 {
      DecimalWidth(n / 10, width - 1);
    }
  }

  lemma DivideTwice(n: int, d: nat)
    requires n >= 0 && d > 0
    ensures n / 10 / d == n / (10 * d)
  {
    var q := n / 10 / d;
    assert q * d <= n / 10 < (q + 1) * d;
    assert q * (10 * d) == 10 * (q * d) && (q + 1) * (10 * d) == 10 * ((q + 1) * d);
    QuotientIs(n, 10 * d, q);
  }

  lemma QuotientIs(n: int, d: int, q: int)
    requires d > 0 && q * d <= n < (q + 1) * d
    ensures n / d == q
  {
    var r := n / d;
    assert r * d <= n < (r + 1) * d;
    if r < q {
      Ordered(r + 1, q, d);
    } else if q < r {
      Ordered(q + 1, r, d);
    }
  }

  lemma Ordered(a: int, b: int, d: int)
    requires a <= b && d > 0
    ensures a * d <= b * d
  {
    assert b * d == a * d + (b - a) * d;
  }

  // ---------------------------------------------------------------- Timestamps

  /** A fraction of a second, without trailing zeros, or nothing for none. */
  predicate IsFraction(s: string, nanos: int) {
    if nanos == 0 then s == ""
    else
      && 2 <= |s| <= 10 && s[0] == '.' && AllDigits(s[1..]) && s[|s| - 1] != '0'
      && DecimalValue(s[1..]) * Power10(10 - |s|) == nanos
  }

  /** Z, or a sign, hours and minutes. */
  predicate IsZone(s: string, offset: int) {
    if offset == 0 then s == "Z"
    else
      && |s| == 6 && s[3] == ':' && AllDigits(s[1..3]) && AllDigits(s[4..6]) && DecimalValue(s[4..6]) < 60
      && ((s[0] == '+' && offset == DecimalValue(s[1..3]) * 60 + DecimalValue(s[4..6]))
          || (s[0] == '-' && -offset == DecimalValue(s[1..3]) * 60 + DecimalValue(s[4..6])))
  }

  /** yyyy-mm-ddThh:mm:ss */
  predicate IsCivil(s: string, t: Stamp)
    requires ValidStamp(t)
  {
    && |s| == 19 && s[4] == '-' && s[7] == '-' && s[10] == 'T' && s[13] == ':' && s[16] == ':'
    && s[0..4] == Decimal(t.year, 4) && s[5..7] == Decimal(t.month, 2) && s[8..10] == Decimal(t.day, 2)
    && s[11..13] == Decimal(t.hour, 2) && s[14..16] == Decimal(t.minute, 2) && s[17..19] == Decimal(t.second, 2)
  }

  lemma FractionText(nanos: int)
    requires 0 <= nanos < 1_000_000_000
    ensures IsFraction(FormatFraction(nanos), nanos)
  {
    if nanos != 0 {
      var digits := Decimal(nanos, 9);
      assert Power10(4) == 10000 && Power10(5) == 100000;
      NineDigits();
      DecimalRoundTrip(nanos, 9);
      TrimmedValue(digits);
      assert Power10(0) == 1;
      var s := TrimZeros(digits);
      TrimZerosEnds(digits);
      assert FractionValue("") == 0;
      assert ("." + s)[1..] == s;
    }
  }

  lemma {:induction false} TrimZerosEnds(s: string)
    ensures TrimZeros(s) == "" || TrimZeros(s)[|TrimZeros(s)| - 1] != '0'
  {
    if s != "" && s[|s| - 1] == '0' {
      TrimZerosEnds(s[..|s| - 1]);
    }
  }

  lemma ZoneParts(sign: char, hours: string, minutes: string)
    requires |hours| == |minutes| == 2
    ensures
      var s := [sign] + hours + ":" + minutes;
      |s| == 6 && s[0] == sign && s[3] == ':' && s[1..3] == hours && s[4..6] == minutes
  {
  }

  lemma ZoneIs(offset: int)
    requires -1440 < offset < 1440
    ensures IsZone(FormatZone(offset), offset)
  {
    if offset != 0 {
      var minutes := if offset < 0 then -offset else offset;
      assert Power10(2) == 100;
      DecimalRoundTrip(minutes / 60, 2);
      DecimalRoundTrip(minutes % 60, 2);
      ZoneParts(if offset < 0 then '-' else '+', Decimal(minutes / 60, 2), Decimal(minutes % 60, 2));
    }
  }

  lemma CivilText(t: Stamp)
    requires ValidStamp(t)
    ensures IsCivil(FormatDate(t) + FormatClock(t), t)
  {
    DecimalWidth(t.year, 4);
    DecimalWidth(t.month, 2);
    DecimalWidth(t.day, 2);
    DecimalWidth(t.hour, 2);
    DecimalWidth(t.minute, 2);
    DecimalWidth(t.second, 2);
    CivilParts(Decimal(t.year, 4), Decimal(t.month, 2), Decimal(t.day, 2),
               Decimal(t.hour, 2), Decimal(t.minute, 2), Decimal(t.second, 2));
  }

  lemma CivilParts(y: string, mo: string, d: string, h: string, mi: string, sec: string)
    requires |y| == 4 && |mo| == |d| == |h| == |mi| == |sec| == 2
    ensures
      var s := (y + "-" + mo + "-" + d) + ("T" + h + ":" + mi + ":" + sec);
      && |s| == 19 && s[4] == '-' && s[7] == '-' && s[10] == 'T' && s[13] == ':' && s[16] == ':'
      && s[0..4] == y && s[5..7] == mo && s[8..10] == d && s[11..13] == h && s[14..16] == mi && s[17..19] == sec
  {
  }

  /** Main theorem: the timestamp is the civil time, its fraction and its zone, as RFC 3339 writes them. */
  lemma StampIsRFC3339(t: Stamp) returns (civil: string, fraction: string, zone: string)
    requires ValidStamp(t)
    ensures FormatStamp(t) == civil + (fraction + zone)
    ensures IsCivil(civil, t) && IsFraction(fraction, t.nanos) && IsZone(zone, t.offset)
  {
    civil, fraction, zone := FormatDate(t) + FormatClock(t), FormatFraction(t.nanos), FormatZone(t.offset);
    CivilText(t);
    FractionText(t.nanos);
    ZoneIs(t.offset);
  }

  // ---------------------------------------------------------------- What is read as a cursor

  lemma {:induction false} ValueIsBounded(s: string)
    requires AllDigits(s)
    ensures DecimalValue(s) < Power10(|s|)
  {
    if s != "" {
      ValueIsBounded(s[..|s| - 1]);
    }
  }

  lemma {:induction false} PowersMultiply(m: nat, n: nat)
    ensures Power10(m + n) == Power10(m) * Power10(n)
    decreases n
  {
    if n > 0 {
      PowersMultiply(m, n - 1);
      assert Power10(m) * Power10(n) == 10 * (Power10(m) * Power10(n - 1));
    }
  }

  lemma FractionIsBounded(digits: string)
    requires AllDigits(digits)
    ensures FractionValue(digits) < Power10(9)
  {
    if |digits| > 9 {
      ValueIsBounded(digits[..9]);
    } else {
      ValueIsBounded(digits);
      PowersMultiply(|digits|, 9 - |digits|);
      Smaller(DecimalValue(digits), Power10(|digits|), Power10(9 - |digits|));
    }
  }

  lemma Smaller(a: int, b: int, d: nat)
    requires a < b && d > 0
    ensures a * d < b * d
  {
    assert b * d == a * d + (b - a) * d;
    assert (b - a) * d >= d by { Ordered(1, b - a, d); }
  }

  /** Only times of the calendar are read. */
  lemma ReadStampIsValid(s: string)
    requires ParseStamp(s).Some?
    ensures ValidStamp(ParseStamp(s).value)
  {
    var tail := s[19..];
    if |tail| >= 2 && tail[0] == '.' && '0' <= tail[1] <= '9' {
      FractionIsBounded(tail[1..][..LeadingDigits(tail[1..])]);
    }
    assert Power10(4) == 10000 && Power10(5) == 100000;
    PowersMultiply(4, 5);
  }

  lemma {:induction false} ReadHexIsOctets(s: string)
    requires ParseHex(s).Some?
    ensures Octets(ParseHex(s).value) && 2 * |ParseHex(s).value| == |s|
    decreases |s|
  {
    if s != "" {
      ReadHexIsOctets(s[2..]);
    }
  }

  predicate HexDigit(c: char) { '0' <= c <= '9' || 'a' <= c <= 'f' || 'A' <= c <= 'F' }

  predicate HexDigits(s: string) { forall i | 0 <= i < |s| :: HexDigit(s[i]) }

  lemma {:induction false} HexIsReadExactlyWhen(s: string)
    ensures ParseHex(s).Some? <==> |s| % 2 == 0 && HexDigits(s)
    decreases |s|
  {
    if |s| >= 2 {
      HexIsReadExactlyWhen(s[2..]);
      assert forall i | 2 <= i < |s| :: s[i] == s[2..][i - 2];
    }
  }

  /** Exactly the dashed form with 32 hexadecimal digits is read as a UUID. */
  lemma UUIDIsReadExactlyWhen(s: string)
    ensures ParseUUID(s).Some? <==>
      && |s| == 36 && s[8] == '-' && s[13] == '-' && s[18] == '-' && s[23] == '-'
      && HexDigits(s[0..8]) && HexDigits(s[9..13]) && HexDigits(s[14..18])
      && HexDigits(s[19..23]) && HexDigits(s[24..36])
    ensures ParseUUID(s).Some? ==> ValidUUID(ParseUUID(s).value)
  {
    if |s| == 36 {
      UUIDPart(s[0..8]);
      UUIDPart(s[9..13]);
      UUIDPart(s[14..18]);
      UUIDPart(s[19..23]);
      UUIDPart(s[24..36]);
    }
  }

  lemma UUIDPart(s: string)
    requires |s| % 2 == 0
    ensures ParseHex(s).Some? <==> HexDigits(s)
    ensures ParseHex(s).Some? ==> Octets(ParseHex(s).value) && 2 * |ParseHex(s).value| == |s|
  {
    HexIsReadExactlyWhen(s);
    if ParseHex(s).Some? {
      ReadHexIsOctets(s);
    }
  }

  /** Main theorem: whatever a client sends, what is read from it is a position that has a text: a time of
      the calendar and sixteen octets. */
  lemma ReadCursorIsValid(s: string)
    requires DecodeCursor(s).Some?
    ensures ValidCursor(DecodeCursor(s).value)
    ensures DecodeCursor(EncodeCursor(DecodeCursor(s).value)) == DecodeCursor(s)
  {
    var parts := SplitAt(DecodeBase64(s).value, '|');
    ReadStampIsValid(parts[0]);
    UUIDIsReadExactlyWhen(parts[1]);
    CursorRoundTrip(DecodeCursor(s).value);
  }
}
