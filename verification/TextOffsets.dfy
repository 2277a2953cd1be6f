/**
 Offsets into text, counted in UTF-8 bytes or in UTF-16 code units, and the conversions between them.
 A text is a sequence of Unicode scalar values.
 */
module TextOffsets {
  import opened MachineWords
  import opened Options

  datatype Encoding = Utf8 | Utf16

  /** How many code units one character takes (RFC 3629, section 3; RFC 2781, section 2.1). */
  function Size(e: Encoding, c: char): (n: nat)
    ensures 1 <= n <= 4
  {
    match e
    case Utf8 => if c as int < 0x80 then 1 else if c as int < 0x800 then 2 else if c as int < 0x1_0000 then 3 else 4
    case Utf16 => if c as int < 0x1_0000 then 1 else 2
  }

  function Length(e: Encoding, text: string): nat {
    if text == "" then 0 else Size(e, text[0]) + Length(e, text[1..])
  }

  /** How many characters end within the first `offset` code units. */
  function CharsWithin(e: Encoding, text: string, offset: nat): (k: nat)
    ensures k <= |text|
  {
    if text == "" || offset < Size(e, text[0]) then 0
    else 1 + CharsWithin(e, text[1..], offset - Size(e, text[0]))
  }

  /** The offset in `to` of the last character boundary that is at most `offset` in `from`. */
  function Convert(from: Encoding, to: Encoding, text: string, offset: nat): nat {
    if text == "" || offset < Size(from, text[0]) then 0
    else Size(to, text[0]) + Convert(from, to, text[1..], offset - Size(from, text[0]))
  }

  function Floor(text: string, offset: nat): nat {
    Convert(Utf8, Utf8, text, offset)
  }

  /** Offsets at which a character starts, or the text ends. */
  ghost predicate IsBoundary(e: Encoding, text: string, offset: nat) {
    exists k :: 0 <= k <= |text| && Length(e, text[..k]) == offset
  }

  // ------------------------------------------------------------------- lengths

  lemma {:induction false} LengthConcat(e: Encoding, a: string, b: string)
    ensures Length(e, a + b) == Length(e, a) + Length(e, b)
  {
    if a == "" {
      assert a + b == b;
    } else {
      assert (a + b)[1..] == a[1..] + b;
      LengthConcat(e, a[1..], b);
    }
  }

  lemma LengthSplit(e: Encoding, text: string, k: nat)
    requires k <= |text|
    ensures Length(e, text) == Length(e, text[..k]) + Length(e, text[k..])
  {
    assert text == text[..k] + text[k..];
    LengthConcat(e, text[..k], text[k..]);
  }

  lemma PrefixGrows(e: Encoding, text: string, j: nat, k: nat)
    requires j <= k <= |text|
    ensures Length(e, text[..j]) <= Length(e, text[..k]) <= Length(e, text)
    ensures j < k ==> Length(e, text[..j]) < Length(e, text[..k])
  {
    assert text[..k][..j] == text[..j];
    LengthSplit(e, text[..k], j);
    LengthSplit(e, text, k);
  }

  // --------------------------------------------------------------- conversions

  /** The characters within an offset are the most that fit. */
  lemma {:induction false} CharsWithinIsGreatest(e: Encoding, text: string, offset: nat)
    ensures var k := CharsWithin(e, text, offset);
      && Length(e, text[..k]) <= offset
      && (k < |text| ==> offset < Length(e, text[..k + 1]))
  {
    var k := CharsWithin(e, text, offset);
    if text != "" && Size(e, text[0]) <= offset {
      CharsWithinIsGreatest(e, text[1..], offset - Size(e, text[0]));
      assert text[..k][1..] == text[1..][..k - 1];
      if k < |text| { assert text[..k + 1][1..] == text[1..][..k]; }
    }
  }

  lemma {:induction false} ConvertIsLength(from: Encoding, to: Encoding, text: string, offset: nat)
    ensures Convert(from, to, text, offset) == Length(to, text[..CharsWithin(from, text, offset)])
  {
    if text != "" && Size(from, text[0]) <= offset {
      var k := CharsWithin(from, text, offset);
      ConvertIsLength(from, to, text[1..], offset - Size(from, text[0]));
      assert text[..k][1..] == text[1..][..k - 1];
    }
  }

  /** Every converted offset is a character boundary inside the text. */
  lemma ConvertIsBoundary(from: Encoding, to: Encoding, text: string, offset: nat)
    ensures IsBoundary(to, text, Convert(from, to, text, offset))
    ensures Convert(from, to, text, offset) <= Length(to, text)
  {
    ConvertIsLength(from, to, text, offset);
    PrefixGrows(to, text, CharsWithin(from, text, offset), CharsWithin(from, text, offset));
  }

  /** Converting in two steps is converting in one. */
  lemma {:induction false} ConvertCompose(a: Encoding, b: Encoding, c: Encoding, text: string, offset: nat)
    ensures Convert(b, c, text, Convert(a, b, text, offset)) == Convert(a, c, text, offset)
  {
    if text != "" && Size(a, text[0]) <= offset {
      ConvertCompose(a, b, c, text[1..], offset - Size(a, text[0]));
    }
  }

  lemma {:induction false} ConvertMonotone(from: Encoding, to: Encoding, text: string, i: nat, j: nat)
    requires i <= j
    ensures Convert(from, to, text, i) <= Convert(from, to, text, j)
  {
    if text != "" && Size(from, text[0]) <= i {
      ConvertMonotone(from, to, text[1..], i - Size(from, text[0]), j - Size(from, text[0]));
    }
  }

  /** Some character ends after offset `low` and at or before offset `high`. */
  ghost predicate BoundaryBetween(e: Encoding, text: string, low: nat, high: nat) {
    exists k :: 0 <= k <= |text| && low < Length(e, text[..k]) <= high
  }

  lemma BoundaryBetweenIff(e: Encoding, text: string, low: nat, high: nat)
    ensures BoundaryBetween(e, text, low, high) <==> CharsWithin(e, text, low) < CharsWithin(e, text, high)
  {
    var i, j := CharsWithin(e, text, low), CharsWithin(e, text, high);
    CharsWithinIsGreatest(e, text, low);
    CharsWithinIsGreatest(e, text, high);
    if i < j {
      PrefixGrows(e, text, i + 1, j);
    }
    forall k | 0 <= k <= |text| && low < Length(e, text[..k]) <= high ensures i < k <= j {
      if k <= i { PrefixGrows(e, text, k, i); }
      if j < k { PrefixGrows(e, text, j + 1, k); }
    }
  }

  /** Two offsets keep their order exactly when they are in order or no character ends between them. */
  lemma ConvertKeepsOrderIff(from: Encoding, to: Encoding, text: string, i: nat, j: nat)
    ensures Convert(from, to, text, i) <= Convert(from, to, text, j) <==> i <= j || !BoundaryBetween(from, text, j, i)
  {
    hide Convert, CharsWithin, BoundaryBetween;
    var k, l := CharsWithin(from, text, i), CharsWithin(from, text, j);
    ConvertIsLength(from, to, text, i);
    ConvertIsLength(from, to, text, j);
    BoundaryBetweenIff(from, text, j, i);
    if k <= l {
      PrefixGrows(to, text, k, l);
    } else {
      PrefixGrows(to, text, l, k);
    }
    if i <= j { ConvertMonotone(from, to, text, i, j); }
  }

  lemma {:induction false} ConvertNeverExceeds(e: Encoding, text: string, offset: nat)
    ensures Convert(e, e, text, offset) <= offset
  {
    if text != "" && Size(e, text[0]) <= offset {
      ConvertNeverExceeds(e, text[1..], offset - Size(e, text[0]));
    }
  }

  /** Offsets of prefixes convert to the offsets of the same prefixes. */
  lemma {:induction false} ConvertExactAt(from: Encoding, to: Encoding, text: string, k: nat)
    requires k <= |text|
    ensures Convert(from, to, text, Length(from, text[..k])) == Length(to, text[..k])
  {
    if 0 < k {
      assert text[..k][1..] == text[1..][..k - 1];
      ConvertExactAt(from, to, text[1..], k - 1);
    }
  }

  /** Boundaries are the offsets that rounding down leaves alone. */
  lemma BoundaryIffFixed(e: Encoding, text: string, offset: nat)
    ensures IsBoundary(e, text, offset) <==> Convert(e, e, text, offset) == offset
  {
    if IsBoundary(e, text, offset) {
      var k :| 0 <= k <= |text| && Length(e, text[..k]) == offset;
      ConvertExactAt(e, e, text, k);
    }
    ConvertIsBoundary(e, e, text, offset);
  }

  /** UTF-16 and byte offsets form a Galois pair, for every text. */
  lemma Galois(text: string, bytes: nat, units: nat)
    ensures Convert(Utf8, Utf16, text, bytes) <= units
      <==> Floor(text, bytes) <= Convert(Utf16, Utf8, text, units)
  {
  }

  /** To UTF-16 and back is the floor character boundary; from UTF-16 and back never exceeds the input. */
  lemma ThereAndBack(text: string, bytes: nat, units: nat)
    ensures Convert(Utf16, Utf8, text, Convert(Utf8, Utf16, text, bytes)) == Floor(text, bytes)
    ensures Convert(Utf8, Utf16, text, Convert(Utf16, Utf8, text, units)) <= units
    ensures Convert(Utf8, Utf16, text, Convert(Utf16, Utf8, text, units)) == units
      <==> IsBoundary(Utf16, text, units)
  {
    ConvertCompose(Utf8, Utf16, Utf8, text, bytes);
    ConvertCompose(Utf16, Utf8, Utf16, text, units);
    ConvertNeverExceeds(Utf16, text, units);
    BoundaryIffFixed(Utf16, text, units);
  }

  // ----------------------------------------------------------------- the bytes

  /** One character's bytes (RFC 3629, section 3). */
  function EncodeChar(c: char): (bytes: seq<byte>)
    ensures |bytes| == Size(Utf8, c)
    ensures !IsContinuation(bytes[0]) && forall i :: 1 <= i < |bytes| ==> IsContinuation(bytes[i])
  {
    var n := c as int;
    if n < 0x80 then [n as byte]
    else if n < 0x800 then [(0xC0 + n / 0x40) as byte, (0x80 + n % 0x40) as byte]
    else if n < 0x1_0000 then
      [(0xE0 + n / 0x1000) as byte, (0x80 + n / 0x40 % 0x40) as byte, (0x80 + n % 0x40) as byte]
    else
      [(0xF0 + n / 0x4_0000) as byte, (0x80 + n / 0x1000 % 0x40) as byte,
       (0x80 + n / 0x40 % 0x40) as byte, (0x80 + n % 0x40) as byte]
  }

  predicate IsContinuation(b: byte) {
    0x80 <= b < 0xC0
  }

  function Encode(text: string): (bytes: seq<byte>)
    ensures |bytes| == Length(Utf8, text)
  {
    if text == "" then [] else EncodeChar(text[0]) + Encode(text[1..])
  }

  /** How many bytes a character takes, by its first byte, and the bits that byte holds. */
  function Lead(b: byte): (int, int) {
    if b < 0x80 then (1, b as int)
    else if b < 0xE0 then (2, b as int - 0xC0)
    else if b < 0xF0 then (3, b as int - 0xE0)
    else (4, b as int - 0xF0)
  }

  function Bits(first: int, rest: seq<byte>): int {
    if rest == [] then first
    else Bits(first, rest[..|rest| - 1]) * 0x40 + (rest[|rest| - 1] as int - 0x80)
  }

  predicate IsScalar(n: int) {
    0 <= n < 0xD800 || 0xE000 <= n < 0x11_0000
  }

  /** Reading bytes that a text was encoded to. */
  function Decode(bytes: seq<byte>): Option<string>
    decreases |bytes|
  {
    if bytes == [] then Some("")
    else
      var (n, first) := Lead(bytes[0]);
      if |bytes| < n || !IsScalar(Bits(first, bytes[1..n])) then None
      else
        match Decode(bytes[n..])
        case None => None
        case Some(text) => Some([Bits(first, bytes[1..n]) as char] + text)
  }

  lemma FourParts(n: nat)
    ensures ((n / 0x4_0000 * 0x40 + n / 0x1000 % 0x40) * 0x40 + n / 0x40 % 0x40) * 0x40 + n % 0x40 == n
  {
    assert n / 0x1000 == n / 0x40 / 0x40;
    assert n / 0x4_0000 == n / 0x1000 / 0x40;
  }

  lemma BitsOfChar(c: char)
    ensures var bytes := EncodeChar(c);
      Lead(bytes[0]).0 == |bytes| && Bits(Lead(bytes[0]).1, bytes[1..]) == c as int && IsScalar(c as int)
  {
    var bytes := EncodeChar(c);
    var first := Lead(bytes[0]).1;
    if 3 <= |bytes| {
      assert bytes[1..3][..1] == [bytes[1]];
      assert Bits(first, [bytes[1]]) == first * 0x40 + (bytes[1] as int - 0x80);
    }
    if |bytes| == 3 {
      assert bytes[1..] == bytes[1..3];
      assert c as int / 0x1000 == c as int / 0x40 / 0x40;
    } else if |bytes| == 4 {
      assert bytes[1..][..2] == bytes[1..3];
      FourParts(c as int);
    }
  }

  /** Encoding loses nothing: different texts have different bytes. */
  lemma {:induction false} DecodeUndoesEncode(text: string)
    ensures Decode(Encode(text)) == Some(text)
  {
    hide EncodeChar, Bits, Lead, IsScalar;
    if text != "" {
      var bytes, head := Encode(text), EncodeChar(text[0]);
      BitsOfChar(text[0]);
      DecodeUndoesEncode(text[1..]);
      assert bytes[0] == head[0];
      assert bytes[1..|head|] == head[1..];
      assert bytes[|head|..] == Encode(text[1..]);
      assert text == [text[0]] + text[1..];
    }
  }

  // -------------------------------------------------------------- the code units

  predicate IsHighSurrogate(unit: u16) { 0xD800 <= unit < 0xDC00 }
  predicate IsLowSurrogate(unit: u16) { 0xDC00 <= unit < 0xE000 }

  /** One character's code units: itself, or a surrogate pair (RFC 2781, section 2.1). */
  function EncodeChar16(c: char): (units: seq<u16>)
    ensures |units| == Size(Utf16, c)
  {
    if c as int < 0x1_0000 then [c as int]
    else
      var beyond := c as int - 0x1_0000;
      [0xD800 + beyond / 0x400, 0xDC00 + beyond % 0x400]
  }

  function Encode16(text: string): (units: seq<u16>)
    ensures |units| == Length(Utf16, text)
  {
    if text == "" then [] else EncodeChar16(text[0]) + Encode16(text[1..])
  }

  /** Reading code units (RFC 2781, section 2.2): a surrogate that stands alone is an error. */
  function Decode16(units: seq<u16>): Option<string> {
    if units == [] then Some("")
    else
      var first: int := units[0];
      if IsHighSurrogate(first) then
        if 2 <= |units| && IsLowSurrogate(units[1]) then
          var second: int := units[1];
          var c := (0x1_0000 + (first - 0xD800) * 0x400 + (second - 0xDC00)) as char;
          match Decode16(units[2..])
          case None => None
          case Some(text) => Some([c] + text)
        else None
      else if IsLowSurrogate(first) then None
      else
        match Decode16(units[1..])
        case None => None
        case Some(text) => Some([first as char] + text)
  }

  /** Encoding loses nothing: different texts have different code units. */
  lemma {:induction false} DecodeUndoesEncode16(text: string)
    ensures Decode16(Encode16(text)) == Some(text)
  {
    if text != "" {
      var units, head := Encode16(text), EncodeChar16(text[0]);
      DecodeUndoesEncode16(text[1..]);
      assert units[|head|..] == Encode16(text[1..]);
      assert text == [text[0]] + text[1..];
    }
  }

  /** And every readable sequence of code units is the encoding of what is read. */
  lemma {:induction false} EncodeUndoesDecode16(units: seq<u16>)
    requires Decode16(units).Some?
    ensures Encode16(Decode16(units).value) == units
  {
    if units != [] {
      var text := Decode16(units).value;
      var taken := if IsHighSurrogate(units[0]) then 2 else 1;
      EncodeUndoesDecode16(units[taken..]);
      assert text[1..] == Decode16(units[taken..]).value;
      assert units == units[..taken] + units[taken..];
      assert EncodeChar16(text[0]) == units[..taken];
    }
  }

  /** `str::is_char_boundary`. */
  predicate IsCharBoundary(text: string, offset: nat) {
    var bytes := Encode(text);
    offset == 0 || offset == |bytes| || (offset < |bytes| && !IsContinuation(bytes[offset]))
  }

  /** The test on one byte finds exactly the offsets between characters. */
  lemma {:induction false} CharBoundaryIsFloor(text: string, offset: nat)
    ensures IsCharBoundary(text, offset) <==> Floor(text, offset) == offset
  {
    if text != "" && offset != 0 {
      var n := Size(Utf8, text[0]);
      if n <= offset {
        CharBoundaryIsFloor(text[1..], offset - n);
        assert offset - n < |Encode(text[1..])| ==> Encode(text)[offset] == Encode(text[1..])[offset - n];
        if offset == n && text[1..] != "" {
          assert !IsContinuation(EncodeChar(text[1])[0]);
          assert Encode(text[1..])[0] == EncodeChar(text[1])[0];
        }
      } else {
        assert Encode(text)[offset] == EncodeChar(text[0])[offset];
      }
    }
  }

  // ------------------------------------------------------------------- slicing

  /** `&text[..offset]`, which must be at a character boundary. */
  function Before(text: string, offset: nat): string
    requires Floor(text, offset) == offset
  {
    text[..CharsWithin(Utf8, text, offset)]
  }

  /** `&text[offset..]`. */
  function From(text: string, offset: nat): string
    requires Floor(text, offset) == offset
  {
    text[CharsWithin(Utf8, text, offset)..]
  }

  lemma SliceLengths(text: string, offset: nat)
    requires Floor(text, offset) == offset
    ensures text == Before(text, offset) + From(text, offset)
    ensures Length(Utf8, Before(text, offset)) == offset
    ensures Length(Utf8, From(text, offset)) == Length(Utf8, text) - offset
  {
    var k := CharsWithin(Utf8, text, offset);
    ConvertIsLength(Utf8, Utf8, text, offset);
    LengthSplit(Utf8, text, k);
  }

  /** The offset after a prefix is where the text is cut between it and the rest. */
  lemma CutAfter(a: string, b: string)
    ensures Floor(a + b, Length(Utf8, a)) == Length(Utf8, a)
    ensures Before(a + b, Length(Utf8, a)) == a && From(a + b, Length(Utf8, a)) == b
  {
    var text, k := a + b, |a|;
    assert text[..k] == a && text[k..] == b;
    ConvertExactAt(Utf8, Utf8, text, k);
    var found := CharsWithin(Utf8, text, Length(Utf8, a));
    ConvertIsLength(Utf8, Utf8, text, Length(Utf8, a));
    if found < k { PrefixGrows(Utf8, text, found, k); }
    if k < found { PrefixGrows(Utf8, text, k, found); }
  }

  // --------------------------------------------------------------------- loops

  /** `floor_char_boundary`: walks back to a character boundary. */
  method FloorCharBoundary(text: string, offset: nat) returns (floor: nat)
    ensures floor == Floor(text, offset)
    ensures IsCharBoundary(text, floor) && floor <= offset
    ensures forall other :: floor < other <= offset && other <= Length(Utf8, text) ==> !IsCharBoundary(text, other)
  {
    floor := if offset <= Length(Utf8, text) then offset else Length(Utf8, text);
    FloorOfLength(text, offset);
    FloorOfLength(text, floor);
    ConvertNeverExceeds(Utf8, text, floor);
    while !IsCharBoundary(text, floor)
      invariant Floor(text, offset) == Floor(text, floor) <= floor <= offset && floor <= Length(Utf8, text)
      invariant forall other :: floor < other <= offset && other <= Length(Utf8, text) ==> !IsCharBoundary(text, other)
      decreases floor
    {
      CharBoundaryIsFloor(text, floor);
      FloorStepsBack(text, floor);
      floor := floor - 1;
    }
    CharBoundaryIsFloor(text, floor);
  }

  lemma {:induction false} FloorOfLength(text: string, offset: nat)
    ensures Length(Utf8, text) <= offset ==> Floor(text, offset) == Length(Utf8, text)
  {
    if text != "" && Size(Utf8, text[0]) <= offset { FloorOfLength(text[1..], offset - Size(Utf8, text[0])); }
  }

  lemma FloorStepsBack(text: string, offset: nat)
    requires Floor(text, offset) != offset
    ensures 0 < offset && Floor(text, offset - 1) == Floor(text, offset)
  {
    ConvertNeverExceeds(Utf8, text, offset);
    var floor := Floor(text, offset);
    ConvertCompose(Utf8, Utf8, Utf8, text, offset);
    ConvertMonotone(Utf8, Utf8, text, floor, offset - 1);
    ConvertMonotone(Utf8, Utf8, text, offset - 1, offset);
  }

  /** The longest prefix within a number of bytes. */
  function Truncate(text: string, maximum: nat): string {
    text[..CharsWithin(Utf8, text, maximum)]
  }

  lemma TruncateIsLongest(text: string, maximum: nat)
    ensures var kept := Truncate(text, maximum);
      && Length(Utf8, kept) <= maximum
      && (kept == text <==> Length(Utf8, text) <= maximum)
      && forall k :: 0 <= k <= |text| && Length(Utf8, text[..k]) <= maximum ==> k <= |kept|
  {
    var k := CharsWithin(Utf8, text, maximum);
    CharsWithinIsGreatest(Utf8, text, maximum);
    assert text[..|text|] == text;
    PrefixGrows(Utf8, text, k, |text|);
    forall j | 0 <= j <= |text| && Length(Utf8, text[..j]) <= maximum ensures j <= k {
      if k < j { PrefixGrows(Utf8, text, k + 1, j); }
    }
    if k < |text| { PrefixGrows(Utf8, text, k + 1, |text|); }
  }

  /** `truncate_boundary`: cuts at the limit, walking back to a character boundary. */
  method TruncateBoundary(text: string, maximum: nat) returns (kept: string)
    ensures kept == Truncate(text, maximum)
  {
    TruncateIsLongest(text, maximum);
    if Length(Utf8, text) <= maximum {
      return text;
    }
    var end: nat := maximum;
    ConvertNeverExceeds(Utf8, text, end);
    while !IsCharBoundary(text, end)
      invariant Floor(text, maximum) == Floor(text, end) <= end <= maximum
      decreases end
    {
      CharBoundaryIsFloor(text, end);
      FloorStepsBack(text, end);
      end := end - 1;
    }
    CharBoundaryIsFloor(text, end);
    kept := Before(text, end);
    ConvertIsLength(Utf8, Utf8, text, maximum);
    assert text == kept + text[|kept|..] && text == Truncate(text, maximum) + text[|Truncate(text, maximum)|..];
    CutAfter(Truncate(text, maximum), text[|Truncate(text, maximum)|..]);
  }

  /** The first `k` characters are all that end within the code units. */
  ghost predicate EndsWithin(text: string, units: nat, k: nat)
    requires k <= |text|
  {
    |Encode16(text[..k])| <= units && (k < |text| ==> units < |Encode16(text[..k + 1])|)
  }

  lemma FromUtf16EndsWithin(text: string, units: nat)
    ensures var k := CharsWithin(Utf16, text, units);
      EndsWithin(text, units, k) && Convert(Utf16, Utf8, text, units) == |Encode(text[..k])|
  {
    CharsWithinIsGreatest(Utf16, text, units);
    ConvertIsLength(Utf16, Utf8, text, units);
  }

  /** `offset_from_utf16`: walks over the characters, counting both encodings. */
  method OffsetFromUtf16(text: string, offset: nat) returns (result: nat)
    ensures result == Convert(Utf16, Utf8, text, offset)
    ensures exists k :: 0 <= k <= |text| && EndsWithin(text, offset, k) && result == |Encode(text[..k])|
  {
    FromUtf16EndsWithin(text, offset);
    var utf8, utf16 := 0, 0;
    assert text[0..] == text;
    for i := 0 to |text|
      invariant utf16 <= offset
      invariant utf8 + Convert(Utf16, Utf8, text[i..], offset - utf16) == Convert(Utf16, Utf8, text, offset)
      invariant utf8 + Length(Utf8, text[i..]) == Length(Utf8, text)
    {
      assert text[i..][1..] == text[i + 1..];
      var nextUtf8 := utf8 + Size(Utf8, text[i]);
      var nextUtf16 := utf16 + Size(Utf16, text[i]);
      if offset < nextUtf16 {
        return utf8;
      }
      if offset == nextUtf16 {
        assert Convert(Utf16, Utf8, text[i + 1..], 0) == 0;
        return nextUtf8;
      }
      utf8 := nextUtf8;
      utf16 := nextUtf16;
    }
    result := Length(Utf8, text);
  }

  /** `offset_to_utf16`: the code units before the floor boundary of the offset, taken within the text. */
  method OffsetToUtf16(text: string, offset: nat) returns (result: nat)
    ensures result == Convert(Utf8, Utf16, text, offset)
    ensures Floor(text, Floor(text, offset)) == Floor(text, offset)
    ensures result == |Encode16(Before(text, Floor(text, offset)))|
  {
    var floor := FloorCharBoundary(text, if offset <= Length(Utf8, text) then offset else Length(Utf8, text));
    FloorOfLength(text, offset);
    FloorOfLength(text, Length(Utf8, text));
    ConvertCompose(Utf8, Utf8, Utf8, text, offset);
    result := Length(Utf16, Before(text, floor));
    ConvertIsLength(Utf8, Utf16, text, floor);
    ConvertCompose(Utf8, Utf8, Utf16, text, offset);
  }
}
