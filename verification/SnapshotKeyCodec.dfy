/**
 The stored form of the snapshot key: 32 raw bytes, or their standard base64 text (section 4 of RFC 4648)
 with white space around it, as decodeAgentExecutionSnapshotKey accepts them.
 */
module SnapshotKeyCodec {
  import opened Prelude
  import opened Text

  const SNAPSHOT_KEY_BYTES := 32
  const PAD: byte := 61

  // ---------- base64 ----------

  /** The character that stands for a six-bit value. */
  function Digit(v: int): byte
    requires 0 <= v < 64
  {
    if v < 26 then 65 + v
    else if v < 52 then 97 + v - 26
    else if v < 62 then 48 + v - 52
    else if v == 62 then 43
    else 47
  }

  /** The six-bit value of a character, or nothing. */
  function Value(c: byte): Option<int> {
    if 65 <= c <= 90 then Some(c - 65)
    else if 97 <= c <= 122 then Some(c - 97 + 26)
    else if 48 <= c <= 57 then Some(c - 48 + 52)
    else if c == 43 then Some(62)
    else if c == 47 then Some(63)
    else None
  }

  /** base64.StdEncoding.EncodeToString. */
  function Encode(data: Bytes): Bytes {
    if |data| == 0 then []
    else if |data| == 1 then
      [Digit(data[0] / 4), Digit(data[0] % 4 * 16), PAD, PAD]
    else if |data| == 2 then
      [Digit(data[0] / 4), Digit(data[0] % 4 * 16 + data[1] / 16), Digit(data[1] % 16 * 4), PAD]
    else
      [Digit(data[0] / 4), Digit(data[0] % 4 * 16 + data[1] / 16),
       Digit(data[1] % 16 * 4 + data[2] / 64), Digit(data[2] % 64)] + Encode(data[3..])
  }

  /** Go's decoder skips line ends wherever they stand. */
  function WithoutLineEnds(text: Bytes): Bytes {
    if text == [] then []
    else if text[0] == 10 || text[0] == 13 then WithoutLineEnds(text[1..])
    else [text[0]] + WithoutLineEnds(text[1..])
  }

  function DecodeQuanta(text: Bytes): Option<Bytes> {
    if text == [] then Some([])
    else if |text| < 4 then None
    else
      var a, b, c, d := Value(text[0]), Value(text[1]), Value(text[2]), Value(text[3]);
      if a.None? || b.None? then None
      else if text[2] == PAD then
        if text[3] == PAD && |text| == 4 then Some([a.value * 4 + b.value / 16]) else None
      else if c.None? then None
      else if text[3] == PAD then
        if |text| == 4 then Some([a.value * 4 + b.value / 16, b.value % 16 * 16 + c.value / 4]) else None
      else if d.None? then None
      else
        var rest := DecodeQuanta(text[4..]);
        if rest.None? then None
        else Some([a.value * 4 + b.value / 16, b.value % 16 * 16 + c.value / 4, c.value % 4 * 64 + d.value]
                  + rest.value)
  }

  /** base64.StdEncoding.DecodeString. */
  function Decode(text: Bytes): Option<Bytes> {
    DecodeQuanta(WithoutLineEnds(text))
  }

  lemma DigitValue(v: int)
    requires 0 <= v < 64
    ensures Value(Digit(v)) == Some(v) && Digit(v) != PAD && Digit(v) !in {10, 13}
  {
  }

  /** Four digits carry three bytes. */
  lemma FullQuantum(a: byte, b: byte, c: byte, rest: Bytes)
    ensures var text := [Digit(a / 4), Digit(a % 4 * 16 + b / 16), Digit(b % 16 * 4 + c / 64), Digit(c % 64)] + rest;
            DecodeQuanta(text) ==
            if DecodeQuanta(rest).None? then None else Some([a, b, c] + DecodeQuanta(rest).value)
  {
    var v1, v2, v3 := a % 4 * 16 + b / 16, b % 16 * 4 + c / 64, c % 64;
    DigitValue(a / 4);
    DigitValue(v1);
    DigitValue(v2);
    DigitValue(v3);
    var text := [Digit(a / 4), Digit(v1), Digit(v2), Digit(v3)] + rest;
    assert text[4..] == rest;
    assert a / 4 * 4 + v1 / 16 == a && v1 % 16 * 16 + v2 / 4 == b && v2 % 4 * 64 + v3 == c;
  }

  predicate IsBase64Text(text: Bytes) {
    forall i :: 0 <= i < |text| ==> text[i] == PAD || Value(text[i]).Some?
  }

  lemma OneByte(a: byte)
    ensures DecodeQuanta(Encode([a])) == Some([a]) && IsBase64Text(Encode([a]))
  {
    DigitValue(a / 4);
    DigitValue(a % 4 * 16);
    hide Digit, Value;
  }

  lemma TwoBytes(a: byte, b: byte)
    ensures DecodeQuanta(Encode([a, b])) == Some([a, b]) && IsBase64Text(Encode([a, b]))
  {
    DigitValue(a / 4);
    DigitValue(a % 4 * 16 + b / 16);
    DigitValue(b % 16 * 4);
    hide Digit, Value;
  }

  lemma TextJoins(s: Bytes, t: Bytes)
    requires IsBase64Text(s) && IsBase64Text(t)
    ensures IsBase64Text(s + t)
  {
  }

  lemma {:induction false} EncodedLength(data: Bytes)
    ensures |Encode(data)| == (|data| + 2) / 3 * 4
  {
    hide Digit;
    if |data| >= 3 {
      EncodedLength(data[3..]);
    }
  }

  lemma FourDigits(p: int, q: int, r: int, s: int)
    requires 0 <= p < 64 && 0 <= q < 64 && 0 <= r < 64 && 0 <= s < 64
    ensures IsBase64Text([Digit(p), Digit(q), Digit(r), Digit(s)])
  {
    DigitValue(p);
    DigitValue(q);
    DigitValue(r);
    DigitValue(s);
  }

  lemma NothingDecodes()
    ensures DecodeQuanta([]) == Some([]) && IsBase64Text([])
  {
  }

  /** Decoding undoes encoding; the text has no line ends and its length is a multiple of four. */
  lemma {:induction false} DecodeEncode(data: Bytes)
    ensures |Encode(data)| == (|data| + 2) / 3 * 4
    ensures IsBase64Text(Encode(data))
    ensures DecodeQuanta(Encode(data)) == Some(data)
  {
    hide DecodeQuanta, IsBase64Text, Digit, Value;
    EncodedLength(data);
    if |data| >= 3 {
      var a, b, c := data[0], data[1], data[2];
      var head := [Digit(a / 4), Digit(a % 4 * 16 + b / 16), Digit(b % 16 * 4 + c / 64), Digit(c % 64)];
      DecodeEncode(data[3..]);
      FullQuantum(a, b, c, Encode(data[3..]));
      FourDigits(a / 4, a % 4 * 16 + b / 16, b % 16 * 4 + c / 64, c % 64);
      TextJoins(head, Encode(data[3..]));
      assert data == [a, b, c] + data[3..];
    } else if |data| == 2 {
      assert data == [data[0], data[1]];
      TwoBytes(data[0], data[1]);
    } else if |data| == 1 {
      assert data == [data[0]];
      OneByte(data[0]);
    } else {
      NothingDecodes();
    }
  }

  lemma {:induction false} NoLineEnds(text: Bytes)
    requires IsBase64Text(text)
    ensures WithoutLineEnds(text) == text
  {
    if text != [] {
      NoLineEnds(text[1..]);
    }
  }

  // ---------- what the text means ----------

  /** Table 1 of RFC 4648. */
  const UPPER := "ABCDEFGHIJKLMNOPQRSTUVWXYZ"
  const LOWER := "abcdefghijklmnopqrstuvwxyz"
  const FIGURES := "0123456789"
  const SIGNS := "+/"
  const ALPHABET := UPPER + LOWER + FIGURES + SIGNS

  lemma UpperAt(v: int)
    requires 0 <= v < 26
    ensures |UPPER| == 26 && UPPER[v] as int == 65 + v
  {
  }

  lemma LowerAt(v: int)
    requires 0 <= v < 26
    ensures |LOWER| == 26 && LOWER[v] as int == 97 + v
  {
  }

  lemma FigureAt(v: int)
    requires 0 <= v < 10
    ensures |FIGURES| == 10 && FIGURES[v] as int == 48 + v
  {
  }

  /** Where the pieces of the alphabet stand. */
  lemma Joined(upper: string, lower: string, figures: string, signs: string, v: int)
    requires |upper| == 26 && |lower| == 26 && |figures| == 10 && |signs| == 2 && 0 <= v < 64
    ensures (upper + lower + figures + signs)[v] ==
            if v < 26 then upper[v] else if v < 52 then lower[v - 26]
            else if v < 62 then figures[v - 52] else signs[v - 62]
  {
  }

  lemma Place(v: int)
    requires 0 <= v < 64
    ensures |ALPHABET| == 64 && ALPHABET[v] as int == Digit(v)
  {
    UpperAt(if v < 26 then v else 0);
    LowerAt(if 26 <= v < 52 then v - 26 else 0);
    FigureAt(if 52 <= v < 62 then v - 52 else 0);
    Joined(UPPER, LOWER, FIGURES, SIGNS, v);
  }

  lemma DigitHasValue(c: byte, v: int)
    ensures Value(c) == Some(v) <==> 0 <= v < 64 && Digit(v) == c
  {
  }

  /** The value of a character is its place in the alphabet, and no other character has one. */
  lemma ValueIsPlace(c: byte, v: int)
    ensures Value(c) == Some(v) <==> 0 <= v < |ALPHABET| && ALPHABET[v] as int == c
  {
    Place(if 0 <= v < 64 then v else 0);
    DigitHasValue(c, v);
  }

  /** The number that the first `n` characters write in base 64, if all of them are digits. */
  function Number(text: Bytes, n: nat): Option<int>
    requires n <= |text|
  {
    if n == 0 then Some(0)
    else
      var front, last := Number(text, n - 1), Value(text[n - 1]);
      if front.None? || last.None? then None else Some(front.value * 64 + last.value)
  }

  /** Bytes in a row, as one number. */
  function Wide(a: int, b: int, c: int): int {
    a * 65536 + b * 256 + c
  }

  /**
   The text is an encoding of the bytes by section 4 of RFC 4648: groups of 24 bits, written as four digits, the
   last one filled up with bits that are dropped again. A canonical encoding fills up with zeros.
   */
  predicate Encodes(text: Bytes, data: Bytes, canonical: bool)
    decreases |data|
  {
    if |data| == 0 then text == []
    else if |data| >= 3 then
      && |text| >= 4
      && Number(text, 4) == Some(Wide(data[0], data[1], data[2]))
      && Encodes(text[4..], data[3..], canonical)
    else if |data| == 2 then
      && |text| == 4 && text[3] == PAD
      && var n := Number(text, 3);
      && n.Some? && n.value / 4 == Wide(0, data[0], data[1]) && (canonical ==> n.value % 4 == 0)
    else
      && |text| == 4 && text[2] == PAD && text[3] == PAD
      && var n := Number(text, 2);
      && n.Some? && n.value / 16 == data[0] && (canonical ==> n.value % 16 == 0)
  }

  lemma NumberUnrolls(text: Bytes)
    requires |text| >= 4
    ensures var a, b, c, d := Value(text[0]), Value(text[1]), Value(text[2]), Value(text[3]);
            && Number(text, 2) == (if a.None? || b.None? then None else Some(a.value * 64 + b.value))
            && Number(text, 3) == (if a.None? || b.None? || c.None? then None
                                   else Some((a.value * 64 + b.value) * 64 + c.value))
            && Number(text, 4) == (if a.None? || b.None? || c.None? || d.None? then None
                                   else Some(((a.value * 64 + b.value) * 64 + c.value) * 64 + d.value))
  {
    hide Value;
    assert Number(text, 0) == Some(0);
    assert Number(text, 1) == Value(text[0]);
  }

  lemma ValueInRange(c: byte)
    ensures Value(c).Some? ==> 0 <= Value(c).value < 64
    ensures Value(PAD) == None
  {
  }

  /** One group: its three bytes are read off the digits exactly. */
  lemma GroupSplits(a: int, b: int, c: int, d: int, x: int, y: int, z: int)
    requires 0 <= a < 64 && 0 <= b < 64 && 0 <= c < 64 && 0 <= d < 64
    requires 0 <= x < 256 && 0 <= y < 256 && 0 <= z < 256
    ensures ((a * 64 + b) * 64 + c) * 64 + d == Wide(x, y, z) <==>
            x == a * 4 + b / 16 && y == b % 16 * 16 + c / 4 && z == c % 4 * 64 + d
  {
    var h, l, m, k := b / 16, b % 16, c / 4, c % 4;
    assert b == h * 16 + l && c == m * 4 + k;
    var p, q, r := a * 4 + h, l * 16 + m, k * 64 + d;
    assert ((a * 64 + b) * 64 + c) * 64 + d == p * 65536 + q * 256 + r;
  }

  lemma TwoByteGroup(a: int, b: int, c: int, x: int, y: int)
    requires 0 <= a < 64 && 0 <= b < 64 && 0 <= c < 64 && 0 <= x < 256 && 0 <= y < 256
    ensures ((a * 64 + b) * 64 + c) / 4 == Wide(0, x, y) <==> x == a * 4 + b / 16 && y == b % 16 * 16 + c / 4
    ensures ((a * 64 + b) * 64 + c) % 4 == c % 4
  {
    var h, l, m, k := b / 16, b % 16, c / 4, c % 4;
    assert b == h * 16 + l && c == m * 4 + k;
    var p, q := a * 4 + h, l * 16 + m;
    assert (a * 64 + b) * 64 + c == (p * 256 + q) * 4 + k;
  }

  lemma OneByteGroup(a: int, b: int, x: int)
    requires 0 <= a < 64 && 0 <= b < 64 && 0 <= x < 256
    ensures (a * 64 + b) / 16 == x <==> x == a * 4 + b / 16
    ensures (a * 64 + b) % 16 == b % 16
  {
    var h, l := b / 16, b % 16;
    assert a * 64 + b == (a * 4 + h) * 16 + l;
  }

  /** The decoder accepts exactly the encodings, canonical or not, and gives what they encode. */
  lemma {:induction false} DecodesExactly(text: Bytes, data: Bytes)
    ensures DecodeQuanta(text) == Some(data) <==> Encodes(text, data, false)
    decreases |text|
  {
    if |text| >= 4 {
      var a, b, c, d := Value(text[0]), Value(text[1]), Value(text[2]), Value(text[3]);
      NumberUnrolls(text);
      ValueInRange(text[0]);
      ValueInRange(text[1]);
      ValueInRange(text[2]);
      ValueInRange(text[3]);
      hide Value, Number;
      if a.Some? && b.Some? {
        if |data| == 1 {
          assert data == [data[0]];
          OneByteGroup(a.value, b.value, data[0]);
        } else if c.Some? && |data| == 2 {
          assert data == [data[0], data[1]];
          TwoByteGroup(a.value, b.value, c.value, data[0], data[1]);
        } else if c.Some? && d.Some? && |data| >= 3 {
          GroupSplits(a.value, b.value, c.value, d.value, data[0], data[1], data[2]);
          LongQuantum(text, data);
        }
      }
    }
  }

  /** A group of four digits and the rest of the text. */
  lemma {:induction false} LongQuantum(text: Bytes, data: Bytes)
    requires |text| >= 4 && |data| >= 3
    requires Value(text[0]).Some? && Value(text[1]).Some? && Value(text[2]).Some? && Value(text[3]).Some?
    ensures var a, b := Value(text[0]).value, Value(text[1]).value;
            var c, d := Value(text[2]).value, Value(text[3]).value;
            DecodeQuanta(text) == Some(data) <==>
            && data[0] == a * 4 + b / 16 && data[1] == b % 16 * 16 + c / 4 && data[2] == c % 4 * 64 + d
            && Encodes(text[4..], data[3..], false)
    decreases |text|, 0
  {
    DecodesExactly(text[4..], data[3..]);
    ValueInRange(text[2]);
    ValueInRange(text[3]);
    var a, b := Value(text[0]).value, Value(text[1]).value;
    var c, d := Value(text[2]).value, Value(text[3]).value;
    hide Value, Encodes;
    var rest := DecodeQuanta(text[4..]);
    if rest.Some? {
      var head := [a * 4 + b / 16, b % 16 * 16 + c / 4, c % 4 * 64 + d];
      assert DecodeQuanta(text) == Some(head + rest.value);
      assert (head + rest.value)[3..] == rest.value;
      assert data == [data[0], data[1], data[2]] + data[3..];
    }
  }

  lemma GroupDigits(a: int, b: int, c: int, d: int, x: int, y: int, z: int)
    requires 0 <= a < 64 && 0 <= b < 64 && 0 <= c < 64 && 0 <= d < 64
    requires 0 <= x < 256 && 0 <= y < 256 && 0 <= z < 256
    ensures x == a * 4 + b / 16 && y == b % 16 * 16 + c / 4 && z == c % 4 * 64 + d <==>
            a == x / 4 && b == x % 4 * 16 + y / 16 && c == y % 16 * 4 + z / 64 && d == z % 64
  {
  }

  lemma OneDigit(a: int, b: int, x: int)
    requires 0 <= a < 64 && 0 <= b < 64 && 0 <= x < 256
    ensures x == a * 4 + b / 16 && b % 16 == 0 <==> a == x / 4 && b == x % 4 * 16
  {
  }

  lemma TwoDigits(a: int, b: int, c: int, x: int, y: int)
    requires 0 <= a < 64 && 0 <= b < 64 && 0 <= c < 64 && 0 <= x < 256 && 0 <= y < 256
    ensures x == a * 4 + b / 16 && y == b % 16 * 16 + c / 4 && c % 4 == 0 <==>
            a == x / 4 && b == x % 4 * 16 + y / 16 && c == y % 16 * 4
  {
    GroupDigits(a, b, c, 0, x, y, c % 4 * 64);
  }

  lemma CanonicalOne(text: Bytes, x: byte)
    requires |text| >= 4
    ensures Encodes(text, [x], true) <==> text == Encode([x])
  {
    NumberUnrolls(text);
    var a, b := Value(text[0]), Value(text[1]);
    ValueInRange(text[0]);
    ValueInRange(text[1]);
    DigitHasValue(text[0], x / 4);
    DigitHasValue(text[1], x % 4 * 16);
    hide Digit, Value, Number;
    if a.Some? && b.Some? {
      OneByteGroup(a.value, b.value, x);
      OneDigit(a.value, b.value, x);
    }
    assert text == Encode([x]) <==>
           |text| == 4 && text[0] == Digit(x / 4) && text[1] == Digit(x % 4 * 16) && text[2] == PAD && text[3] == PAD;
  }

  lemma CanonicalTwo(text: Bytes, x: byte, y: byte)
    requires |text| >= 4
    ensures Encodes(text, [x, y], true) <==> text == Encode([x, y])
  {
    NumberUnrolls(text);
    var a, b, c := Value(text[0]), Value(text[1]), Value(text[2]);
    var p, q, r := x / 4, x % 4 * 16 + y / 16, y % 16 * 4;
    ValueInRange(text[0]);
    ValueInRange(text[1]);
    ValueInRange(text[2]);
    DigitHasValue(text[0], p);
    DigitHasValue(text[1], q);
    DigitHasValue(text[2], r);
    hide Digit, Value, Number;
    assert text == Encode([x, y]) <==> |text| == 4 && a == Some(p) && b == Some(q) && c == Some(r) && text[3] == PAD;
    if a.Some? && b.Some? && c.Some? {
      TwoByteGroup(a.value, b.value, c.value, x, y);
      TwoDigits(a.value, b.value, c.value, x, y);
    }
    hide Wide, Encode;
  }

  /** The four digits of a full group. */
  lemma CanonicalThree(text: Bytes, x: byte, y: byte, z: byte)
    requires |text| >= 4
    ensures Number(text, 4) == Some(Wide(x, y, z)) <==>
            text[..4] == [Digit(x / 4), Digit(x % 4 * 16 + y / 16), Digit(y % 16 * 4 + z / 64), Digit(z % 64)]
  {
    NumberUnrolls(text);
    var a, b, c, d := Value(text[0]), Value(text[1]), Value(text[2]), Value(text[3]);
    var p, q, r, t := x / 4, x % 4 * 16 + y / 16, y % 16 * 4 + z / 64, z % 64;
    ValueInRange(text[0]);
    ValueInRange(text[1]);
    ValueInRange(text[2]);
    ValueInRange(text[3]);
    DigitHasValue(text[0], p);
    DigitHasValue(text[1], q);
    DigitHasValue(text[2], r);
    DigitHasValue(text[3], t);
    hide Digit, Value, Number;
    assert text[..4] == [text[0], text[1], text[2], text[3]];
    assert text[..4] == [Digit(p), Digit(q), Digit(r), Digit(t)] <==>
           a == Some(p) && b == Some(q) && c == Some(r) && d == Some(t);
    if a.Some? && b.Some? && c.Some? && d.Some? {
      GroupSplits(a.value, b.value, c.value, d.value, x, y, z);
      GroupDigits(a.value, b.value, c.value, d.value, x, y, z);
    }
    hide Wide;
  }

  /** Of all encodings of some bytes, the encoder writes the canonical one. */
  lemma {:induction false} EncodeIsCanonical(text: Bytes, data: Bytes)
    ensures Encodes(text, data, true) <==> text == Encode(data)
    decreases |data|
  {
    hide Digit, Value, Number;
    EncodedLength(data);
    if |text| >= 4 {
      if |data| >= 3 {
        CanonicalThree(text, data[0], data[1], data[2]);
        EncodeIsCanonical(text[4..], data[3..]);
        assert text == text[..4] + text[4..];
      } else if |data| == 2 {
        CanonicalTwo(text, data[0], data[1]);
        assert data == [data[0], data[1]];
      } else if |data| == 1 {
        CanonicalOne(text, data[0]);
        assert data == [data[0]];
      }
    }
  }

  lemma {:induction false} EncodingIsText(text: Bytes, data: Bytes)
    requires Encodes(text, data, false)
    ensures IsBase64Text(text) && (data != [] ==> text != [])
    decreases |data|
  {
    if data != [] {
      NumberUnrolls(text);
      hide Number, Value;
      if |data| >= 3 {
        EncodingIsText(text[4..], data[3..]);
        assert forall i :: 4 <= i < |text| ==> text[i] == text[4..][i - 4];
      }
    }
  }

  lemma OneCharacter(c: byte)
    ensures WithoutLineEnds([c]) == if c == 10 || c == 13 then [] else [c]
  {
  }

  lemma FirstCharacter(c: byte, t: Bytes)
    ensures WithoutLineEnds([c] + t) == (if c == 10 || c == 13 then [] else [c]) + WithoutLineEnds(t)
  {
    assert ([c] + t)[1..] == t;
  }

  /** With OneCharacter: line ends are dropped, everything else stays where it is. */
  lemma {:induction false} LineEndsAreDropped(s: Bytes, t: Bytes)
    ensures WithoutLineEnds(s + t) == WithoutLineEnds(s) + WithoutLineEnds(t)
  {
    if s == [] {
      assert s + t == t;
    } else {
      hide WithoutLineEnds;
      FirstCharacter(s[0], s[1..]);
      FirstCharacter(s[0], s[1..] + t);
      assert s == [s[0]] + s[1..];
      assert s + t == [s[0]] + (s[1..] + t);
      LineEndsAreDropped(s[1..], t);
    }
  }

  predicate IsLineEnds(s: Bytes) {
    forall i :: 0 <= i < |s| ==> s[i] == 10 || s[i] == 13
  }

  lemma {:induction false} OnlyLineEnds(s: Bytes)
    ensures WithoutLineEnds(s) == [] <==> IsLineEnds(s)
  {
    if s != [] {
      OnlyLineEnds(s[1..]);
      assert IsLineEnds(s[1..]) && (s[0] == 10 || s[0] == 13) ==> IsLineEnds(s) by {
        assert forall i :: 0 < i < |s| ==> s[i] == s[1..][i - 1];
      }
    }
  }

  lemma {:induction false} DropFirst(text: Bytes) returns (before: Bytes, rest: Bytes)
    ensures text == before + rest && IsLineEnds(before) && (rest != [] ==> rest[0] !in {10, 13})
  {
    before, rest := [], text;
    if text != [] && text[0] in {10, 13} {
      before, rest := DropFirst(text[1..]);
      before := [text[0]] + before;
    }
  }

  lemma {:induction false} DropLast(text: Bytes) returns (rest: Bytes, after: Bytes)
    ensures text == rest + after && IsLineEnds(after) && (rest != [] ==> rest[|rest| - 1] !in {10, 13})
  {
    rest, after := text, [];
    var n := |text| - 1;
    if text != [] && text[n] in {10, 13} {
      rest, after := DropLast(text[..n]);
      after := after + [text[n]];
      assert text == text[..n] + [text[n]];
    }
  }

  /** What is left without the line ends at both ends. */
  lemma CoreOf(text: Bytes) returns (before: Bytes, core: Bytes, after: Bytes)
    requires WithoutLineEnds(text) != []
    ensures text == before + core + after && IsLineEnds(before) && IsLineEnds(after)
    ensures core != [] && core[0] !in {10, 13} && core[|core| - 1] !in {10, 13}
    ensures WithoutLineEnds(core) == WithoutLineEnds(text)
  {
    hide WithoutLineEnds;
    var rest;
    before, rest := DropFirst(text);
    core, after := DropLast(rest);
    LineEndsAreDropped(before, rest);
    LineEndsAreDropped(core, after);
    OnlyLineEnds(before);
    OnlyLineEnds(after);
    assert WithoutLineEnds(text) == [] + (WithoutLineEnds(core) + []);
    OnlyLineEnds(core);
    assert core != [] ==> core[0] == rest[0];
  }

  lemma {:induction false} KeptCharacter(text: Bytes, i: nat)
    requires i < |text| && text[i] !in {10, 13}
    ensures text[i] in WithoutLineEnds(text)
  {
    if i > 0 {
      KeptCharacter(text[1..], i - 1);
    }
  }

  // ---------- white space around the text ----------

  /** The UTF-8 forms of the characters that unicode.IsSpace accepts. */
  predicate IsSpaceRune(r: Bytes) {
    || (|r| == 1 && r[0] in {9, 10, 11, 12, 13, 32})
    || (|r| == 2 && r[0] == 0xC2 && r[1] in {0x85, 0xA0})
    || (|r| == 3 && r[0] == 0xE1 && r[1] == 0x9A && r[2] == 0x80)
    || (|r| == 3 && r[0] == 0xE2 && r[1] == 0x80 && (0x80 <= r[2] <= 0x8A || r[2] in {0xA8, 0xA9, 0xAF}))
    || (|r| == 3 && r[0] == 0xE2 && r[1] == 0x81 && r[2] == 0x9F)
    || (|r| == 3 && r[0] == 0xE3 && r[1] == 0x80 && r[2] == 0x80)
  }

  /** The UTF-8 form (section 3 of RFC 3629) of a character of at most sixteen bits. */
  function Utf8(c: char): seq<int> {
    var n := c as int;
    if n < 0x80 then [n]
    else if n < 0x800 then [0xC0 + n / 64, 0x80 + n % 64]
    else [0xE0 + n / 4096, 0x80 + n / 64 % 64, 0x80 + n % 64]
  }

  lemma SpaceHasRune(c: char, r: Bytes)
    requires IsSpace(c) && r == Utf8(c)
    ensures IsSpaceRune(r)
  {
  }

  lemma RuneIsSpace(r: Bytes) returns (c: char)
    requires IsSpaceRune(r)
    ensures IsSpace(c) && r == Utf8(c)
  {
    var n: int := r[0];
    if |r| == 2 {
      n := 0x80 + (r[1] as int - 0x80);
    } else if |r| == 3 {
      n := (r[0] as int - 0xE0) * 4096 + (r[1] as int - 0x80) * 64 + (r[2] as int - 0x80);
    }
    c := n as char;
  }

  /** Exactly the characters that unicode.IsSpace accepts have such a form. */
  lemma SpaceRunesAreSpaces(r: Bytes)
    ensures IsSpaceRune(r) <==> exists c: char :: IsSpace(c) && r == Utf8(c)
  {
    hide IsSpaceRune, IsSpace, Utf8;
    if IsSpaceRune(r) {
      var c := RuneIsSpace(r);
    }
    if c: char :| IsSpace(c) && r == Utf8(c) {
      SpaceHasRune(c, r);
    }
  }

  function LeadingSpace(s: Bytes): (n: nat)
    ensures n <= |s| && (n > 0 ==> IsSpaceRune(s[..n]))
  {
    if |s| >= 1 && IsSpaceRune(s[..1]) then 1
    else if |s| >= 2 && IsSpaceRune(s[..2]) then 2
    else if |s| >= 3 && IsSpaceRune(s[..3]) then 3
    else 0
  }

  function TrailingSpace(s: Bytes): (n: nat)
    ensures n <= |s| && (n > 0 ==> IsSpaceRune(s[|s| - n..]))
  {
    if |s| >= 1 && IsSpaceRune(s[|s| - 1..]) then 1
    else if |s| >= 2 && IsSpaceRune(s[|s| - 2..]) then 2
    else if |s| >= 3 && IsSpaceRune(s[|s| - 3..]) then 3
    else 0
  }

  function TrimLeftBytes(s: Bytes): Bytes
    decreases |s|
  {
    if LeadingSpace(s) > 0 then TrimLeftBytes(s[LeadingSpace(s)..]) else s
  }

  function TrimRightBytes(s: Bytes): Bytes
    decreases |s|
  {
    if TrailingSpace(s) > 0 then TrimRightBytes(s[..|s| - TrailingSpace(s)]) else s
  }

  /** bytes.TrimSpace. */
  function TrimSpaceBytes(s: Bytes): Bytes {
    TrimRightBytes(TrimLeftBytes(s))
  }

  predicate IsPadding(runes: seq<Bytes>) {
    forall i :: 0 <= i < |runes| ==> IsSpaceRune(runes[i])
  }

  function Flat(runes: seq<Bytes>): Bytes {
    if runes == [] then [] else runes[0] + Flat(runes[1..])
  }

  lemma {:induction false} FlatLast(runes: seq<Bytes>)
    requires runes != []
    ensures Flat(runes) == Flat(runes[..|runes| - 1]) + runes[|runes| - 1]
  {
    if |runes| > 1 {
      FlatLast(runes[1..]);
      assert runes[1..][..|runes| - 2] == runes[..|runes| - 1][1..];
      assert Flat(runes[..|runes| - 1]) == runes[0] + Flat(runes[..|runes| - 1][1..]);
    } else {
      assert runes[1..] == [] && runes[..0] == [];
    }
  }

  lemma LeadingRune(r: Bytes, s: Bytes)
    requires IsSpaceRune(r)
    ensures LeadingSpace(r + s) == |r|
  {
    assert (r + s)[..|r|] == r;
    assert (r + s)[..1] == [r[0]];
    if |r| == 3 {
      assert (r + s)[..2] == r[..2];
    }
  }

  lemma TrailingRune(s: Bytes, r: Bytes)
    requires IsSpaceRune(r)
    ensures TrailingSpace(s + r) == |r|
  {
    var t := s + r;
    assert t[|t| - |r|..] == r;
    if |r| > 1 {
      assert t[|t| - 1..] == [r[|r| - 1]];
    }
    if |r| == 3 {
      assert t[|t| - 2..] == r[1..];
    }
  }

  lemma {:induction false} TrimLeftPadding(runes: seq<Bytes>, s: Bytes)
    requires IsPadding(runes)
    ensures TrimLeftBytes(Flat(runes) + s) == TrimLeftBytes(s)
  {
    if runes == [] {
      assert Flat(runes) + s == s;
    } else {
      var rest := Flat(runes[1..]) + s;
      assert Flat(runes) + s == runes[0] + rest;
      LeadingRune(runes[0], rest);
      assert (runes[0] + rest)[|runes[0]|..] == rest;
      TrimLeftPadding(runes[1..], s);
    }
  }

  lemma {:induction false} TrimRightPadding(s: Bytes, runes: seq<Bytes>)
    requires IsPadding(runes)
    ensures TrimRightBytes(s + Flat(runes)) == TrimRightBytes(s)
    decreases |runes|
  {
    if runes == [] {
      assert s + Flat(runes) == s;
    } else {
      var n := |runes| - 1;
      FlatLast(runes);
      var rest := s + Flat(runes[..n]);
      assert s + Flat(runes) == rest + runes[n];
      TrailingRune(rest, runes[n]);
      assert (rest + runes[n])[..|rest|] == rest;
      TrimRightPadding(s, runes[..n]);
    }
  }

  // ---------- the key ----------

  /** decodeAgentExecutionSnapshotKey. */
  function DecodeKey(raw: Bytes): (r: Option<Bytes>)
    ensures r.Some? ==> |r.value| == SNAPSHOT_KEY_BYTES
  {
    if |raw| == SNAPSHOT_KEY_BYTES then Some(raw)
    else
      var decoded := Decode(TrimSpaceBytes(raw));
      if decoded.None? || |decoded.value| != SNAPSHOT_KEY_BYTES then None else decoded
  }

  predicate PlainAscii(c: byte) {
    c < 128 && c !in {9, 10, 11, 12, 13, 32}
  }

  lemma Base64IsNotSpace(c: byte)
    requires c == PAD || Value(c).Some?
    ensures PlainAscii(c)
  {
  }

  lemma NoSpaceFirst(s: Bytes)
    requires s != [] && PlainAscii(s[0])
    ensures LeadingSpace(s) == 0
  {
    forall n | 0 < n <= |s|
      ensures !IsSpaceRune(s[..n])
    {
      assert s[..n][0] == s[0];
    }
  }

  lemma NoSpaceLast(s: Bytes)
    requires s != [] && PlainAscii(s[|s| - 1])
    ensures TrailingSpace(s) == 0
  {
    forall k | 0 <= k < |s|
      ensures !IsSpaceRune(s[k..])
    {
      assert s[k..][|s| - k - 1] == s[|s| - 1];
    }
  }

  lemma NoSpaceAtEnds(text: Bytes, more: Bytes)
    requires text != [] && PlainAscii(text[0]) && PlainAscii(text[|text| - 1])
    ensures TrimLeftBytes(text + more) == text + more
    ensures TrimRightBytes(text) == text
  {
    hide IsSpaceRune, LeadingSpace, TrailingSpace;
    NoSpaceFirst(text + more);
    NoSpaceLast(text);
  }

  /** Trimming takes exactly the padding off. */
  lemma PaddingTrimsOff(text: Bytes, before: seq<Bytes>, after: seq<Bytes>)
    requires text != [] && PlainAscii(text[0]) && PlainAscii(text[|text| - 1])
    requires IsPadding(before) && IsPadding(after)
    ensures TrimSpaceBytes(Flat(before) + text + Flat(after)) == text
  {
    hide Flat, TrimLeftBytes, TrimRightBytes;
    assert Flat(before) + text + Flat(after) == Flat(before) + (text + Flat(after));
    TrimLeftPadding(before, text + Flat(after));
    NoSpaceAtEnds(text, Flat(after));
    TrimRightPadding(text, after);
  }

  lemma {:induction false} FlatJoins(a: seq<Bytes>, b: seq<Bytes>)
    ensures Flat(a + b) == Flat(a) + Flat(b)
    ensures IsPadding(a) && IsPadding(b) ==> IsPadding(a + b)
  {
    if a == [] {
      assert a + b == b;
    } else {
      assert (a + b)[1..] == a[1..] + b;
      FlatJoins(a[1..], b);
    }
  }

  /** Line ends are space runes of one byte each. */
  lemma {:induction false} LineEndsArePadding(s: Bytes) returns (runes: seq<Bytes>)
    requires IsLineEnds(s)
    ensures IsPadding(runes) && Flat(runes) == s
  {
    runes := [];
    if s != [] {
      var rest := LineEndsArePadding(s[1..]);
      runes := [s[..1]] + rest;
      assert runes[1..] == rest;
      assert s == s[..1] + s[1..];
    }
  }

  lemma {:induction false} TrimLeftTakesPadding(s: Bytes) returns (runes: seq<Bytes>)
    ensures IsPadding(runes) && s == Flat(runes) + TrimLeftBytes(s)
    decreases |s|
  {
    hide IsSpaceRune, LeadingSpace;
    runes := [];
    var n := LeadingSpace(s);
    if n > 0 {
      var rest := TrimLeftTakesPadding(s[n..]);
      runes := [s[..n]] + rest;
      assert runes[1..] == rest;
      assert s == s[..n] + s[n..];
    }
  }

  lemma {:induction false} TrimRightTakesPadding(s: Bytes) returns (runes: seq<Bytes>)
    ensures IsPadding(runes) && s == TrimRightBytes(s) + Flat(runes)
    decreases |s|
  {
    hide IsSpaceRune, TrailingSpace;
    runes := [];
    var n := |s| - TrailingSpace(s);
    if n < |s| {
      var rest := TrimRightTakesPadding(s[..n]);
      runes := rest + [s[n..]];
      FlatJoins(rest, [s[n..]]);
      assert [s[n..]][1..] == [];
      assert s == s[..n] + s[n..];
    }
  }

  /** The form with white space: any runes, then the text, then any runes. */
  predicate Padded(raw: Bytes, before: seq<Bytes>, text: Bytes, after: seq<Bytes>) {
    IsPadding(before) && IsPadding(after) && raw == Flat(before) + text + Flat(after)
  }

  lemma CoreIsPlain(core: Bytes)
    requires core != [] && core[0] !in {10, 13} && core[|core| - 1] !in {10, 13}
    requires IsBase64Text(WithoutLineEnds(core))
    ensures PlainAscii(core[0]) && PlainAscii(core[|core| - 1])
  {
    hide WithoutLineEnds, Value, PlainAscii;
    KeptCharacter(core, 0);
    KeptCharacter(core, |core| - 1);
    Base64IsNotSpace(core[0]);
    Base64IsNotSpace(core[|core| - 1]);
  }

  /** Padded text that encodes something decodes to it, line ends in the text or not. */
  lemma PaddedTextDecodes(raw: Bytes, before: seq<Bytes>, text: Bytes, after: seq<Bytes>, data: Bytes)
    requires Padded(raw, before, text, after) && data != [] && Encodes(WithoutLineEnds(text), data, false)
    ensures Decode(TrimSpaceBytes(raw)) == Some(data)
  {
    hide Encodes, TrimSpaceBytes, IsPadding, DecodeQuanta, WithoutLineEnds, Flat, IsLineEnds, PlainAscii;
    EncodingIsText(WithoutLineEnds(text), data);
    var first, core, last := CoreOf(text);
    CoreIsPlain(core);
    var lead := LineEndsArePadding(first);
    var trail := LineEndsArePadding(last);
    FlatJoins(before, lead);
    FlatJoins(trail, after);
    assert raw == Flat(before + lead) + core + Flat(trail + after);
    PaddingTrimsOff(core, before + lead, trail + after);
    DecodesExactly(WithoutLineEnds(core), data);
  }

  /** The forms of a key that are not raw: its base64 text, canonical or not, with line ends and white space. */
  ghost predicate WrittenKey(raw: Bytes, key: Bytes) {
    exists before, text, after :: Padded(raw, before, text, after) && Encodes(WithoutLineEnds(text), key, false)
  }

  /** 32 bytes are the key itself; anything else is a key exactly if it is the written form of one. */
  lemma DecodeKeyExactly(raw: Bytes, key: Bytes)
    ensures |raw| == 32 ==> DecodeKey(raw) == Some(raw)
    ensures |raw| != 32 ==> (DecodeKey(raw) == Some(key) <==> |key| == 32 && WrittenKey(raw, key))
  {
    hide Encodes, TrimLeftBytes, TrimRightBytes, DecodeQuanta, WithoutLineEnds, IsPadding;
    if |raw| != 32 && DecodeKey(raw) == Some(key) {
      var before := TrimLeftTakesPadding(raw);
      var after := TrimRightTakesPadding(TrimLeftBytes(raw));
      var text := TrimSpaceBytes(raw);
      assert raw == Flat(before) + text + Flat(after);
      DecodesExactly(WithoutLineEnds(text), key);
      assert Padded(raw, before, text, after);
    }
    if |raw| != 32 && |key| == 32 && WrittenKey(raw, key) {
      var before, text, after :| Padded(raw, before, text, after) && Encodes(WithoutLineEnds(text), key, false);
      PaddedTextDecodes(raw, before, text, after, key);
    }
  }

  /** The stored form decodes to the key, with any white space around it, and is never taken for a raw key. */
  lemma StoredKeyDecodes(key: Bytes, before: seq<Bytes>, after: seq<Bytes>)
    requires |key| == SNAPSHOT_KEY_BYTES
    requires IsPadding(before) && IsPadding(after)
    ensures var stored := Flat(before) + Encode(key) + Flat(after);
            |stored| > SNAPSHOT_KEY_BYTES && DecodeKey(stored) == Some(key)
  {
    hide Encode, DecodeQuanta, WithoutLineEnds, TrimSpaceBytes;
    DecodeEncode(key);
    NoLineEnds(Encode(key));
    Base64IsNotSpace(Encode(key)[0]);
    Base64IsNotSpace(Encode(key)[|Encode(key)| - 1]);
    PaddingTrimsOff(Encode(key), before, after);
  }

  /** The form the controller itself writes. */
  lemma MintedKeyDecodes(key: Bytes)
    requires |key| == SNAPSHOT_KEY_BYTES
    ensures |Encode(key)| == 44 && DecodeKey(Encode(key)) == Some(key)
  {
    hide Encode, DecodeKey;
    StoredKeyDecodes(key, [], []);
    DecodeEncode(key);
    assert Flat([]) + Encode(key) + Flat([]) == Encode(key);
  }
}
