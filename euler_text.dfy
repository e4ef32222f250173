/** `format_euler` of the two IMU display programs: one line of text
    `<name>: <whole>.<hundredths>` in a fixed-capacity string, after which
    byte 6 (the space after the colon) is overwritten with `-` for a negative
    angle, so the sign always sits in the same column.

    The floating-point angle is taken apart by the caller of the model:
    `whole` is `angle.abs() as i32`, `hundredths` is
    `(angle.abs() * 100.0) as i32` (the source keeps it `% 100`), and
    `negative` is `angle.is_sign_negative()`. */
module EulerText {
  import opened Wrappers

  predicate IsDigit(c: char) {
    '0' <= c <= '9'
  }

  function DigitChar(d: nat): (c: char)
    requires d < 10
    ensures IsDigit(c)
  {
    ('0' as int + d) as char
  }

  function DigitValue(c: char): int {
    c as int - '0' as int
  }

  /** Decimal digits of `n`, most significant first, no leading zeros. */
  function Decimal(n: nat): (s: seq<char>)
    ensures |s| >= 1
    ensures forall i :: 0 <= i < |s| ==> IsDigit(s[i])
  {
    if n < 10 then [DigitChar(n)] else Decimal(n / 10) + [DigitChar(n % 10)]
  }

  function Spaces(k: nat): (s: seq<char>)
    ensures |s| == k && forall i :: 0 <= i < k ==> s[i] == ' '
  {
    seq(k, _ => ' ')
  }

  /** `{:3}` of a non-negative integer: right-aligned, space-padded to width 3. */
  function Pad3(n: nat): seq<char> {
    var d := Decimal(n);
    if |d| < 3 then Spaces(3 - |d|) + d else d
  }

  /** `{:02}` of a non-negative integer: zero-padded to width 2. */
  function Pad2Zero(n: nat): seq<char> {
    var d := Decimal(n);
    if |d| < 2 then ['0'] + d else d
  }

  /** The line before the sign patch. */
  function UnsignedText(name: seq<char>, whole: nat, frac: nat): seq<char> {
    name + ": " + Pad3(whole) + "." + Pad2Zero(frac)
  }

  /** A negative angle replaces byte 6 with `-`; nothing else changes. */
  function SignPatched(text: seq<char>, negative: bool): (r: seq<char>)
    requires |text| > 6
    ensures |r| == |text| && r[6] == (if negative then '-' else text[6])
    ensures forall i :: 0 <= i < |text| && i != 6 ==> r[i] == text[i]
  {
    if negative then text[6 := '-'] else text
  }

  lemma {:induction false} DecimalLength(n: nat)
    ensures n < 10 <==> |Decimal(n)| == 1
    ensures n < 100 <==> |Decimal(n)| <= 2
    ensures n < 1000 <==> |Decimal(n)| <= 3
  {
    if n >= 10 {
      DecimalLength(n / 10);
    }
  }

  lemma UnsignedLength(name: seq<char>, whole: nat, frac: nat)
    requires frac < 100
    ensures |UnsignedText(name, whole, frac)| == |name| + 5 + |Pad3(whole)|
    ensures whole < 1000 <==> |Pad3(whole)| == 3
  {
    DecimalLength(whole);
    DecimalLength(frac);
    assert |Pad2Zero(frac)| == 2;
  }

  /** With a five-character name the line fits the 13-byte buffer exactly
      when the whole degrees are below 1000; otherwise `write!` fails and the
      `unwrap` panics. */
  lemma FitsIff(name: seq<char>, whole: nat, frac: nat)
    requires |name| == 5 && frac < 100
    ensures |UnsignedText(name, whole, frac)| <= 13 <==> whole < 1000
    ensures whole < 1000 ==> |UnsignedText(name, whole, frac)| == 13
  {
    UnsignedLength(name, whole, frac);
    DecimalLength(whole);
    assert whole >= 1000 ==> |Pad3(whole)| >= 4;
  }

  /** The text `format_euler` of the IMU program returns. */
  function EulerText13(name: seq<char>, whole: nat, frac: nat, negative: bool): seq<char>
    requires frac < 100
  {
    UnsignedLength(name, whole, frac);
    SignPatched(UnsignedText(name, whole, frac), negative)
  }

  /** The text `format_euler` of the attitude program returns: the same line
      with a trailing space, in a 14-byte buffer. */
  function EulerText14(name: seq<char>, whole: nat, frac: nat, negative: bool): seq<char>
    requires frac < 100
  {
    UnsignedLength(name, whole, frac);
    SignPatched(UnsignedText(name, whole, frac) + " ", negative)
  }

  /** The patch never reaches the trailing space: the 14-byte line is the
      13-byte line plus one space. */
  lemma TrailingSpaceUntouched(name: seq<char>, whole: nat, frac: nat, negative: bool)
    requires frac < 100
    ensures EulerText14(name, whole, frac, negative) == EulerText13(name, whole, frac, negative) + " "
  {
    UnsignedLength(name, whole, frac);
  }

  /** `write!` into a heapless string: append `piece` to `buf[..len]`. */
  method Write(buf: array<char>, len: nat, piece: seq<char>) returns (newLen: nat)
    requires len + |piece| <= buf.Length
    modifies buf
    ensures newLen == len + |piece|
    ensures buf[..newLen] == old(buf[..len]) + piece
  {
    var i := 0;
    while i < |piece|
      invariant 0 <= i <= |piece|
      invariant buf[..len + i] == old(buf[..len]) + piece[..i]
    {
      buf[len + i] := piece[i];
      assert buf[..len + i + 1] == buf[..len + i] + [piece[i]];
      assert piece[..i + 1] == piece[..i] + [piece[i]];
      i := i + 1;
    }
    assert piece[..i] == piece;
    newLen := len + i;
  }

  /** Every character is a single UTF-8 byte, so character positions are
      byte positions. */
  predicate IsAscii(s: seq<char>) {
    forall i :: 0 <= i < |s| ==> s[i] < 128 as char
  }

  /** `format_euler` of `src/bin/imu.rs`: render into a 13-byte buffer, then
      patch byte 6 in place for a negative angle. The name is a
      `String<5>` of ASCII characters, and the rendered line must fit, or
      `unwrap` panics. */
  method FormatEuler13(name: seq<char>, whole: nat, hundredths: nat, negative: bool) returns (text: seq<char>)
    requires |name| <= 5 && IsAscii(name)
    requires |UnsignedText(name, whole, hundredths % 100)| <= 13
    ensures text == EulerText13(name, whole, hundredths % 100, negative)
  {
    var frac := hundredths % 100;
    UnsignedLength(name, whole, frac);
    var pad3, pad2 := Pad3(whole), Pad2Zero(frac);
    var buf := new char[13];
    var len := 0;
    len := Write(buf, len, name);
    assert buf[..len] == name;
    len := Write(buf, len, ": ");
    assert buf[..len] == name + ": ";
    len := Write(buf, len, pad3);
    assert buf[..len] == name + ": " + pad3;
    len := Write(buf, len, ".");
    assert buf[..len] == name + ": " + pad3 + ".";
    len := Write(buf, len, pad2);
    assert buf[..len] == UnsignedText(name, whole, frac);
    ghost var unsigned := buf[..len];
    if negative {
      buf[6] := '-';
      assert buf[..len] == unsigned[6 := '-'];
    }
    text := buf[..len];
  }

  /** `format_euler` of `src/bin/attitude_solution.rs`: the same with a
      trailing space and a 14-byte buffer. */
  method FormatEuler14(name: seq<char>, whole: nat, hundredths: nat, negative: bool) returns (text: seq<char>)
    requires |name| <= 5 && IsAscii(name)
    requires |UnsignedText(name, whole, hundredths % 100)| + 1 <= 14
    ensures text == EulerText14(name, whole, hundredths % 100, negative)
  {
    var frac := hundredths % 100;
    UnsignedLength(name, whole, frac);
    var pad3, pad2 := Pad3(whole), Pad2Zero(frac);
    var buf := new char[14];
    var len := 0;
    len := Write(buf, len, name);
    assert buf[..len] == name;
    len := Write(buf, len, ": ");
    assert buf[..len] == name + ": ";
    len := Write(buf, len, pad3);
    assert buf[..len] == name + ": " + pad3;
    len := Write(buf, len, ".");
    assert buf[..len] == name + ": " + pad3 + ".";
    len := Write(buf, len, pad2);
    assert buf[..len] == UnsignedText(name, whole, frac);
    len := Write(buf, len, " ");
    assert buf[..len] == UnsignedText(name, whole, frac) + " ";
    ghost var unsigned := buf[..len];
    if negative {
      buf[6] := '-';
      assert buf[..len] == unsigned[6 := '-'];
    }
    text := buf[..len];
  }

  /** The labels the display task passes: yaw, roll, pitch. */
  const LABELS: seq<seq<char>> := ["yaw  ", "roll ", "pitch"]

  /** Fixed layout for the labels in use: 13 characters, the colon at 5, the
      sign column at 6, the decimal point at 10, and the rest exactly the
      name, the padded whole degrees and two hundredths digits. */
  lemma Layout(i: nat, whole: nat, frac: nat, negative: bool)
    requires i < |LABELS| && whole < 1000 && frac < 100
    ensures IsAscii(LABELS[i])
    ensures var t := EulerText13(LABELS[i], whole, frac, negative);
            && |t| == 13
            && t[..5] == LABELS[i] && t[5] == ':'
            && t[6] == (if negative then '-' else ' ')
            && t[7..10] == Pad3(whole) && t[10] == '.' && t[11..] == Pad2Zero(frac)
  {
    FitsIff(LABELS[i], whole, frac);
    DecimalLength(frac);
    var u := UnsignedText(LABELS[i], whole, frac);
    assert u == LABELS[i] + [':', ' '] + Pad3(whole) + ['.'] + Pad2Zero(frac);
  }

  /** What a reader of the display recovers from a 13-character line. */
  datatype Reading = Reading(name: seq<char>, negative: bool, whole: nat, frac: nat)

  predicate IsPadded3(s: seq<char>) {
    && |s| == 3
    && IsDigit(s[2])
    && (s[0] == ' ' ==> s[1] == ' ' || IsDigit(s[1]))
    && (s[0] != ' ' ==> IsDigit(s[0]) && IsDigit(s[1]))
  }

  function Padded3Value(s: seq<char>): int
    requires IsPadded3(s)
  {
    if s[0] == ' ' && s[1] == ' ' then DigitValue(s[2])
    else if s[0] == ' ' then 10 * DigitValue(s[1]) + DigitValue(s[2])
    else 100 * DigitValue(s[0]) + 10 * DigitValue(s[1]) + DigitValue(s[2])
  }

  /** Reads a line back: name, sign column, padded whole degrees, two
      hundredths digits. */
  function ParseEuler13(t: seq<char>): Option<Reading> {
    if && |t| == 13 && t[5] == ':' && (t[6] == ' ' || t[6] == '-')
       && IsPadded3(t[7..10]) && t[10] == '.' && IsDigit(t[11]) && IsDigit(t[12])
    then
      var whole := Padded3Value(t[7..10]);
      var frac := 10 * DigitValue(t[11]) + DigitValue(t[12]);
      if whole >= 0 && frac >= 0 then Some(Reading(t[..5], t[6] == '-', whole, frac)) else None
    else None
  }

  lemma Pad3Shape(n: nat)
    requires n < 1000
    ensures IsPadded3(Pad3(n)) && Padded3Value(Pad3(n)) == n
  {
    if n >= 10 {
      assert Decimal(n) == Decimal(n / 10) + [DigitChar(n % 10)];
      if n >= 100 {
        assert Decimal(n / 10) == Decimal(n / 100) + [DigitChar((n / 10) % 10)];
      }
    }
  }

  lemma Pad2Shape(n: nat)
    requires n < 100
    ensures |Pad2Zero(n)| == 2
    ensures 10 * DigitValue(Pad2Zero(n)[0]) + DigitValue(Pad2Zero(n)[1]) == n
    ensures IsDigit(Pad2Zero(n)[0]) && IsDigit(Pad2Zero(n)[1])
  {
    if n >= 10 {
      assert Decimal(n) == Decimal(n / 10) + [DigitChar(n % 10)];
    }
  }

  /** The rendering loses nothing: the name, the sign and both numbers can be
      read back from every line the display shows. */
  lemma {:induction false} RoundTrip(i: nat, whole: nat, frac: nat, negative: bool)
    requires i < |LABELS| && whole < 1000 && frac < 100
    ensures ParseEuler13(EulerText13(LABELS[i], whole, frac, negative)) == Some(Reading(LABELS[i], negative, whole, frac))
  {
    Layout(i, whole, frac, negative);
    Pad3Shape(whole);
    Pad2Shape(frac);
    var t := EulerText13(LABELS[i], whole, frac, negative);
    assert t[7..10] == Pad3(whole);
    assert t[11] == Pad2Zero(frac)[0] && t[12] == Pad2Zero(frac)[1];
  }
}
