/** What the printed values say: the text of every value, read back, is the value. */
module ValueTexts {
  import opened CText
  import opened PropertyForest
  import opened ContextLayout

  // Integers

  predicate IsDigits(s: seq<byte>) {
    s != [] && (forall b :: b in s ==> 48 <= b <= 57) && (1 < |s| ==> s[0] != 48)
  }

  /** Digits read in base 10. */
  function DigitsValue(s: seq<byte>): int {
    if s == [] then 0 else 10 * DigitsValue(s[..|s| - 1]) + (s[|s| - 1] as int - 48)
  }

  /** An optional minus sign, and digits. */
  predicate IsNumber(s: seq<byte>) {
    if s != [] && s[0] == 45 then IsDigits(s[1..]) && s[1] != 48 else IsDigits(s)
  }

  function NumberOf(s: seq<byte>): int {
    if s != [] && s[0] == 45 then -DigitsValue(s[1..]) else DigitsValue(s)
  }

  /** The low `w` bytes of a number in two's complement, little end first. */
  function BytesOf(n: int, w: nat): (bs: seq<byte>)
    ensures |bs| == w
    decreases w
  {
    if w == 0 then [] else [n % 256] + BytesOf(n / 256, w - 1)
  }

  predicate HasBytes(n: int, bs: seq<byte>) {
    BytesOf(n, |bs|) == bs
  }

  lemma {:induction false} DecimalReads(n: nat)
    ensures IsDigits(Decimal(n)) && DigitsValue(Decimal(n)) == n
    ensures 0 < n ==> Decimal(n)[0] != 48
  {
    var s := Decimal(n);
    if 10 <= n {
      DecimalReads(n / 10);
      assert s[..|s| - 1] == Decimal(n / 10);
    } else {
      assert s[..|s| - 1] == [];
    }
  }

  /** `text` is `n` in decimal. */
  predicate Spells(text: seq<byte>, n: int) {
    IsNumber(text) && NumberOf(text) == n
  }

  lemma SignedDecimalReads(n: int)
    ensures Spells(SignedDecimal(n), n)
  {
    if n < 0 {
      DecimalReads(-n);
      NegativeReads(Decimal(-n), -n);
    } else {
      DecimalReads(n);
      DigitsRead(Decimal(n), n);
    }
  }

  lemma NegativeReads(digits: seq<byte>, n: int)
    requires IsDigits(digits) && DigitsValue(digits) == n && digits[0] != 48
    ensures Spells([45] + digits, -n)
  {
    assert ([45] + digits)[1..] == digits;
  }

  lemma DigitsRead(digits: seq<byte>, n: nat)
    requires IsDigits(digits) && DigitsValue(digits) == n
    ensures Spells(digits, n)
  {
    assert digits[0] in digits;
  }

  lemma {:induction false} LittleEndianBytes(bs: seq<byte>)
    ensures HasBytes(LittleEndian(bs), bs) && LittleEndian(bs) < Pow256(|bs|)
  {
    if bs != [] {
      LittleEndianBytes(bs[1..]);
      assert LittleEndian(bs) / 256 == LittleEndian(bs[1..]);
      assert bs == [bs[0]] + bs[1..];
    }
  }

  predicate SameBytes(m: int, n: int, w: nat) {
    BytesOf(m, w) == BytesOf(n, w)
  }

  /** Only the number modulo 256^w counts. */
  lemma {:induction false} BytesWrap(n: int, w: nat, p: nat)
    requires p == Pow256(w)
    ensures SameBytes(n - p, n, w)
    decreases w
  {
    if 0 < w {
      BytesWrap(n / 256, w - 1, p / 256);
      assert (n - p) / 256 == n / 256 - p / 256;
      assert (n - p) % 256 == n % 256;
    }
  }

  /** The sign is in the highest byte. */
  lemma {:induction false} HighByte(bs: seq<byte>)
    requires bs != []
    ensures 128 <= bs[|bs| - 1] <==> Pow256(|bs|) <= 2 * LittleEndian(bs)
  {
    if |bs| == 1 {
      assert LittleEndian(bs[1..]) == 0;
      assert Pow256(1) == 256 * Pow256(0);
    } else {
      HighByte(bs[1..]);
      assert bs[1..][|bs| - 2] == bs[|bs| - 1];
    }
  }

  /** `n` is a number in the range of `p` signed values. */
  predicate InHalves(n: int, p: nat) {
    0 <= p + 2 * n < 2 * p
  }

  lemma SignedBytes(bs: seq<byte>, p: nat)
    requires bs != [] && p == Pow256(|bs|)
    ensures HasBytes(Signed(bs), bs) && InHalves(Signed(bs), p)
  {
    var n := LittleEndian(bs);
    LittleEndianBytes(bs);
    HighByte(bs);
    BytesWrap(n, |bs|, p);
    SignedFrom(bs, n, p);
  }

  lemma SignedFrom(bs: seq<byte>, n: nat, p: nat)
    requires bs != [] && n == LittleEndian(bs) < p == Pow256(|bs|) && (128 <= bs[|bs| - 1] <==> p <= 2 * n)
    requires HasBytes(n, bs) && SameBytes(n - p, n, |bs|)
    ensures HasBytes(Signed(bs), bs) && InHalves(Signed(bs), p)
  {
    var s := if p <= 2 * n then n - p else n;
    assert Signed(bs) == s;
    assert HasBytes(s, bs) && InHalves(s, p);
  }

  lemma {:induction false} BytesDetermine(m: int, n: int, w: nat)
    requires BytesOf(m, w) == BytesOf(n, w) && m < n + Pow256(w) && n < m + Pow256(w)
    ensures m == n
    decreases w
  {
    if 0 < w {
      assert BytesOf(m, w)[0] == BytesOf(n, w)[0];
      assert BytesOf(m, w)[1..] == BytesOf(n, w)[1..];
      assert m == 256 * (m / 256) + m % 256 && n == 256 * (n / 256) + n % 256;
      BytesDetermine(m / 256, n / 256, w - 1);
    }
  }

  /** The widths and ranges of the integer types. */
  function Width(ty: PropertyType): nat {
    match ty
    case Int64 | UInt64 => 8
    case Int32 | UInt32 => 4
    case Int16 | UInt16 => 2
    case Int8 | UInt8 => 1
    case _ => 0
  }

  predicate InRange(ty: PropertyType, n: int) {
    match ty
    case Int64 => -0x8000_0000_0000_0000 <= n < 0x8000_0000_0000_0000
    case UInt64 => 0 <= n < 0x1_0000_0000_0000_0000
    case Int32 => -0x8000_0000 <= n < 0x8000_0000
    case UInt32 => 0 <= n < 0x1_0000_0000
    case Int16 => -0x8000 <= n < 0x8000
    case UInt16 => 0 <= n < 0x1_0000
    case Int8 => -128 <= n < 128
    case UInt8 => 0 <= n < 256
    case _ => false
  }

  lemma Powers()
    ensures Pow256(1) == 0x100 && Pow256(2) == 0x1_0000 && Pow256(4) == 0x1_0000_0000
    ensures Pow256(8) == 0x1_0000_0000_0000_0000
  {
    assert Pow256(4) == 256 * (256 * Pow256(2));
    assert Pow256(6) == 256 * (256 * Pow256(4));
    assert Pow256(8) == 256 * (256 * Pow256(6));
  }

  /** An integer type prints the number in its range whose bytes are the value. */
  lemma IntegerTextReads(ty: PropertyType, value: seq<byte>)
    requires 0 < Width(ty) && WellTyped(ty, value)
    ensures var text := ValueText(ty, value);
            IsNumber(text) && InRange(ty, NumberOf(text)) && BytesOf(NumberOf(text), Width(ty)) == value
  {
    Powers();
    LittleEndianBytes(value);
    SignedBytes(value, Pow256(|value|));
    SignedDecimalReads(Signed(value));
    SignedDecimalReads(LittleEndian(value));
    assert |value| == Width(ty);
  }

  /** Every number of the type's range is the value of such bytes, and comes back from its text. */
  lemma IntegerRoundTrip(ty: PropertyType, n: int)
    requires InRange(ty, n)
    ensures var value := BytesOf(n, Width(ty));
            WellTyped(ty, value) && NumberOf(ValueText(ty, value)) == n
  {
    var value := BytesOf(n, Width(ty));
    Powers();
    IntegerTextReads(ty, value);
    BytesDetermine(NumberOf(ValueText(ty, value)), n, Width(ty));
  }

  // Bools and strings

  lemma BoolTextReads(value: seq<byte>)
    requires WellTyped(Bool, value)
    ensures ValueText(Bool, value) == Ascii("true") <==> value != [0]
    ensures ValueText(Bool, value) == Ascii("false") <==> value == [0]
  {
    assert |Ascii("true")| == 4 && |Ascii("false")| == 5;
    assert TRUE_TEXT == Ascii("true") && FALSE_TEXT == Ascii("false");
  }

  /** A string prints as the bytes before its terminator. */
  lemma {:induction false} StringTextReads(value: seq<byte>)
    requires Terminated(value, 1)
    ensures value == AsciiText(value) + [0]
  {
    if !ZeroUnit(value, 1) {
      StringTextReads(value[1..]);
      assert value == [value[0]] + value[1..];
    }
  }

  /** A wide string prints one character per unit, the unit's byte if it has but one. */
  lemma {:induction false} WideTextReads(value: seq<byte>)
    requires Terminated(value, 2)
    ensures var text := WideText(value);
            && |value| == 2 * |text| + 2
            && (forall k :: 0 <= k < |text| && value[2 * k + 1] == 0 ==> text[k] == value[2 * k])
  {
    if !ZeroUnit(value, 2) {
      WideTextReads(value[2..]);
      assert forall k :: 2 <= k < |value| ==> value[k] == value[2..][k - 2];
    }
  }
}
