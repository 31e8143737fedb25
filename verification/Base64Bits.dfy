/**
  Base64 bit by bit (section 4 of RFC 4648): the symbols by their table, and the
  bytes of a text as the bits of its symbols one after the other.
 */
module Base64Bits {
  import opened JsonValue
  import opened Base64

  const ROW0: string := "ABCDEFGHIJKLMNOP"
  const ROW1: string := "QRSTUVWXYZabcdef"
  const ROW2: string := "ghijklmnopqrstuv"
  const ROW3: string := "wxyz0123456789+/"

  /** The table of section 4 of RFC 4648, sixteen symbols a row. */
  const ALPHABET: string := ROW0 + ROW1 + ROW2 + ROW3

  lemma AlphabetRows(d: Digit)
    ensures |ROW0| == |ROW1| == |ROW2| == |ROW3| == 16 && |ALPHABET| == 64
    ensures ALPHABET[d] ==
            if d < 16 then ROW0[d] else if d < 32 then ROW1[d - 16] else if d < 48 then ROW2[d - 32] else ROW3[d - 48]
  {
  }

  lemma Row0(d: nat)
    requires d < 16
    ensures |ROW0| == 16 && Symbol(d) == ROW0[d] as int
  {
  }

  lemma Row1(d: nat)
    requires d < 16
    ensures |ROW1| == 16 && Symbol(d + 16) == ROW1[d] as int
  {
  }

  lemma Row2(d: nat)
    requires d < 16
    ensures |ROW2| == 16 && Symbol(d + 32) == ROW2[d] as int
  {
  }

  lemma Row3(d: nat)
    requires d < 16
    ensures |ROW3| == 16 && Symbol(d + 48) == ROW3[d] as int
  {
  }

  /** The symbol of every digit is the one in the table. */
  lemma SymbolTable(d: Digit)
    ensures |ALPHABET| == 64 && Symbol(d) == ALPHABET[d] as int
  {
    hide *;
    AlphabetRows(d);
    if d < 16 {
      Row0(d);
    } else if d < 32 {
      Row1(d - 16);
    } else if d < 48 {
      Row2(d - 32);
    } else {
      Row3(d - 48);
    }
  }

  /** A byte is a symbol exactly when it is in the table, and its digit is its place there. */
  lemma PositionTable(c: byte, d: Digit)
    ensures |ALPHABET| == 64
    ensures IsSymbol(c) && Position(c) == d <==> ALPHABET[d] as int == c
  {
    hide *;
    SymbolTable(d);
    SymbolPosition(d);
    if IsSymbol(c) {
      var _ := Position(c);
    }
  }

  function Shift(n: nat, k: nat): nat {
    if k == 0 then n else Shift(n / 2, k - 1)
  }

  /** Bit `k` of a byte string, the most significant bit of the first byte being bit 0. */
  function Bit(s: Bytes, k: nat): nat
    requires k < 8 * |s|
  {
    Shift(s[k / 8], 7 - k % 8) % 2
  }

  /** Bit `k` of a list of six-bit digits. */
  function DigitBit(ds: seq<Digit>, k: nat): nat
    requires k < 6 * |ds|
  {
    Shift(ds[k / 6], 5 - k % 6) % 2
  }

  /** Halving a number put together from a high part and a low part of `k` bits. */
  lemma {:induction false} ShiftHigh(x: nat, y: nat, k: nat, j: nat)
    requires y < Power(k)
    ensures Shift(x * Power(k) + y, k + j) == Shift(x, j)
    decreases k
  {
    if k > 0 {
      var n := x * Power(k) + y;
      var z := x * Power(k - 1);
      assert x * Power(k) == 2 * z;
      assert n / 2 == z + y / 2;
      ShiftHigh(x, y / 2, k - 1, j);
    }
  }

  lemma {:induction false} ShiftLow(x: nat, y: nat, k: nat, j: nat)
    requires y < Power(k) && j < k
    ensures Shift(x * Power(k) + y, j) % 2 == Shift(y, j) % 2
    decreases k
  {
    var n := x * Power(k) + y;
    var z := x * Power(k - 1);
    assert x * Power(k) == 2 * z;
    if j > 0 {
      assert n / 2 == z + y / 2;
      ShiftLow(x, y / 2, k - 1, j - 1);
    }
  }

  function Power(k: nat): (r: nat)
    ensures r > 0
  {
    if k == 0 then 1 else 2 * Power(k - 1)
  }

  lemma Powers()
    ensures Power(2) == 4 && Power(4) == 16 && Power(6) == 64
  {
    assert Power(4) == 2 * Power(3) == 4 * Power(2);
    assert Power(6) == 2 * Power(5) == 4 * Power(4);
  }

  lemma FirstByteBits(p: Digit, q: Digit, j: nat)
    requires j < 8
    ensures Shift(p * 4 + q / 16, 7 - j) % 2 == if j < 6 then Shift(p, 5 - j) % 2 else Shift(q, 11 - j) % 2
  {
    hide Shift;
    hide Power;
    Powers();
    if j < 6 {
      ShiftHigh(p, q / 16, 2, 5 - j);
    } else {
      ShiftLow(p, q / 16, 2, 7 - j);
      ShiftHigh(q / 16, q % 16, 4, 7 - j);
    }
  }

  lemma SecondByteBits(q: Digit, r: Digit, j: nat)
    requires j < 8
    ensures Shift(q % 16 * 16 + r / 4, 7 - j) % 2 == if j < 4 then Shift(q, 3 - j) % 2 else Shift(r, 9 - j) % 2
  {
    hide Shift;
    hide Power;
    Powers();
    if j < 4 {
      ShiftHigh(q % 16, r / 4, 4, 3 - j);
      ShiftLow(q / 16, q % 16, 4, 3 - j);
    } else {
      ShiftLow(q % 16, r / 4, 4, 7 - j);
      ShiftHigh(r / 4, r % 4, 2, 7 - j);
    }
  }

  lemma ThirdByteBits(r: Digit, s: Digit, j: nat)
    requires j < 8
    ensures Shift(r % 4 * 64 + s, 7 - j) % 2 == if j < 2 then Shift(r, 1 - j) % 2 else Shift(s, 7 - j) % 2
  {
    hide Shift;
    hide Power;
    Powers();
    if j < 2 {
      ShiftHigh(r % 4, s, 6, 1 - j);
      ShiftLow(r / 4, r % 4, 2, 1 - j);
    } else {
      ShiftLow(r % 4, s, 6, 7 - j);
    }
  }

  /** A group of four digits and its three bytes have the same 24 bits. */
  lemma GroupBits(p: Digit, q: Digit, r: Digit, s: Digit, k: nat)
    requires k < 24
    ensures Bit(Octets(Number(p, q, r, s)), k) == DigitBit([p, q, r, s], k)
  {
    hide Shift;
    hide Octets;
    hide Number;
    UnpackIsOctets(p, q, r, s);
    UnpackDigits(p, q, r, s);
    if k < 8 {
      FirstByteBits(p, q, k);
    } else if k < 16 {
      SecondByteBits(q, r, k - 8);
    } else {
      ThirdByteBits(r, s, k - 16);
    }
  }

  lemma {:induction false} DecodedSize(ds: seq<Digit>)
    ensures |DecodeDigits(ds)| == 6 * |ds| / 8
    decreases |ds|
  {
    hide Octets;
    hide Number;
    if |ds| >= 4 {
      DecodedSize(ds[4..]);
    }
  }

  lemma BitAfter(a: Bytes, b: Bytes, k: nat)
    requires k < 8 * |a + b|
    ensures Bit(a + b, k) == if k < 8 * |a| then Bit(a, k) else Bit(b, k - 8 * |a|)
  {
    hide Shift;
  }

  lemma DigitBitAfter(a: seq<Digit>, b: seq<Digit>, k: nat)
    requires k < 6 * |a + b|
    ensures DigitBit(a + b, k) == if k < 6 * |a| then DigitBit(a, k) else DigitBit(b, k - 6 * |a|)
  {
    hide Shift;
  }

  /** The bytes of digits are their bits, eight at a time; what is left over is dropped. */
  lemma {:induction false} DecodeDigitsBits(ds: seq<Digit>, k: nat)
    requires k < 8 * |DecodeDigits(ds)|
    ensures k < 6 * |ds| && Bit(DecodeDigits(ds), k) == DigitBit(ds, k)
    decreases |ds|
  {
    hide Octets;
    hide Number;
    hide Bit;
    hide DigitBit;
    DecodedSize(ds);
    if |ds| >= 4 {
      var group, rest := ds[..4], ds[4..];
      assert ds == group + rest && group == [ds[0], ds[1], ds[2], ds[3]];
      BitAfter(Octets(Number(ds[0], ds[1], ds[2], ds[3])), DecodeDigits(rest), k);
      DigitBitAfter(group, rest, k);
      if k < 24 {
        GroupBits(ds[0], ds[1], ds[2], ds[3], k);
      } else {
        DecodeDigitsBits(rest, k - 24);
      }
    } else {
      ShortBits(ds, k);
    }
  }

  lemma ShortBits(ds: seq<Digit>, k: nat)
    requires 2 <= |ds| < 4 && k < 8 * |DecodeDigits(ds)|
    ensures k < 6 * |ds| && Bit(DecodeDigits(ds), k) == DigitBit(ds, k)
  {
    hide Octets;
    hide Number;
    hide Bit;
    hide DigitBit;
    DecodedSize(ds);
    var zeros: seq<Digit> := if |ds| == 3 then [0] else [0, 0];
    var all := ds + zeros;
    var group := Octets(Number(all[0], all[1], all[2], all[3]));
    assert all == [all[0], all[1], all[2], all[3]];
    GroupBits(all[0], all[1], all[2], all[3], k);
    DigitBitAfter(ds, zeros, k);
    var n := |ds| - 1;
    assert DecodeDigits(ds) == group[..n] && group == group[..n] + group[n..];
    BitAfter(group[..n], group[n..], k);
  }

  /**
    Decoding any text: the leading symbols alone count, and the bytes are the
    bits of their digits, as many whole bytes as there are.
   */
  lemma DecodeBits(s: Bytes, k: nat)
    ensures |Decode(s)| == 6 * |Leading(s)| / 8
    ensures k < 8 * |Decode(s)| ==> Bit(Decode(s), k) == DigitBit(Leading(s), k)
  {
    hide DecodeDigits;
    hide Leading;
    hide Bit;
    hide DigitBit;
    DecodedSize(Leading(s));
    if k < 8 * |Decode(s)| {
      DecodeDigitsBits(Leading(s), k);
    }
  }

  /** The leading symbols: up to the first byte that is not in the table, each by its place there. */
  lemma LeadingTable(s: Bytes, i: nat)
    ensures var n := |Leading(s)|;
            && n <= |s| && (n < |s| ==> forall d: Digit :: Symbol(d) != s[n])
            && (i < n ==> s[i] == Symbol(Leading(s)[i]))
  {
    hide Symbol;
    hide Leading;
    LeadingIs(s);
    var n := |Leading(s)|;
    if i < n {
      assert s[..n][i] == s[i];
    }
    if n < |s| {
      forall d: Digit ensures Symbol(d) != s[n] {
        SymbolPosition(d);
      }
    }
  }
}
