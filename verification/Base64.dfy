/**
  Base64 (base64.cpp): three bytes become four symbols. The reference reads a
  group as one 24-bit number written in base 64 (section 4 of RFC 4648); the
  loops pack bits through scratch buffers.
 */
module Base64 {
  import opened JsonValue

  type Digit = d: int | 0 <= d < 64

  const PAD: byte := 61

  /** The alphabet: A-Z, a-z, 0-9, '+', '/'. */
  function Symbol(d: Digit): byte {
    if d < 26 then 65 + d
    else if d < 52 then 71 + d
    else if d < 62 then d - 4
    else if d == 62 then 43
    else 47
  }

  predicate IsSymbol(c: byte) {
    65 <= c <= 90 || 97 <= c <= 122 || 48 <= c <= 57 || c == 43 || c == 47
  }

  /** Position of a symbol in the alphabet. */
  function Position(c: byte): (d: Digit)
    requires IsSymbol(c)
    ensures Symbol(d) == c
  {
    if 65 <= c <= 90 then c - 65
    else if 97 <= c <= 122 then c - 71
    else if 48 <= c <= 57 then c + 4
    else if c == 43 then 62
    else 63
  }

  lemma SymbolPosition(d: Digit)
    ensures IsSymbol(Symbol(d)) && Position(Symbol(d)) == d && Symbol(d) != PAD && !IsSymbol(PAD)
  {
  }

  // ---------- the reference ----------

  function Group(a: byte, b: byte, c: byte): nat {
    (a * 256 + b) * 256 + c
  }

  function Number(p: Digit, q: Digit, r: Digit, s: Digit): nat {
    ((p * 64 + q) * 64 + r) * 64 + s
  }

  /** The four base-64 digits of a 24-bit number. */
  function Digits(n: nat): (r: seq<Digit>)
    ensures |r| == 4
  {
    [n / 64 / 64 / 64 % 64, n / 64 / 64 % 64, n / 64 % 64, n % 64]
  }

  /** The three bytes of a 24-bit number. */
  function Octets(n: nat): (r: Bytes)
    ensures |r| == 3
  {
    [n / 256 / 256 % 256, n / 256 % 256, n % 256]
  }

  function Symbols(ds: seq<Digit>): (r: Bytes)
    ensures |r| == |ds|
  {
    seq(|ds|, i requires 0 <= i < |ds| => Symbol(ds[i]))
  }

  function Encode(b: Bytes): Bytes {
    if |b| == 0 then []
    else if |b| == 1 then Symbols(Digits(Group(b[0], 0, 0))[..2]) + [PAD, PAD]
    else if |b| == 2 then Symbols(Digits(Group(b[0], b[1], 0))[..3]) + [PAD]
    else Symbols(Digits(Group(b[0], b[1], b[2]))) + Encode(b[3..])
  }

  /** The digits up to the first byte that is no symbol. */
  function Leading(s: Bytes): seq<Digit> {
    if s == [] || !IsSymbol(s[0]) then [] else [Position(s[0])] + Leading(s[1..])
  }

  function DecodeDigits(ds: seq<Digit>): Bytes {
    if |ds| <= 1 then []
    else if |ds| == 2 then Octets(Number(ds[0], ds[1], 0, 0))[..1]
    else if |ds| == 3 then Octets(Number(ds[0], ds[1], ds[2], 0))[..2]
    else Octets(Number(ds[0], ds[1], ds[2], ds[3])) + DecodeDigits(ds[4..])
  }

  function Decode(s: Bytes): Bytes {
    DecodeDigits(Leading(s))
  }

  // ---------- laws ----------

  lemma {:induction false} EncodeLength(b: Bytes)
    ensures |Encode(b)| == 4 * ((|b| + 2) / 3)
  {
    hide Symbol;
    hide Digits;
    if |b| >= 3 {
      EncodeLength(b[3..]);
    }
  }

  lemma {:induction false} LeadingSymbols(ds: seq<Digit>, rest: Bytes)
    ensures Leading(Symbols(ds) + rest) == ds + Leading(rest)
  {
    hide Symbol;
    hide Position;
    var s := Symbols(ds) + rest;
    if ds == [] {
      assert s == rest;
      assert ds + Leading(rest) == Leading(rest);
    } else {
      SymbolPosition(ds[0]);
      assert s[1..] == Symbols(ds[1..]) + rest;
      LeadingSymbols(ds[1..], rest);
      assert ds == [ds[0]] + ds[1..];
    }
  }

  lemma LeadingNothing()
    ensures Leading([]) == []
  {
  }

  lemma LeadingPad(rest: Bytes)
    ensures Leading([PAD] + rest) == [] && ([PAD, PAD] == [PAD] + [PAD]) && ([PAD] + [] == [PAD])
  {
  }

  lemma Split(x: nat, base: nat, d: nat)
    requires d < base && (base == 64 || base == 256)
    ensures (x * base + d) / base == x && (x * base + d) % base == d
  {
  }

  lemma OctetsGroup(a: byte, b: byte, c: byte)
    ensures Octets(Group(a, b, c)) == [a, b, c]
  {
    Split(a * 256 + b, 256, c);
    Split(a, 256, b);
  }

  lemma DigitsNumber(p: Digit, q: Digit, r: Digit, s: Digit)
    ensures Digits(Number(p, q, r, s)) == [p, q, r, s]
  {
    Split((p * 64 + q) * 64 + r, 64, s);
    Split(p * 64 + q, 64, r);
    Split(p, 64, q);
  }

  /** The four digits as the encoder packs them from the bits of three bytes. */
  function Pack(a: byte, b: byte, c: byte): (ds: seq<Digit>)
    ensures |ds| == 4
  {
    [a / 4, a % 4 * 16 + b / 16, b % 16 * 4 + c / 64, c % 64]
  }

  /** The three bytes as the decoder packs them from four digits, each cut to eight bits. */
  function Unpack(p: byte, q: byte, r: byte, s: byte): (os: Bytes)
    ensures |os| == 3
  {
    [(p * 4 + q / 16 % 4) % 256, (q % 16 * 16 + r / 4 % 16) % 256, (r % 4 * 64 + s) % 256]
  }

  lemma PackIsDigits(a: byte, b: byte, c: byte)
    ensures Pack(a, b, c) == Digits(Group(a, b, c))
  {
    hide Digits;
    var ds := Pack(a, b, c);
    DigitsNumber(ds[0], ds[1], ds[2], ds[3]);
    assert Number(ds[0], ds[1], ds[2], ds[3]) == Group(a, b, c);
  }

  lemma UnpackDigits(p: Digit, q: Digit, r: Digit, s: Digit)
    ensures Unpack(p, q, r, s) == [p * 4 + q / 16, q % 16 * 16 + r / 4, r % 4 * 64 + s]
  {
    NoCarry(q / 16, p * 4);
    MiddleCarry(q, r);
    assert r % 4 * 64 + s < 256;
  }

  lemma NoCarry(low: nat, high: nat)
    requires low < 4 && high <= 252
    ensures (high + low % 4) % 256 == high + low
  {
  }

  lemma MiddleCarry(q: Digit, r: Digit)
    ensures (q % 16 * 16 + r / 4 % 16) % 256 == q % 16 * 16 + r / 4
  {
    assert q % 16 * 16 <= 240 && r / 4 < 16;
  }

  lemma UnpackGroup(p: Digit, q: Digit, r: Digit, s: Digit)
    ensures Group(p * 4 + q / 16, q % 16 * 16 + r / 4, r % 4 * 64 + s) == Number(p, q, r, s)
  {
  }

  lemma UnpackIsOctets(p: Digit, q: Digit, r: Digit, s: Digit)
    ensures Unpack(p, q, r, s) == Octets(Number(p, q, r, s))
  {
    hide *;
    UnpackDigits(p, q, r, s);
    UnpackGroup(p, q, r, s);
    OctetsGroup(p * 4 + q / 16, q % 16 * 16 + r / 4, r % 4 * 64 + s);
  }

  /** Four digits and three bytes are the same 24 bits. */
  lemma SameBits(a: byte, b: byte, c: byte)
    ensures var ds := Pack(a, b, c); Octets(Number(ds[0], ds[1], ds[2], ds[3])) == [a, b, c]
  {
    hide Octets;
    OctetsGroup(a, b, c);
    var ds := Pack(a, b, c);
    assert Number(ds[0], ds[1], ds[2], ds[3]) == Group(a, b, c);
  }

  lemma SameBitsBack(p: Digit, q: Digit, r: Digit, s: Digit)
    ensures var os := Octets(Number(p, q, r, s)); Digits(Group(os[0], os[1], os[2])) == [p, q, r, s]
  {
    hide *;
    UnpackIsOctets(p, q, r, s);
    UnpackDigits(p, q, r, s);
    UnpackGroup(p, q, r, s);
    DigitsNumber(p, q, r, s);
  }

  /** Decoding undoes encoding. */
  lemma {:induction false} DecodeEncode(b: Bytes)
    ensures Decode(Encode(b)) == b
  {
    hide Symbol;
    hide Symbols;
    hide Digits;
    hide Octets;
    hide Group;
    hide Number;
    hide Leading;
    if |b| == 0 {
      LeadingNothing();
    } else if |b| == 1 {
      var ds := Pack(b[0], 0, 0);
      PackIsDigits(b[0], 0, 0);
      LeadingSymbols(ds[..2], [PAD, PAD]);
      LeadingPad([PAD]);
      SameBits(b[0], 0, 0);
    } else if |b| == 2 {
      var ds := Pack(b[0], b[1], 0);
      PackIsDigits(b[0], b[1], 0);
      LeadingSymbols(ds[..3], [PAD]);
      LeadingPad([]);
      SameBits(b[0], b[1], 0);
    } else {
      var ds := Pack(b[0], b[1], b[2]);
      PackIsDigits(b[0], b[1], b[2]);
      LeadingSymbols(ds, Encode(b[3..]));
      SameBits(b[0], b[1], b[2]);
      DecodeEncode(b[3..]);
      assert (ds + Leading(Encode(b[3..])))[4..] == Leading(Encode(b[3..]));
    }
  }

  lemma {:induction false} LeadingIs(s: Bytes)
    ensures |Leading(s)| <= |s| && s[..|Leading(s)|] == Symbols(Leading(s))
    ensures |Leading(s)| < |s| ==> !IsSymbol(s[|Leading(s)|])
  {
    hide Symbol;
    hide Position;
    hide IsSymbol;
    if s != [] && IsSymbol(s[0]) {
      LeadingIs(s[1..]);
      var ds := Leading(s);
      assert ds[1..] == Leading(s[1..]);
      assert s[..|ds|] == [s[0]] + s[1..][..|ds| - 1];
      assert Symbols(ds) == [Symbol(ds[0])] + Symbols(ds[1..]);
    }
  }

  /**
    Properly padded text: whole groups of four, at most two pads and those at
    the end, and no bits set that the pads cut off.
   */
  predicate Canonical(s: Bytes) {
    var ds := Leading(s);
    && |s| % 4 == 0
    && |ds| <= |s| <= |ds| + 2
    && (forall i :: |ds| <= i < |s| ==> s[i] == PAD)
    && (|s| == |ds| + 2 ==> ds[|ds| - 1] % 16 == 0)
    && (|s| == |ds| + 1 ==> ds[|ds| - 1] % 4 == 0)
  }

  /** A full group in front does not matter. */
  lemma CanonicalGroup(ds: seq<Digit>, rest: Bytes)
    requires |ds| == 4
    ensures Canonical(Symbols(ds) + rest) <==> Canonical(rest)
  {
    hide Symbol;
    hide Symbols;
    hide Leading;
    LeadingSymbols(ds, rest);
    var s, tail := Symbols(ds) + rest, Leading(rest);
    LeadingIs(rest);
    var all := ds + tail;
    assert tail != [] ==> all[|all| - 1] == tail[|tail| - 1];
    assert |rest| % 4 == |s| % 4;
    if Canonical(rest) {
      assert forall i :: |all| <= i < |s| ==> s[i] == rest[i - 4];
    }
    if Canonical(s) {
      assert forall i :: |tail| <= i < |rest| ==> rest[i] == s[i + 4];
    }
  }

  lemma CanonicalEnd(ds: seq<Digit>, pads: Bytes)
    requires |ds| + |pads| == 4
    requires pads == [PAD, PAD] || pads == [PAD]
    ensures Canonical(Symbols(ds) + pads) <==> ds[|ds| - 1] % (if |pads| == 2 then 16 else 4) == 0
  {
    hide Symbol;
    hide Symbols;
    hide Leading;
    LeadingSymbols(ds, pads);
    LeadingPad(pads[1..]);
    assert pads == [PAD] + pads[1..];
    assert ds + [] == ds;
  }

  /** Whatever is encoded is properly padded. */
  lemma {:induction false} EncodeCanonical(b: Bytes)
    ensures Canonical(Encode(b))
  {
    hide Symbol;
    hide Symbols;
    hide Digits;
    hide Canonical;
    hide Group;
    if |b| == 0 {
      CanonicalNothing();
    } else if |b| == 1 {
      PackIsDigits(b[0], 0, 0);
      CanonicalEnd(Pack(b[0], 0, 0)[..2], [PAD, PAD]);
      TailBits(b[0]);
    } else if |b| == 2 {
      PackIsDigits(b[0], b[1], 0);
      CanonicalEnd(Pack(b[0], b[1], 0)[..3], [PAD]);
      TailBits(b[1]);
    } else {
      EncodeCanonical(b[3..]);
      CanonicalGroup(Digits(Group(b[0], b[1], b[2])), Encode(b[3..]));
    }
  }

  lemma CanonicalNothing()
    ensures Canonical([])
  {
  }

  lemma TailBits(a: byte)
    ensures (a % 4 * 16 + 0 / 16) % 16 == 0 && (a % 16 * 4 + 0 / 64) % 4 == 0
  {
  }

  lemma SpareBits(p: Digit, q: Digit, r: Digit)
    ensures q % 16 == 0 ==> Octets(Number(p, q, 0, 0))[1] == 0 && Octets(Number(p, q, 0, 0))[2] == 0
    ensures r % 4 == 0 ==> Octets(Number(p, q, r, 0))[2] == 0
  {
    hide *;
    UnpackIsOctets(p, q, 0, 0);
    UnpackIsOctets(p, q, r, 0);
    UnpackDigits(p, q, 0, 0);
    UnpackDigits(p, q, r, 0);
  }

  lemma {:induction false} EncodeCanonicalText(s: Bytes)
    requires Canonical(s)
    ensures Encode(Decode(s)) == s
  {
    hide Symbol;
    hide Symbols;
    hide Digits;
    hide Octets;
    hide Group;
    hide Number;
    hide Leading;
    var ds := Leading(s);
    LeadingIs(s);
    if |ds| >= 4 {
      FirstGroup(s);
      CanonicalGroup(ds[..4], s[4..]);
      EncodeCanonicalText(s[4..]);
      SameBitsBack(ds[0], ds[1], ds[2], ds[3]);
      assert Decode(s)[3..] == Decode(s[4..]);
      assert ds[..4] == [ds[0], ds[1], ds[2], ds[3]];
    } else if |s| > 0 {
      assert |s| == 4;
      assert s == s[..|ds|] + s[|ds|..];
      if |ds| == 2 {
        assert s[2..] == [PAD, PAD];
        SpareBits(ds[0], ds[1], 0);
        SameBitsBack(ds[0], ds[1], 0, 0);
        assert ds == [ds[0], ds[1], 0, 0][..2];
      } else {
        assert s[3..] == [PAD];
        SpareBits(ds[0], ds[1], ds[2]);
        SameBitsBack(ds[0], ds[1], ds[2], 0);
        assert ds == [ds[0], ds[1], ds[2], 0][..3];
      }
    }
  }

  lemma FirstGroup(s: Bytes)
    requires |Leading(s)| >= 4
    ensures |s| >= 4 && s == Symbols(Leading(s)[..4]) + s[4..]
    ensures Leading(s) == Leading(s)[..4] + Leading(s[4..]) && Leading(s[4..]) == Leading(s)[4..]
  {
    hide Leading;
    hide Symbol;
    var ds := Leading(s);
    LeadingIs(s);
    assert s[..4] == s[..|ds|][..4] == Symbols(ds)[..4] == Symbols(ds[..4]);
    LeadingSymbols(ds[..4], s[4..]);
  }

  /** Encoding undoes decoding exactly on properly padded text. */
  lemma EncodeDecode(s: Bytes)
    ensures Encode(Decode(s)) == s <==> Canonical(s)
  {
    hide *;
    EncodeCanonical(Decode(s));
    if Canonical(s) {
      EncodeCanonicalText(s);
    }
  }

  // ---------- the loops ----------

  lemma {:induction false} EncodeAppend(b: Bytes, more: Bytes)
    requires |b| % 3 == 0
    ensures Encode(b + more) == Encode(b) + Encode(more)
    decreases |b|
  {
    hide Symbols;
    hide Digits;
    hide Group;
    if b == [] {
      assert b + more == more;
      assert Encode(b) == [];
    } else {
      assert (b + more)[3..] == b[3..] + more;
      EncodeAppend(b[3..], more);
    }
  }

  lemma EncodeThree(a: byte, b: byte, c: byte)
    ensures Encode([a, b, c]) == Symbols(Pack(a, b, c))
    ensures Encode([a, b]) == Symbols(Pack(a, b, 0)[..3]) + [PAD]
    ensures Encode([a]) == Symbols(Pack(a, 0, 0)[..2]) + [PAD, PAD]
  {
    hide Symbols;
    hide Digits;
    hide Group;
    hide Pack;
    PackIsDigits(a, b, c);
    PackIsDigits(a, b, 0);
    PackIsDigits(a, 0, 0);
    assert [a, b, c][3..] == [];
    assert Encode([]) == [];
  }

  /** Appends the symbols of the first `n` digits. */
  method Emit(text: Bytes, digits: array<byte>, n: nat) returns (ret: Bytes)
    requires n <= digits.Length && forall k :: 0 <= k < n ==> digits[k] < 64
    ensures ret == text + Symbols(digits[..n])
  {
    hide Symbol;
    ret := text;
    var j := 0;
    while j < n
      invariant 0 <= j <= n
      invariant ret == text + Symbols(digits[..j])
    {
      assert Symbols(digits[..j + 1]) == Symbols(digits[..j]) + [Symbol(digits[j])];
      ret := ret + [Symbol(digits[j])];
      j := j + 1;
    }
  }

  method PackInto(bytes: array<byte>, digits: array<byte>)
    requires bytes.Length == 3 && digits.Length == 4
    modifies digits
    ensures digits[..] == Pack(bytes[0], bytes[1], bytes[2])
  {
    digits[0] := bytes[0] / 4;
    digits[1] := bytes[0] % 4 * 16 + bytes[1] / 16;
    digits[2] := bytes[1] % 16 * 4 + bytes[2] / 64;
    digits[3] := bytes[2] % 64;
  }

  /** A whole group: four symbols. */
  method EncodeGroup(text: Bytes, three: array<byte>, four: array<byte>) returns (ret: Bytes)
    requires three.Length == 3 && four.Length == 4
    modifies four
    ensures ret == text + Encode(old(three[..3])) && three[..] == old(three[..])
  {
    hide Encode;
    hide Pack;
    hide Symbols;
    ghost var group := [three[0], three[1], three[2]];
    assert three[..3] == group;
    PackInto(three, four);
    assert four[..4] == four[..];
    ret := Emit(text, four, 4);
    EncodeThree(group[0], group[1], group[2]);
  }

  method EncodeLoop(bytes: Bytes) returns (ret: Bytes)
    ensures ret == Encode(bytes)
  {
    hide Encode;
    hide Symbols;
    var three, four := new byte[3], new byte[4];
    var i, p := 0, 0;
    ret := [];
    ghost var done := 0;
    EncodeNothing();
    assert bytes[..0] == [] && three[..0] == bytes[0..0];
    while p < |bytes|
      invariant 0 <= i < 3 && p == 3 * done + i && p <= |bytes|
      invariant three[..i] == bytes[3 * done..p]
      invariant ret == Encode(bytes[..3 * done])
    {
      ghost var was := three[..i];
      three[i] := bytes[p];
      assert three[..i + 1] == was + [bytes[p]];
      SliceGrows(bytes, 3 * done, p);
      i, p := i + 1, p + 1;
      if i == 3 {
        ret := EncodeGroup(ret, three, four);
        NextGroup(bytes, done, p);
        done := done + 1;
        i := 0;
        assert three[..0] == bytes[p..p];
      }
    }
    NextGroup(bytes, done, p);
    assert bytes[..p] == bytes;
    if i > 0 {
      ret := EncodeRest(ret, three, i, four);
    } else {
      NoRest(bytes, p);
    }
  }

  lemma NextGroup(bytes: Bytes, done: nat, p: nat)
    requires 3 * done <= p <= |bytes|
    ensures Encode(bytes[..p]) == Encode(bytes[..3 * done]) + Encode(bytes[3 * done..p])
  {
    hide Encode;
    Parts(bytes, 3 * done, p);
    EncodeAppend(bytes[..3 * done], bytes[3 * done..p]);
  }

  lemma NoRest(bytes: Bytes, p: nat)
    requires p <= |bytes|
    ensures Encode(bytes[p..p]) == []
  {
    assert bytes[p..p] == [];
  }

  lemma SliceGrows(s: Bytes, a: nat, p: nat)
    requires a <= p < |s|
    ensures s[a..p + 1] == s[a..p] + [s[p]]
  {
  }

  lemma Parts(s: Bytes, a: nat, p: nat)
    requires a <= p <= |s|
    ensures s[..p] == s[..a] + s[a..p]
  {
  }

  lemma EncodeNothing()
    ensures Encode([]) == []
  {
  }

  /** The last, partial group: zero fill, one symbol more than bytes, then pads. */
  method EncodeRest(text: Bytes, three: array<byte>, n: nat, four: array<byte>) returns (ret: Bytes)
    requires 0 < n < 3 && three.Length == 3 && four.Length == 4
    modifies three, four
    ensures ret == text + Encode(old(three[..n]))
  {
    hide Encode;
    hide Pack;
    hide Symbols;
    var j := n;
    while j < 3
      invariant n <= j <= 3
      invariant three[..n] == old(three[..n])
      invariant forall k :: n <= k < j ==> three[k] == 0
    {
      three[j] := 0;
      j := j + 1;
    }
    assert three[..n] == if n == 1 then [three[0]] else [three[0], three[1]];
    EncodeThree(three[0], three[1], 0);
    PackInto(three, four);
    ghost var ds := four[..];
    assert four[..n + 1] == ds[..n + 1];
    ret := Emit(text, four, n + 1);
    ghost var emitted := ret;
    ghost var pads: Bytes := [];
    var i := n;
    while i < 3
      invariant n <= i <= 3 && |pads| == i - n
      invariant forall k :: 0 <= k < |pads| ==> pads[k] == PAD
      invariant ret == emitted + pads
    {
      ret, pads := ret + [PAD], pads + [PAD];
      i := i + 1;
    }
    assert pads == if n == 1 then [PAD, PAD] else [PAD];
  }

  lemma {:induction false} DecodeDigitsAppend(ds: seq<Digit>, more: seq<Digit>)
    requires |ds| % 4 == 0
    ensures DecodeDigits(ds + more) == DecodeDigits(ds) + DecodeDigits(more)
    decreases |ds|
  {
    hide Octets;
    hide Number;
    if ds == [] {
      assert ds + more == more;
      assert DecodeDigits(ds) == [];
    } else {
      assert (ds + more)[4..] == ds[4..] + more;
      DecodeDigitsAppend(ds[4..], more);
    }
  }

  /** The bytes that are kept depend only on the digits that are there. */
  lemma DecodePart(p: Digit, q: byte, r: byte, s: byte)
    ensures DecodeDigits([p]) == []
    ensures q < 64 ==> DecodeDigits([p, q]) == Unpack(p, q, r, s)[..1]
    ensures q < 64 && r < 64 ==> DecodeDigits([p, q, r]) == Unpack(p, q, r, s)[..2]
    ensures q < 64 && r < 64 && s < 64 ==> DecodeDigits([p, q, r, s]) == Unpack(p, q, r, s)
  {
    hide Unpack;
    hide Octets;
    hide Number;
    CutBits(p, q, r, s);
    if q < 64 {
      UnpackIsOctets(p, q, 0, 0);
      if r < 64 {
        UnpackIsOctets(p, q, r, 0);
        if s < 64 {
          UnpackIsOctets(p, q, r, s);
          assert [p, q, r, s][4..] == [];
        }
      }
    }
  }

  lemma CutBits(p: byte, q: byte, r: byte, s: byte)
    ensures Unpack(p, q, r, s)[..2] == Unpack(p, q, r, 0)[..2]
    ensures Unpack(p, q, r, s)[..1] == Unpack(p, q, 0, 0)[..1]
  {
  }

  /** Replaces the first `n` symbols by their positions. */
  method FindAll(four: array<byte>, n: nat)
    requires n <= four.Length && forall k :: 0 <= k < n ==> IsSymbol(four[k])
    modifies four
    ensures forall k :: 0 <= k < n ==> four[k] == Position(old(four[k]))
    ensures forall k :: n <= k < four.Length ==> four[k] == old(four[k])
  {
    hide IsSymbol;
    hide Position;
    var i := 0;
    while i < n
      invariant 0 <= i <= n
      invariant forall k :: 0 <= k < i ==> four[k] == Position(old(four[k]))
      invariant forall k :: i <= k < four.Length ==> four[k] == old(four[k])
    {
      four[i] := Position(four[i]);
      i := i + 1;
    }
  }

  method UnpackInto(four: array<byte>, three: array<byte>)
    requires four.Length == 4 && three.Length == 3
    modifies three
    ensures three[..] == Unpack(four[0], four[1], four[2], four[3])
  {
    var p: int, q: int, r: int, s: int := four[0], four[1], four[2], four[3];
    three[0] := (p * 4 + q / 16 % 4) % 256;
    three[1] := (q % 16 * 16 + r / 4 % 16) % 256;
    three[2] := (r % 4 * 64 + s) % 256;
  }

  /** Appends the first `n` bytes. */
  method AppendBytes(text: Bytes, three: array<byte>, n: nat) returns (ret: Bytes)
    requires n <= three.Length
    ensures ret == text + three[..n]
  {
    ret := text;
    var j := 0;
    while j < n
      invariant 0 <= j <= n && ret == text + three[..j]
    {
      ret := ret + [three[j]];
      j := j + 1;
    }
  }

  predicate AllSymbols(s: Bytes) {
    forall k :: 0 <= k < |s| ==> IsSymbol(s[k])
  }

  lemma AllSymbolsConcat(s: Bytes, t: Bytes)
    ensures AllSymbols(s + t) <==> AllSymbols(s) && AllSymbols(t)
  {
    hide IsSymbol;
    if AllSymbols(s + t) {
      assert forall k :: 0 <= k < |s| ==> s[k] == (s + t)[k];
      assert forall k :: 0 <= k < |t| ==> t[k] == (s + t)[|s| + k];
    }
  }

  lemma AllSymbolsPush(s: Bytes, from: nat, p: nat)
    requires from <= p < |s| && AllSymbols(s[from..p]) && IsSymbol(s[p])
    ensures AllSymbols(s[from..p + 1]) && AllSymbols(s[p + 1..p + 1])
  {
    hide IsSymbol;
    assert s[from..p + 1] == s[from..p] + [s[p]];
    AllSymbolsConcat(s[from..p], [s[p]]);
  }

  /** The positions of a run of symbols. */
  function Positions(s: Bytes): (ds: seq<Digit>)
    requires AllSymbols(s)
    ensures |ds| == |s|
  {
    seq(|s|, k requires 0 <= k < |s| => Position(s[k]))
  }

  lemma {:induction false} LeadingRun(s: Bytes, p: nat)
    requires p <= |s| && AllSymbols(s[..p])
    requires p < |s| ==> !IsSymbol(s[p])
    ensures Leading(s) == Positions(s[..p])
  {
    hide IsSymbol;
    hide Position;
    if p > 0 {
      assert s[..p][0] == s[0];
      assert s[..p] == [s[0]] + s[1..][..p - 1];
      AllSymbolsConcat([s[0]], s[1..][..p - 1]);
      LeadingRun(s[1..], p - 1);
      assert Positions(s[..p]) == [Position(s[0])] + Positions(s[1..][..p - 1]);
    }
  }

  method DecodeLoop(s: Bytes) returns (ret: Bytes)
    ensures ret == Decode(s)
  {
    hide IsSymbol;
    hide AllSymbols;
    hide Positions;
    hide DecodeDigits;
    hide Leading;
    PadIsNoSymbol();
    var three, four := new byte[3], new byte[4];
    var i, p := 0, 0;
    ret := [];
    ghost var done := 0;
    DecodeNothing();
    assert s[..0] == [] && s[0..0] == [] && four[..0] == [];
    while p < |s| && s[p] != PAD && IsSymbol(s[p])
      invariant 0 <= i < 4 && p == 4 * done + i && p <= |s|
      invariant four[..i] == s[4 * done..p]
      invariant AllSymbols(s[..4 * done]) && AllSymbols(s[4 * done..p])
      invariant ret == DecodeDigits(Positions(s[..4 * done]))
      decreases |s| - p
    {
      ghost var was := four[..i];
      four[i] := s[p];
      assert four[..i + 1] == was + [s[p]];
      SliceGrows(s, 4 * done, p);
      AllSymbolsPush(s, 4 * done, p);
      i, p := i + 1, p + 1;
      if i == 4 {
        ret := DecodeGroup(ret, four, 4, three);
        NextSymbols(s, done, p);
        done := done + 1;
        i := 0;
        assert four[..0] == s[p..p];
      }
    }
    NextSymbols(s, done, p);
    LeadingRun(s, p);
    if i > 0 {
      ret := DecodeGroup(ret, four, i, three);
    } else {
      NoSymbols(s, p);
    }
  }

  lemma NextSymbols(s: Bytes, done: nat, p: nat)
    requires 4 * done <= p <= |s| && AllSymbols(s[..4 * done]) && AllSymbols(s[4 * done..p])
    ensures AllSymbols(s[..p])
    ensures DecodeDigits(Positions(s[..p])) ==
            DecodeDigits(Positions(s[..4 * done])) + DecodeDigits(Positions(s[4 * done..p]))
  {
    hide AllSymbols;
    hide Positions;
    hide DecodeDigits;
    Parts(s, 4 * done, p);
    DecodeMore(s[..4 * done], s[4 * done..p]);
  }

  lemma NoSymbols(s: Bytes, p: nat)
    requires p <= |s|
    ensures AllSymbols(s[p..p]) && DecodeDigits(Positions(s[p..p])) == []
  {
    assert s[p..p] == [];
  }

  /** One group of `n` symbols; whatever the rest of the scratch buffer holds does not matter. */
  method DecodeGroup(text: Bytes, four: array<byte>, n: nat, three: array<byte>) returns (ret: Bytes)
    requires 0 < n <= 4 && four.Length == 4 && three.Length == 3
    requires AllSymbols(four[..n])
    modifies four, three
    ensures ret == text + DecodeDigits(Positions(old(four[..n])))
  {
    hide IsSymbol;
    hide Position;
    hide DecodeDigits;
    hide Unpack;
    ghost var was := four[..n];
    assert forall k :: 0 <= k < n ==> four[k] == was[k];
    FindAll(four, n);
    UnpackInto(four, three);
    ghost var os := three[..];
    assert three[..n - 1] == os[..n - 1];
    ret := AppendBytes(text, three, n - 1);
    DecodePart(four[0], four[1], four[2], four[3]);
    assert Positions(was) ==
           if n == 1 then [four[0]] else if n == 2 then [four[0], four[1]]
           else if n == 3 then [four[0], four[1], four[2]] else [four[0], four[1], four[2], four[3]];
  }

  lemma DecodeMore(s: Bytes, t: Bytes)
    requires |s| % 4 == 0
    requires AllSymbols(s) && AllSymbols(t)
    ensures AllSymbols(s + t)
    ensures DecodeDigits(Positions(s + t)) == DecodeDigits(Positions(s)) + DecodeDigits(Positions(t))
  {
    hide IsSymbol;
    hide Position;
    hide DecodeDigits;
    AllSymbolsConcat(s, t);
    DecodeDigitsAppend(Positions(s), Positions(t));
    assert Positions(s + t) == Positions(s) + Positions(t);
  }

  lemma PadIsNoSymbol()
    ensures !IsSymbol(PAD)
  {
  }

  lemma DecodeNothing()
    ensures AllSymbols([]) && DecodeDigits([]) == [] && DecodeDigits(Positions([])) == []
  {
  }
}
