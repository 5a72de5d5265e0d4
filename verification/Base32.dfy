// Base-32 strings as sequences of bits, five to a character.
module Base32 {
  // ----- The bits of a choice function -----

  // n bits, from the given one on.
  function BitsFrom(bit: nat -> bool, start: nat, n: nat): (bits: seq<bool>)
    ensures |bits| == n
  {
    if n == 0 then [] else BitsFrom(bit, start, n - 1) + [bit(start + n - 1)]
  }

  lemma {:induction false} BitsSplit(bit: nat -> bool, start: nat, m: nat, n: nat)
    ensures BitsFrom(bit, start, m + n) == BitsFrom(bit, start, m) + BitsFrom(bit, start + m, n)
  {
    if n > 0 {
      BitsSplit(bit, start, m, n - 1);
      assert start + m + n - 1 == (start + m) + n - 1;
    }
  }

  // ----- Characters -----

  const BASE32 := "0123456789bcdefghjkmnpqrstuvwxyz"

  // What 1 << (4 - bit) is worth.
  function Weight(bit: nat): nat
    requires bit < 5
  {
    if bit == 0 then 16 else if bit == 1 then 8 else if bit == 2 then 4 else if bit == 3 then 2 else 1
  }

  // What is left to fill after so many bits.
  function Room(bits: nat): nat
    requires bits <= 5
  {
    if bits == 0 then 32 else Weight(bits - 1)
  }

  // The bitwise or.
  function Or(a: nat, b: nat): nat {
    if a == 0 then b
    else if b == 0 then a
    else 2 * Or(a / 2, b / 2) + if a % 2 == 1 || b % 2 == 1 then 1 else 0
  }

  // Bit by bit: odd if one of the two is, and halved by halving both.
  lemma {:induction false} OrBitByBit(a: nat, b: nat)
    ensures Or(a, b) % 2 == 1 <==> a % 2 == 1 || b % 2 == 1
    ensures Or(a, b) / 2 == Or(a / 2, b / 2)
  {
  }

  predicate InClass(c: char) {
    '0' <= c <= '9' || ('b' <= c <= 'z' && c != 'i' && c != 'l' && c != 'o')
  }

  // Where a character of that class stands.
  function PlaceOf(c: char): int
    requires InClass(c)
  {
    if c <= '9' then c as int - 48
    else if c <= 'h' then c as int - 88
    else if c <= 'k' then c as int - 89
    else if c <= 'n' then c as int - 90
    else c as int - 91
  }

  lemma {:induction false} PlacedAt(c: char)
    requires InClass(c)
    ensures 0 <= PlaceOf(c) < 32 && BASE32[PlaceOf(c)] == c
  {
  }

  lemma {:induction false} ClassAt(v: int)
    requires 0 <= v < 32
    ensures InClass(BASE32[v])
  {
  }

  // The alphabet: the digits and the small letters but for a, i, l and o, each once and in order.
  lemma {:induction false} AlphabetExactly(c: char)
    ensures |BASE32| == 32
    ensures InAlphabet(c) <==> '0' <= c <= '9' || ('b' <= c <= 'z' && c != 'i' && c != 'l' && c != 'o')
    ensures forall i :: 0 <= i < 31 ==> BASE32[i] < BASE32[i + 1]
  {
    forall i | 0 <= i < 31 ensures BASE32[i] < BASE32[i + 1] {
      Ascends(i);
    }
    if InAlphabet(c) {
      var v :| 0 <= v < 32 && BASE32[v] == c;
      ClassAt(v);
    }
    if InClass(c) {
      PlacedAt(c);
    }
  }

  // ch is made of some of the first weights; the others are clear.
  predicate Holds(ch: int, bits: nat)
    requires bits <= 5
    decreases bits
  {
    if bits == 0 then ch == 0 else Holds(ch, bits - 1) || Holds(ch - Weight(bits - 1), bits - 1)
  }

  lemma {:induction false} RoomHalves(bits: nat)
    requires 0 < bits <= 5
    ensures Room(bits - 1) == 2 * Room(bits) && Weight(bits - 1) == Room(bits)
  {
  }

  lemma {:induction false} HoldsBound(ch: int, bits: nat)
    requires bits <= 5 && Holds(ch, bits)
    ensures 0 <= ch && ch + Room(bits) <= 32
    decreases bits
  {
    if bits > 0 {
      RoomHalves(bits);
      if Holds(ch, bits - 1) {
        HoldsBound(ch, bits - 1);
      } else {
        HoldsBound(ch - Weight(bits - 1), bits - 1);
      }
    }
  }

  lemma {:induction false} HoldsMultiple(ch: int, bits: nat) returns (k: nat)
    requires bits <= 5 && Holds(ch, bits)
    ensures ch == Room(bits) * k
    decreases bits
  {
    if bits == 0 {
      k := 0;
    } else {
      RoomHalves(bits);
      if Holds(ch, bits - 1) {
        var half := HoldsMultiple(ch, bits - 1);
        k := 2 * half;
        Regroup(Room(bits), half);
      } else {
        var half := HoldsMultiple(ch - Weight(bits - 1), bits - 1);
        k := 2 * half + 1;
        Regroup(Room(bits), half);
      }
    }
  }

  lemma {:induction false} Regroup(room: int, half: int)
    ensures (2 * room) * half == room * (2 * half) && room * (2 * half + 1) == room * (2 * half) + room
  {
  }

  lemma {:induction false} OrDoubles(a: nat, b: nat)
    ensures Or(2 * a, 2 * b) == 2 * Or(a, b)
  {
  }

  // Setting a clear bit adds its weight.
  lemma {:induction false} OrAdds(ch: nat, bit: nat)
    requires bit < 5 && Holds(ch, bit)
    ensures Or(ch, Weight(bit)) == ch + Weight(bit)
  {
    var k := HoldsMultiple(ch, bit);
    OrOfMultiple(k, bit);
  }

  lemma {:induction false} OrOfMultiple(k: nat, bit: nat)
    requires bit < 5
    ensures Or(Room(bit) * k, Weight(bit)) == Room(bit) * k + Weight(bit)
    decreases 4 - bit
  {
    if bit < 4 {
      OrOfMultiple(k, bit + 1);
      RoomHalves(bit + 1);
      assert Room(bit) * k == 2 * (Room(bit + 1) * k) && Weight(bit) == 2 * Weight(bit + 1);
      OrDoubles(Room(bit + 1) * k, Weight(bit + 1));
    } else {
      OrOfEven(k);
    }
  }

  lemma {:induction false} OrOfEven(k: nat)
    ensures Or(2 * k, 1) == 2 * k + 1
  {
    if k > 0 {
      assert 2 * k / 2 == k && 1 / 2 == 0 && Or(k, 0) == k;
    }
  }

  type Digit = v: int | 0 <= v < 32

  // The index that five bits, or the first of them, spell.
  function Code(bits: seq<bool>): (ch: Digit)
    requires |bits| <= 5
    ensures Holds(ch, |bits|)
  {
    if bits == [] then 0
    else
      var n := |bits| - 1;
      var before := Code(bits[..n]);
      HoldsBound(before, n);
      if bits[n] then before + Weight(n) else before
  }

  function FiveBits(code: Digit): seq<bool> {
    [code >= 16, code % 16 >= 8, code % 8 >= 4, code % 4 >= 2, code % 2 == 1]
  }

  // n characters: five bits each.
  function Encode(bit: nat -> bool, n: nat): (s: string)
    ensures |s| == n
  {
    if n == 0 then "" else Encode(bit, n - 1) + [BASE32[Code(BitsFrom(bit, 5 * (n - 1), 5))]]
  }

  // A shorter encoding is a prefix of a longer one.
  lemma {:induction false} ShorterIsPrefix(bit: nat -> bool, m: nat, n: nat)
    requires m <= n
    ensures Encode(bit, n)[..m] == Encode(bit, m)
  {
    if m < n {
      ShorterIsPrefix(bit, m, n - 1);
    }
  }

  // ----- Building the string bit by bit -----

  // s holds all full characters of the first k bits and ch the others.
  ghost predicate Building(bit: nat -> bool, k: nat, s: string, pending: nat, ch: int) {
    && pending < 5 && k == 5 * |s| + pending && s == Encode(bit, |s|)
    && 0 <= ch < 32 && ch == Code(BitsFrom(bit, 5 * |s|, pending))
  }

  lemma {:induction false} BuildingStarts(bit: nat -> bool)
    ensures Building(bit, 0, "", 0, 0)
  {
  }

  function TakeBit(ch: nat, pending: nat, high: bool): nat
    requires pending < 5
  {
    if high then Or(ch, Weight(pending)) else ch
  }

  // One more bit is or-ed into the code; the fifth completes a character.
  lemma {:induction false} BuildingGoesOn(bit: nat -> bool, k: nat, s: string, pending: nat, ch: nat)
    requires Building(bit, k, s, pending, ch)
    ensures TakeBit(ch, pending, bit(k)) < 32
    ensures pending < 4 ==> Building(bit, k + 1, s, pending + 1, TakeBit(ch, pending, bit(k)))
    ensures pending == 4 ==> Building(bit, k + 1, s + [BASE32[TakeBit(ch, pending, bit(k))]], 0, 0)
  {
    NextCode(bit, 5 * |s|, pending);
    if pending == 4 {
      EncodeGoesOn(bit, s, TakeBit(ch, pending, bit(k)));
    }
  }

  lemma {:induction false} EncodeGoesOn(bit: nat -> bool, s: string, code: Digit)
    requires s == Encode(bit, |s|) && code == Code(BitsFrom(bit, 5 * |s|, 5))
    ensures Building(bit, 5 * |s| + 5, s + [BASE32[code]], 0, 0)
  {
    assert |s + [BASE32[code]]| == |s| + 1;
    assert BitsFrom(bit, 5 * (|s| + 1), 0) == [];
  }

  lemma {:induction false} NextCode(bit: nat -> bool, start: nat, pending: nat)
    requires pending < 5
    ensures var before := Code(BitsFrom(bit, start, pending));
      Code(BitsFrom(bit, start, pending + 1)) == TakeBit(before, pending, bit(start + pending))
  {
    assert BitsFrom(bit, start, pending + 1) == BitsFrom(bit, start, pending) + [bit(start + pending)];
    OrTakesBit(BitsFrom(bit, start, pending), bit(start + pending));
  }

  lemma {:induction false} OrTakesBit(bits: seq<bool>, high: bool)
    requires |bits| < 5
    ensures Code(bits + [high]) == TakeBit(Code(bits), |bits|, high)
  {
    OneMoreInCode(bits, high);
    OrAdds(Code(bits), |bits|);
  }

  lemma {:induction false} OneMoreInCode(bits: seq<bool>, high: bool)
    requires |bits| < 5
    ensures Code(bits + [high]) == Code(bits) + if high then Weight(|bits|) else 0
  {
    assert (bits + [high])[..|bits|] == bits;
  }

  function Bit(b: bool): int {
    if b then 1 else 0
  }

  lemma {:induction false} CodeStep(bits: seq<bool>, k: nat)
    requires k < |bits| <= 5
    ensures Code(bits[..k + 1]) == Code(bits[..k]) + Weight(k) * Bit(bits[k])
  {
    OneMoreInCode(bits[..k], bits[k]);
    assert bits[..k + 1] == bits[..k] + [bits[k]];
  }

  lemma {:induction false} CodeOfFive(bits: seq<bool>)
    requires |bits| == 5
    ensures Code(bits) == 16 * Bit(bits[0]) + 8 * Bit(bits[1]) + 4 * Bit(bits[2]) + 2 * Bit(bits[3]) + Bit(bits[4])
  {
    CodeStep(bits, 0);
    CodeStep(bits, 1);
    CodeStep(bits, 2);
    CodeStep(bits, 3);
    CodeStep(bits, 4);
    assert bits[..0] == [] && bits[..5] == bits;
  }

  lemma {:induction false} BitsOfSum(a: bool, b: bool, c: bool, d: bool, e: bool)
    ensures FiveBits(16 * Bit(a) + 8 * Bit(b) + 4 * Bit(c) + 2 * Bit(d) + Bit(e)) == [a, b, c, d, e]
  {
  }

  lemma {:induction false} CodeRoundTrip(bits: seq<bool>)
    requires |bits| == 5
    ensures FiveBits(Code(bits)) == bits
  {
    CodeOfFive(bits);
    BitsOfSum(bits[0], bits[1], bits[2], bits[3], bits[4]);
  }

  lemma {:induction false} SumOfBits(code: Digit)
    ensures code == 16 * Bit(code >= 16) + 8 * Bit(code % 16 >= 8) + 4 * Bit(code % 8 >= 4) + 2 * Bit(code % 4 >= 2) + Bit(code % 2 == 1)
  {
    assert code % 16 == code - 16 * Bit(code >= 16);
    assert code % 8 == code % 16 - 8 * Bit(code % 16 >= 8);
    assert code % 4 == code % 8 - 4 * Bit(code % 8 >= 4);
    assert code % 2 == code % 4 - 2 * Bit(code % 4 >= 2);
  }

  lemma {:induction false} FiveBitsRoundTrip(code: Digit)
    ensures Code(FiveBits(code)) == code
  {
    CodeOfFive(FiveBits(code));
    SumOfBits(code);
  }

  // ----- Reading a string back -----

  predicate InAlphabet(c: char) {
    exists v :: 0 <= v < 32 && BASE32[v] == c
  }

  predicate IsBase32(s: string) {
    forall i :: 0 <= i < |s| ==> InAlphabet(s[i])
  }

  function ValueOf(c: char): (v: Digit)
    requires InAlphabet(c)
    ensures BASE32[v] == c
  {
    AlphabetHasNoRepeats();
    var v :| 0 <= v < 32 && BASE32[v] == c;
    v
  }

  function Read(s: string): seq<Digit>
    requires IsBase32(s)
  {
    seq(|s|, i requires 0 <= i < |s| => ValueOf(s[i]))
  }

  function Spell(digits: seq<Digit>): (s: string)
    ensures |s| == |digits|
  {
    seq(|digits|, i requires 0 <= i < |digits| => BASE32[digits[i]])
  }

  function BitsOfDigits(digits: seq<Digit>): (bits: seq<bool>)
    ensures |bits| == 5 * |digits|
  {
    if digits == [] then [] else BitsOfDigits(digits[..|digits| - 1]) + FiveBits(digits[|digits| - 1])
  }

  function BitsOfString(s: string): (bits: seq<bool>)
    requires IsBase32(s)
    ensures |bits| == 5 * |s|
  {
    BitsOfDigits(Read(s))
  }

  lemma {:induction false} Ascends(i: nat)
    requires i < 31
    ensures BASE32[i] < BASE32[i + 1]
  {
  }

  lemma {:induction false} AscendsFrom(i: nat, j: nat)
    requires i < j < 32
    ensures BASE32[i] < BASE32[j]
    decreases j
  {
    Ascends(j - 1);
    if i < j - 1 {
      AscendsFrom(i, j - 1);
    }
  }

  lemma {:induction false} AlphabetHasNoRepeats()
    ensures forall i, j :: 0 <= i < 32 && 0 <= j < 32 && BASE32[i] == BASE32[j] ==> i == j
  {
    forall i, j | 0 <= i < j < 32 ensures BASE32[i] < BASE32[j] {
      AscendsFrom(i, j);
    }
  }

  // Every digit survives its character.
  lemma {:induction false} SpellRoundTrip(digits: seq<Digit>)
    ensures IsBase32(Spell(digits)) && Read(Spell(digits)) == digits
  {
    forall i | 0 <= i < |digits| ensures InAlphabet(Spell(digits)[i]) && ValueOf(Spell(digits)[i]) == digits[i] {
      ReadDigit(digits[i]);
    }
  }

  lemma {:induction false} ReadDigit(digit: Digit)
    ensures InAlphabet(BASE32[digit]) && ValueOf(BASE32[digit]) == digit
  {
    assert InAlphabet(BASE32[digit]);
    AlphabetHasNoRepeats();
    var v := ValueOf(BASE32[digit]);
    assert v == digit;
  }

  lemma {:induction false} SpellRead(s: string)
    requires IsBase32(s)
    ensures Spell(Read(s)) == s
  {
  }

  lemma {:induction false} OneMoreDigit(digits: seq<Digit>, d: Digit)
    ensures BitsOfDigits(digits + [d]) == BitsOfDigits(digits) + FiveBits(d)
  {
    assert (digits + [d])[..|digits|] == digits;
  }

  function DigitsOf(bit: nat -> bool, n: nat): (digits: seq<Digit>)
    ensures |digits| == n
  {
    if n == 0 then [] else DigitsOf(bit, n - 1) + [Code(BitsFrom(bit, 5 * (n - 1), 5))]
  }

  lemma {:induction false} SpellOneMore(digits: seq<Digit>, d: Digit)
    ensures Spell(digits + [d]) == Spell(digits) + [BASE32[d]]
  {
  }

  lemma {:induction false} EncodeSpellsDigits(bit: nat -> bool, n: nat)
    ensures Encode(bit, n) == Spell(DigitsOf(bit, n))
  {
    if n > 0 {
      EncodeSpellsDigits(bit, n - 1);
      SpellOneMore(DigitsOf(bit, n - 1), Code(BitsFrom(bit, 5 * (n - 1), 5)));
    }
  }

  // The digits carry all the bits.
  lemma {:induction false} DigitsCarryBits(bit: nat -> bool, n: nat)
    ensures BitsOfDigits(DigitsOf(bit, n)) == BitsFrom(bit, 0, 5 * n)
  {
    if n > 0 {
      var rest := n - 1;
      DigitsCarryBits(bit, rest);
      CarryOneMore(bit, DigitsOf(bit, rest), rest, BitsFrom(bit, 5 * rest, 5));
    }
  }

  lemma {:induction false} CarryOneMore(bit: nat -> bool, digits: seq<Digit>, n: nat, last: seq<bool>)
    requires BitsOfDigits(digits) == BitsFrom(bit, 0, 5 * n) && last == BitsFrom(bit, 5 * n, 5)
    ensures BitsOfDigits(digits + [Code(last)]) == BitsFrom(bit, 0, 5 * n + 5)
  {
    CodeCarriesBits(digits, last);
    BitsSplit(bit, 0, 5 * n, 5);
  }

  lemma {:induction false} CodeCarriesBits(digits: seq<Digit>, last: seq<bool>)
    requires |last| == 5
    ensures BitsOfDigits(digits + [Code(last)]) == BitsOfDigits(digits) + last
  {
    CodeRoundTrip(last);
    OneMoreDigit(digits, Code(last));
  }

  // Different digits have different bits.
  lemma {:induction false} BitsDecideDigits(a: seq<Digit>, b: seq<Digit>)
    requires BitsOfDigits(a) == BitsOfDigits(b)
    ensures a == b
  {
    if a != [] {
      var n := |a| - 1;
      assert a == a[..n] + [a[n]] && b == b[..n] + [b[n]];
      OneMoreDigit(a[..n], a[n]);
      OneMoreDigit(b[..n], b[n]);
      SameTail(BitsOfDigits(a[..n]), FiveBits(a[n]), BitsOfDigits(b[..n]), FiveBits(b[n]));
      BitsDecideDigits(a[..n], b[..n]);
      FiveBitsRoundTrip(a[n]);
      FiveBitsRoundTrip(b[n]);
    }
  }

  lemma {:induction false} SameTail(a: seq<bool>, x: seq<bool>, b: seq<bool>, y: seq<bool>)
    requires a + x == b + y && |x| == |y|
    ensures a == b && x == y
  {
    assert a == (a + x)[..|a|] && b == (b + y)[..|b|];
    assert x == (a + x)[|a|..] && y == (b + y)[|b|..];
  }

  // A string is read back as the bits it was made of.
  lemma {:induction false} EncodeRoundTrip(bit: nat -> bool, n: nat)
    ensures IsBase32(Encode(bit, n)) && BitsOfString(Encode(bit, n)) == BitsFrom(bit, 0, 5 * n)
  {
    EncodeSpellsDigits(bit, n);
    SpellRoundTrip(DigitsOf(bit, n));
    DigitsCarryBits(bit, n);
  }

  // A string is the encoding of exactly those bits that are read from it.
  lemma {:induction false} EncodesExactly(bit: nat -> bool, s: string)
    requires IsBase32(s)
    ensures Encode(bit, |s|) == s <==> BitsFrom(bit, 0, 5 * |s|) == BitsOfString(s)
  {
    EncodeSpellsDigits(bit, |s|);
    DigitsCarryBits(bit, |s|);
    SpellRead(s);
    SpellRoundTrip(DigitsOf(bit, |s|));
    if BitsFrom(bit, 0, 5 * |s|) == BitsOfString(s) {
      BitsDecideDigits(DigitsOf(bit, |s|), Read(s));
    }
  }

  // One character, spelled by five bits.
  lemma {:induction false} OneCharacter(bit: nat -> bool, code: Digit)
    requires FiveBits(code) == [bit(0), bit(1), bit(2), bit(3), bit(4)]
    ensures Encode(bit, 1) == [BASE32[code]]
  {
    FirstFive(bit);
    FiveBitsRoundTrip(code);
    assert Encode(bit, 0) == "";
    assert Encode(bit, 1) == Encode(bit, 0) + [BASE32[Code(BitsFrom(bit, 0, 5))]];
  }

  lemma {:induction false} SpellsK(bit: nat -> bool)
    requires bit(0) && !bit(1) && !bit(2) && bit(3) && !bit(4)
    ensures Encode(bit, 1) == "k"
  {
    OneCharacter(bit, 18);
  }

  lemma {:induction false} FirstFive(bit: nat -> bool)
    ensures BitsFrom(bit, 0, 5) == [bit(0), bit(1), bit(2), bit(3), bit(4)]
  {
  }
}
