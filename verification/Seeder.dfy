// Noun seeds derived twice: by shifts and casts in
// packages/nouns-contracts/contracts/NounsSeeder.sol, and on hexadecimal text in
// packages/nouns-assets/src/utils.ts.
module Seeder {
  import opened Wrappers
  import opened Hex

  function Pow(base: nat, exponent: nat): (p: nat)
    ensures base > 0 ==> p > 0
  {
    if exponent == 0 then 1
    else
      var p := Pow(base, exponent - 1);
      assert base > 0 ==> base * p > 0;
      base * p
  }

  const UINT48: nat := 0x1_0000_0000_0000

  // How many variants of each part there are, and which of them a noun wears.
  datatype Counts = Counts(background: nat, body: nat, accessory: nat, head: nat, glasses: nat)

  datatype Seed = Seed(background: nat, body: nat, accessory: nat, head: nat, glasses: nat)

  function ShiftRight(value: nat, amount: nat): nat {
    value / Pow(2, amount)
  }

  // ----- The contract

  // A remainder by zero panics.
  function Part(value: nat, count: nat, shift: nat): Option<nat> {
    if count == 0 then None else Some(ShiftRight(value, shift) % UINT48 % count)
  }

  function AllParts(background: Option<nat>, body: Option<nat>, accessory: Option<nat>, head: Option<nat>, glasses: Option<nat>): Option<Seed> {
    match (background, body, accessory, head, glasses)
    case (Some(b), Some(o), Some(a), Some(h), Some(g)) => Some(Seed(b, o, a, h, g))
    case _ => None
  }

  function GenerateSeed(pseudorandomness: nat, c: Counts): Option<Seed> {
    AllParts(Part(pseudorandomness, c.background, 0), Part(pseudorandomness, c.body, 48),
             Part(pseudorandomness, c.accessory, 96), Part(pseudorandomness, c.head, 144),
             Part(pseudorandomness, c.glasses, 192))
  }

  // ----- The text

  // BigNumber.toHexString: an even number of lower-case digits.
  function ToHexString(value: nat): string {
    var digits := ToHex(value);
    "0x" + if |digits| % 2 == 1 then "0" + digits else digits
  }

  // String.prototype.substring: a fraction is cut off and a negative start means zero.
  function Suffix(s: string, length: nat): string {
    if length <= |s| then s[|s| - length..] else s
  }

  function ShiftRightAndCast(value: nat, shift: nat, uintSize: nat): string {
    "0x" + Suffix(ToHexString(ShiftRight(value, shift)), (uintSize + 3) / 4)
  }

  // BigNumber.from on text that begins with 0x: digits must follow; anything else throws.
  function FromHexString(s: string): Option<nat>
    requires |s| >= 2 && s[..2] == "0x"
  {
    ParseHex(s[2..])
  }

  function PartFromText(value: nat, count: nat, shift: nat, uintSize: nat): Option<nat> {
    match FromHexString(ShiftRightAndCast(value, shift, uintSize))
    case None => None
    case Some(window) => if count == 0 then None else Some(window % count)
  }

  function SeedFromText(pseudorandomness: nat, c: Counts): Option<Seed> {
    AllParts(PartFromText(pseudorandomness, c.background, 0, 48), PartFromText(pseudorandomness, c.body, 48, 48),
             PartFromText(pseudorandomness, c.accessory, 96, 48), PartFromText(pseudorandomness, c.head, 144, 48),
             PartFromText(pseudorandomness, c.glasses, 192, 48))
  }

  // ----- Arithmetic

  lemma DivideTwice(v: nat, a: nat, b: nat)
    requires a > 0 && b > 0
    ensures a * b > 0 && v / a / b == v / (a * b)
  {
    NestedQuotient(v, a, b, v / a, v % a, v / a / b, v / a % b);
  }

  lemma NestedQuotient(v: nat, a: nat, b: nat, w: nat, s: nat, q: nat, r: nat)
    requires v == a * w + s && s < a && w == b * q + r && r < b
    ensures a * b > 0 && v / (a * b) == q
  {
    Regroup(a, b, q, r);
    RemainderFits(a, b, r, s);
    QuotientIs(v, a * b, q, a * r + s);
  }

  lemma Regroup(a: nat, b: nat, q: nat, r: nat)
    ensures a * (b * q + r) == q * (a * b) + a * r
  {
    assert a * (b * q) == q * (a * b);
  }

  lemma RemainderFits(a: nat, b: nat, r: nat, s: nat)
    requires s < a && r < b
    ensures a * r + s < a * b
  {
    AtLeastOnce(b - r, a);
    assert (b - r) * a == a * b - a * r;
  }

  lemma QuotientIs(v: nat, d: nat, q: nat, m: nat)
    requires d > 0 && v == q * d + m && m < d
    ensures v / d == q && v % d == m
  {
    var k := v / d - q;
    assert v == d * (v / d) + v % d;
    assert k * d == m - v % d;
    AtLeastOnce(k, d);
  }

  lemma AtLeastOnce(k: int, d: nat)
    ensures k >= 1 ==> k * d >= d
    ensures k <= -1 ==> k * d + d <= 0
  {
    if k >= 1 {
      assert (k - 1) * d >= 0;
    } else if k <= -1 {
      assert (-k - 1) * d >= 0;
    }
  }

  lemma {:induction false} PowAdd(base: nat, m: nat, n: nat)
    ensures Pow(base, m + n) == Pow(base, m) * Pow(base, n)
  {
    if m != 0 {
      PowAdd(base, m - 1, n);
      assert base * (Pow(base, m - 1) * Pow(base, n)) == base * Pow(base, m - 1) * Pow(base, n);
    }
  }

  lemma ShiftTwice(v: nat, m: nat, n: nat)
    ensures ShiftRight(ShiftRight(v, m), n) == ShiftRight(v, m + n)
  {
    PowAdd(2, m, n);
    DivideTwice(v, Pow(2, m), Pow(2, n));
  }

  // ----- Reading the last digits

  lemma SuffixSnoc(s: string, c: char, n: nat)
    requires 1 <= n <= |s| + 1
    ensures (s + [c])[|s| + 1 - n..] == s[|s| + 1 - n..] + [c]
  {
  }

  lemma AppendDigit(s: string, x: nat, d: nat)
    requires d < 16 && ParseHex(s) == Some(x)
    ensures ParseHex(s + [Digit(d)]) == Some(16 * x + d)
  {
    DigitRoundTrip(d);
    assert (s + [Digit(d)])[..|s|] == s;
  }

  // Remainder, kept as a name where solving for it would cost.
  function Remainder(v: nat, d: nat): nat
    requires d > 0
  {
    v % d
  }

  lemma LastDigit(v: nat)
    ensures ToHex(v) == (if v < 16 then [] else ToHex(v / 16)) + [Digit(v % 16)]
    ensures ParseHex([Digit(v % 16)]) == Some(Remainder(v, Pow(16, 1)))
  {
    DigitRoundTrip(v % 16);
    assert Pow(16, 1) == 16;
  }

  // The last n digits of a number are its remainder by 16^n.
  lemma {:induction false} LastDigits(v: nat, n: nat)
    requires 1 <= n <= |ToHex(v)|
    ensures ParseHex(ToHex(v)[|ToHex(v)| - n..]) == Some(Remainder(v, Pow(16, n)))
  {
    hide Pow, ToHex, Digit, ParseHex, Remainder;
    LastDigit(v);
    var before, last := if v < 16 then [] else ToHex(v / 16), Digit(v % 16);
    SuffixSnoc(before, last, n);
    if n == 1 {
      assert before[|before|..] + [last] == [last];
    } else {
      LastDigits(v / 16, n - 1);
      AppendDigit(before[|before| + 1 - n..], Remainder(v / 16, Pow(16, n - 1)), v % 16);
      Digitwise(v, n - 1);
    }
  }

  lemma Digitwise(v: nat, n: nat)
    ensures Remainder(v, Pow(16, n + 1)) == 16 * Remainder(v / 16, Pow(16, n)) + v % 16
  {
    var p := Pow(16, n);
    assert Pow(16, n + 1) == 16 * p;
    hide Pow;
    DigitParts(v, p, v / 16, v % 16, v / 16 / p, v / 16 % p);
  }

  lemma DigitParts(v: nat, p: nat, w: nat, s: nat, q: nat, m: nat)
    requires v == 16 * w + s && s < 16 && w == p * q + m && m < p
    ensures v % (16 * p) == 16 * m + s
  {
    Regroup(16, p, q, m);
    QuotientIs(v, 16 * p, q, 16 * m + s);
  }

  lemma {:induction false} DigitCount(v: nat, n: nat)
    requires n >= 1
    ensures |ToHex(v)| > n <==> v >= Pow(16, n)
  {
    if n == 1 {
      assert Pow(16, 1) == 16;
      if v >= 16 { ParseToHex(v / 16); }
    } else if v >= 16 {
      DigitCount(v / 16, n - 1);
      AtLeast(v, Pow(16, n - 1));
    } else {
      AtLeast(v, Pow(16, n - 1));
    }
  }

  lemma AtLeast(v: nat, p: nat)
    requires p > 0
    ensures v / 16 >= p <==> v >= 16 * p
  {
  }

  lemma SuffixOfText(v: nat, n: nat)
    requires n >= 4 && n % 2 == 0
    ensures var h, suffix := ToHex(v), Suffix(ToHexString(v), n);
            && (n <= |h| ==> suffix == h[|h| - n..])
            && (n == |h| + 1 ==> suffix == ['0'] + h)
            && (n > |h| + 1 ==> 'x' in suffix)
  {
    hide ToHex;
    var h, text := ToHex(v), ToHexString(v);
    var suffix := Suffix(text, n);
    if n > |h| + 1 {
      assert text[1] == 'x' && |text| < n + 2;
      assert suffix[0] == 'x' || suffix[1] == 'x';
    }
  }

  // The text of a window can be read exactly when enough digits were printed, and then it is the
  // number the cast leaves.
  lemma WindowExact(v: nat, n: nat)
    requires n >= 4 && n % 2 == 0
    ensures var s := "0x" + Suffix(ToHexString(v), n);
            FromHexString(s) == if v >= Pow(16, n - 2) then Some(v % Pow(16, n)) else None
  {
    hide ToHex, ToHexString, Suffix, ParseHex, Pow;
    var h, suffix := ToHex(v), Suffix(ToHexString(v), n);
    assert ("0x" + suffix)[2..] == suffix;
    ParseToHex(v);
    SuffixOfText(v, n);
    DigitCount(v, n - 2);
    DigitCount(v, n);
    if n <= |h| {
      LastDigits(v, n);
      assert v >= Pow(16, n - 2);
    } else if n == |h| + 1 {
      ParseLeadingZero(h);
      SmallRemainder(v, Pow(16, n));
    } else {
      NotANumber(suffix);
    }
  }

  lemma SmallRemainder(v: nat, d: nat)
    requires v < d
    ensures v % d == v
  {
    QuotientIs(v, d, 0, v);
  }

  lemma {:induction false} NotANumber(s: string)
    requires 'x' in s
    ensures ParseHex(s) == None
  {
    if |s| > 1 && s[|s| - 1] != 'x' {
      assert 'x' in s[..|s| - 1];
      NotANumber(s[..|s| - 1]);
    }
  }

  lemma {:induction false} PowSixteen(n: nat)
    ensures Pow(16, n) == Pow(2, 4 * n)
  {
    if n > 0 {
      PowSixteen(n - 1);
      PowAdd(2, 4, 4 * (n - 1));
      assert Pow(2, 4) == 16;
    }
  }

  lemma Pow48()
    ensures Pow(2, 48) == UINT48
  {
    Pow8();
    hide Pow;
    PowAdd(2, 8, 8);
    PowAdd(2, 16, 16);
    PowAdd(2, 16, 32);
  }

  lemma Pow8()
    ensures Pow(2, 8) == 256
  {
  }

  // One part by text is the part by arithmetic, or nothing when the shifted value is below 2^40.
  lemma PartExact(value: nat, count: nat, shift: nat)
    ensures PartFromText(value, count, shift, 48) == if ShiftRight(value, shift) >= Pow(2, 40) then Part(value, count, shift) else None
  {
    hide ToHexString, Suffix, FromHexString, Pow, ShiftRight;
    PowSixteen(12);
    PowSixteen(10);
    Pow48();
    WindowExact(ShiftRight(value, shift), 12);
  }

  lemma ShiftedAtLeast(v: nat, shift: nat, bits: nat)
    ensures ShiftRight(v, shift) >= Pow(2, bits) <==> v >= Pow(2, shift + bits)
  {
    hide Pow;
    PowAdd(2, shift, bits);
    QuotientAtLeast(v, Pow(2, shift), Pow(2, bits));
  }

  lemma QuotientAtLeast(v: nat, p: nat, q: nat)
    requires p > 0 && q > 0
    ensures v / p >= q <==> v >= p * q
  {
    if v / p >= q {
      assert p * (v / p) >= p * q;
    } else {
      assert p * (v / p) <= p * (q - 1);
    }
  }

  lemma {:induction false} PowGrows(m: nat, n: nat)
    requires m <= n
    ensures Pow(2, m) <= Pow(2, n)
  {
    if m < n {
      PowGrows(m, n - 1);
    }
  }

  // The text derivation answers exactly when the hash is at least 2^232 and no count is zero; it is
  // then the contract's seed, whose fields are all in bounds.
  lemma SeedExact(hash: nat, c: Counts)
    ensures SeedFromText(hash, c) == if hash >= Pow(2, 232) then GenerateSeed(hash, c) else None
    ensures GenerateSeed(hash, c).Some? <==> c.background > 0 && c.body > 0 && c.accessory > 0 && c.head > 0 && c.glasses > 0
    ensures GenerateSeed(hash, c).Some? ==> InBounds(GenerateSeed(hash, c).value, c)
  {
    hide Pow, PartFromText, ShiftRight;
    PartExact(hash, c.background, 0);
    PartExact(hash, c.body, 48);
    PartExact(hash, c.accessory, 96);
    PartExact(hash, c.head, 144);
    PartExact(hash, c.glasses, 192);
    ShiftedAtLeast(hash, 0, 40); PowGrows(40, 232);
    ShiftedAtLeast(hash, 48, 40); PowGrows(88, 232);
    ShiftedAtLeast(hash, 96, 40); PowGrows(136, 232);
    ShiftedAtLeast(hash, 144, 40); PowGrows(184, 232);
    ShiftedAtLeast(hash, 192, 40);
  }

  predicate InBounds(s: Seed, c: Counts) {
    s.background < c.background && s.body < c.body && s.accessory < c.accessory && s.head < c.head && s.glasses < c.glasses
  }

  // ----- Every combination is reached

  // A hash with the given parts in its five windows, and its top bits set.
  function HashFor(s: Seed): nat {
    s.background + UINT48 * (s.body + UINT48 * (s.accessory + UINT48 * (s.head + UINT48 * (s.glasses + UINT48 * 0xFFFF))))
  }

  lemma Window(v: nat, low: nat, high: nat, least: nat, most: nat)
    requires v == low + UINT48 * high && low < UINT48
    requires Pow(2, least) <= high < Pow(2, most)
    ensures v % UINT48 == low && ShiftRight(v, 48) == high
    ensures Pow(2, least + 48) <= v < Pow(2, most + 48)
  {
    hide Pow;
    Pow48();
    PowAdd(2, least, 48);
    PowAdd(2, most, 48);
    QuotientIs(v, UINT48, high, low);
    assert high + 1 <= Pow(2, most);
  }

  predicate Narrow(c: Counts) {
    c.background <= UINT48 && c.body <= UINT48 && c.accessory <= UINT48 && c.head <= UINT48 && c.glasses <= UINT48
  }

  lemma PartIs(value: nat, count: nat, shift: nat, choice: nat)
    requires ShiftRight(value, shift) % UINT48 == choice < count
    ensures Part(value, count, shift) == Some(choice)
  {
    SmallRemainder(choice, count);
  }

  lemma PartNarrow(value: nat, count: nat, shift: nat)
    ensures Part(value, count, shift).Some? ==> Part(value, count, shift).value < UINT48
  {
    if count > 0 {
      var window := ShiftRight(value, shift) % UINT48;
      assert window == count * (window / count) + window % count;
      assert count * (window / count) >= 0;
    }
    hide ShiftRight;
  }

  // The five windows of a chosen hash.
  lemma HashWindows(s: Seed)
    requires s.background < UINT48 && s.body < UINT48 && s.accessory < UINT48 && s.head < UINT48 && s.glasses < UINT48
    ensures Pow(2, 232) <= HashFor(s) < Pow(2, 256)
    ensures var v := HashFor(s);
            && ShiftRight(v, 0) % UINT48 == s.background
            && ShiftRight(v, 48) % UINT48 == s.body
            && ShiftRight(v, 96) % UINT48 == s.accessory
            && ShiftRight(v, 144) % UINT48 == s.head
            && ShiftRight(v, 192) % UINT48 == s.glasses
  {
    hide Pow, ShiftRight;
    TopBits();
    var v4 := s.glasses + UINT48 * 0xFFFF;
    var v3 := s.head + UINT48 * v4;
    var v2 := s.accessory + UINT48 * v3;
    var v1 := s.body + UINT48 * v2;
    var v0 := HashFor(s);
    Window(v4, s.glasses, 0xFFFF, 8, 16);
    Window(v3, s.head, v4, 56, 64);
    Window(v2, s.accessory, v3, 104, 112);
    Window(v1, s.body, v2, 152, 160);
    Window(v0, s.background, v1, 200, 208);
    PowGrows(232, 248);
    ShiftByNothing(v0);
    ShiftTwice(v0, 48, 48);
    ShiftTwice(v0, 96, 48);
    ShiftTwice(v0, 144, 48);
  }

  lemma TopBits()
    ensures Pow(2, 8) <= 0xFFFF < Pow(2, 16)
  {
    assert Pow(2, 8) == 256;
    hide Pow;
    PowAdd(2, 8, 8);
  }

  lemma HashForSeed(s: Seed, c: Counts)
    requires InBounds(s, c) && Narrow(c)
    ensures Pow(2, 232) <= HashFor(s) < Pow(2, 256)
    ensures GenerateSeed(HashFor(s), c) == Some(s)
  {
    hide Pow, ShiftRight, Part, HashFor;
    HashWindows(s);
    var v := HashFor(s);
    PartIs(v, c.background, 0, s.background);
    PartIs(v, c.body, 48, s.body);
    PartIs(v, c.accessory, 96, s.accessory);
    PartIs(v, c.head, 144, s.head);
    PartIs(v, c.glasses, 192, s.glasses);
  }

  lemma ShiftByNothing(v: nat)
    ensures ShiftRight(v, 0) == v
  {
    assert Pow(2, 0) == 1;
  }

  ghost predicate Reached(s: Seed, c: Counts) {
    exists hash: nat :: hash < Pow(2, 256) && GenerateSeed(hash, c) == Some(s)
  }

  // Every combination of valid indices comes from some 256-bit hash, exactly when no part has more
  // than 2^48 variants; and then from a hash on which both derivations give it.
  lemma ReachExact(c: Counts)
    requires c.background > 0 && c.body > 0 && c.accessory > 0 && c.head > 0 && c.glasses > 0
    ensures (forall s :: InBounds(s, c) ==> Reached(s, c)) <==> Narrow(c)
    ensures Narrow(c) ==> forall s :: InBounds(s, c) ==> SeedFromText(HashFor(s), c) == Some(s)
  {
    if Narrow(c) {
      forall s | InBounds(s, c)
        ensures Reached(s, c) && SeedFromText(HashFor(s), c) == Some(s)
      {
        hide Pow, HashFor, GenerateSeed, SeedFromText;
        HashForSeed(s, c);
        SeedExact(HashFor(s), c);
      }
    } else {
      hide Pow, Part;
      var top := Seed(c.background - 1, c.body - 1, c.accessory - 1, c.head - 1, c.glasses - 1);
      forall hash: nat
        ensures GenerateSeed(hash, c) != Some(top)
      {
        PartNarrow(hash, c.background, 0);
        PartNarrow(hash, c.body, 48);
        PartNarrow(hash, c.accessory, 96);
        PartNarrow(hash, c.head, 144);
        PartNarrow(hash, c.glasses, 192);
      }
      assert InBounds(top, c) && !Reached(top, c);
    }
  }

  // ----- What a seed is

  // The value in four pieces: the bits below the window, the window of 48 bits as a multiple of the
  // count and a part below it, and the bits above.
  predicate Splits(value: nat, count: nat, shift: nat, part: nat, low: nat, quotient: nat, high: nat) {
    && value == low + Pow(2, shift) * (quotient * count + part + UINT48 * high)
    && low < Pow(2, shift) && quotient * count + part < UINT48 && part < count
  }

  ghost predicate IsPart(value: nat, count: nat, shift: nat, part: nat) {
    exists low: nat, quotient: nat, high: nat :: Splits(value, count, shift, part, low, quotient, high)
  }

  lemma SplitGives(value: nat, count: nat, shift: nat, part: nat, low: nat, quotient: nat, high: nat)
    requires Splits(value, count, shift, part, low, quotient, high)
    ensures Part(value, count, shift) == Some(part)
  {
    var window := quotient * count + part;
    hide Pow;
    Products(Pow(2, shift), window, high);
    QuotientIs(value, Pow(2, shift), window + UINT48 * high, low);
    QuotientIs(window + UINT48 * high, UINT48, high, window);
    QuotientIs(window, count, quotient, part);
  }

  lemma Products(p: nat, window: nat, high: nat)
    ensures p * (window + UINT48 * high) == (window + UINT48 * high) * p && UINT48 * high == high * UINT48
  {
  }

  lemma PartSplits(value: nat, count: nat, shift: nat)
    requires count > 0
    ensures IsPart(value, count, shift, Part(value, count, shift).value)
  {
    hide Pow;
    var shifted := ShiftRight(value, shift);
    var window := shifted % UINT48;
    var low, quotient, high, part := value % Pow(2, shift), window / count, shifted / UINT48, window % count;
    assert quotient * count == count * quotient;
    assert value == low + Pow(2, shift) * shifted;
    assert Splits(value, count, shift, part, low, quotient, high);
  }

  lemma PartIff(value: nat, count: nat, shift: nat, part: nat)
    ensures Part(value, count, shift) == Some(part) <==> IsPart(value, count, shift, part)
  {
    if count > 0 {
      PartSplits(value, count, shift);
    }
    if IsPart(value, count, shift, part) {
      var low: nat, quotient: nat, high: nat :| Splits(value, count, shift, part, low, quotient, high);
      SplitGives(value, count, shift, part, low, quotient, high);
    }
    hide Part, Splits;
  }

  // The seed of a hash is the one whose parts are the remainders of five neighbouring windows of 48
  // bits, background lowest, by the counts.
  lemma SeedIff(hash: nat, c: Counts, s: Seed)
    ensures GenerateSeed(hash, c) == Some(s) <==>
              && IsPart(hash, c.background, 0, s.background) && IsPart(hash, c.body, 48, s.body)
              && IsPart(hash, c.accessory, 96, s.accessory) && IsPart(hash, c.head, 144, s.head)
              && IsPart(hash, c.glasses, 192, s.glasses)
  {
    hide Part, IsPart;
    PartIff(hash, c.background, 0, s.background);
    PartIff(hash, c.body, 48, s.body);
    PartIff(hash, c.accessory, 96, s.accessory);
    PartIff(hash, c.head, 144, s.head);
    PartIff(hash, c.glasses, 192, s.glasses);
  }
}
