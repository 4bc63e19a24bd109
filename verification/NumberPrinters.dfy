/** Two printers of numbers that have to agree: the %x of alt_printf, which shifts and masks, and
    the integer conversions of alt_log_printf, which divide by the largest power of the base. */
module NumberPrinters {
  import opened Words

  // ---------------------------------------------------------------- division by counting

  /** Products, quotients and remainders by repeated addition, which keeps the proofs linear. */
  function Times(a: nat, b: nat): nat {
    if a == 0 then 0 else b + Times(a - 1, b)
  }

  function Quot(v: nat, d: nat): nat
    requires d > 0
  {
    if v < d then 0 else 1 + Quot(v - d, d)
  }

  function Rem(v: nat, d: nat): (r: nat)
    requires d > 0
    ensures r < d
  {
    if v < d then v else Rem(v - d, d)
  }

  lemma {:induction false} TimesIs(a: nat, b: nat)
    ensures Times(a, b) == a * b
    decreases a
  {
    if a > 0 {
      TimesIs(a - 1, b);
      assert a * b == (a - 1) * b + b;
    }
  }

  lemma {:induction false} TimesAdd(a: nat, b: nat, c: nat)
    ensures Times(a + b, c) == Times(a, c) + Times(b, c)
    decreases a
  {
    if a > 0 { TimesAdd(a - 1, b, c); }
  }

  lemma {:induction false} TimesTwice(a: nat, b: nat, c: nat)
    ensures Times(Times(a, b), c) == Times(a, Times(b, c))
    decreases a
  {
    if a > 0 {
      TimesTwice(a - 1, b, c);
      TimesAdd(b, Times(a - 1, b), c);
    }
  }

  lemma TimesMono(a: nat, b: nat, c: nat)
    requires a <= b
    ensures Times(a, c) <= Times(b, c)
  {
    TimesAdd(a, b - a, c);
  }

  lemma {:induction false} QuotRem(v: nat, d: nat)
    requires d > 0
    ensures v == Times(Quot(v, d), d) + Rem(v, d)
    decreases v
  {
    if v >= d { QuotRem(v - d, d); }
  }

  lemma {:induction false} Unique(q: nat, r: nat, d: nat)
    requires r < d
    ensures Quot(Times(q, d) + r, d) == q && Rem(Times(q, d) + r, d) == r
    decreases q
  {
    if q > 0 { Unique(q - 1, r, d); }
  }

  /** They are the machine's. */
  lemma QuotIs(v: nat, d: nat)
    requires d > 0
    ensures v / d == Quot(v, d) && v % d == Rem(v, d)
  {
    QuotRem(v, d);
    var q, r := v / d, v % d;
    TimesIs(q, d);
    assert v == q * d + r;
    Unique(q, r, d);
  }

  /** Dividing by b and then by m is dividing by their product, and the remainders fit together. */
  lemma DivTwice(v: nat, b: nat, m: nat)
    requires b > 0 && m > 0 && Times(m, b) > 0
    ensures Quot(v, Times(m, b)) == Quot(Quot(v, b), m)
    ensures Quot(Rem(v, Times(m, b)), b) == Rem(Quot(v, b), m)
    ensures Rem(Rem(v, Times(m, b)), b) == Rem(v, b)
  {
    var q, r := Quot(v, b), Rem(v, b);
    var s, t := Quot(q, m), Rem(q, m);
    var low := Times(t, b) + r;
    TwoDivisions(v, b, m, q, r, s, t);
    UniqueFor(v, s, low, Times(m, b));
    UniqueFor(low, t, r, b);
  }

  lemma UniqueFor(v: nat, q: nat, r: nat, d: nat)
    requires v == Times(q, d) + r && r < d
    ensures Quot(v, d) == q && Rem(v, d) == r
  {
    Unique(q, r, d);
  }

  lemma TwoDivisions(v: nat, b: nat, m: nat, q: nat, r: nat, s: nat, t: nat)
    requires b > 0 && m > 0 && q == Quot(v, b) && r == Rem(v, b) && s == Quot(q, m) && t == Rem(q, m)
    ensures v == Times(s, Times(m, b)) + (Times(t, b) + r) && Times(t, b) + r < Times(m, b)
  {
    QuotRem(v, b);
    QuotRem(q, m);
    TimesAdd(Times(s, m), t, b);
    TimesTwice(s, m, b);
    BelowNext(t, m, b, r);
  }

  lemma BelowNext(t: nat, m: nat, b: nat, r: nat)
    requires t < m && r < b
    ensures Times(t, b) + r < Times(m, b)
  {
    TimesAdd(t, 1, b);
    TimesMono(t + 1, m, b);
    assert Times(1, b) == b + Times(0, b);
  }

  // ---------------------------------------------------------------- digits

  function Pow(base: nat, n: nat): (p: nat)
    requires base > 1
    ensures p > 0
  {
    if n == 0 then 1
    else
      var p := Pow(base, n - 1);
      TimesMono(1, p, base);
      Times(p, base)
  }

  /** The last n digits of v, most significant first. */
  function Digits(v: nat, base: nat, n: nat): (d: seq<nat>)
    requires base > 1
    ensures |d| == n && forall i :: 0 <= i < n ==> d[i] < base
    decreases n
  {
    if n == 0 then [] else Digits(Quot(v, base), base, n - 1) + [Rem(v, base)]
  }

  lemma {:induction false} QuotLess(v: nat, d: nat)
    requires d > 1 && v > 0
    ensures Quot(v, d) < v
    decreases v
  {
    if v > d { QuotLess(v - d, d); }
  }

  /** How many digits v has. */
  function Count(v: nat, base: nat): (n: nat)
    requires base > 1
    ensures n > 0
    decreases v
  {
    if v < base then 1
    else
      QuotLess(v, base);
      1 + Count(Quot(v, base), base)
  }

  function Parse(d: seq<nat>, base: nat): nat {
    if d == [] then 0 else Times(Parse(d[..|d| - 1], base), base) + d[|d| - 1]
  }

  /** From the top: the first digit is the quotient by the largest power, the rest the remainder's. */
  lemma {:induction false} TopDigit(v: nat, base: nat, n: nat)
    requires base > 1 && n > 0
    ensures var p := Pow(base, n - 1);
      Digits(v, base, n) == [Rem(Quot(v, p), base)] + Digits(Rem(v, p), base, n - 1)
    decreases n
  {
    if n == 1 {
      DivOne(v);
    } else {
      var m, q := Pow(base, n - 2), Quot(v, base);
      TopDigit(q, base, n - 1);
      DivTwice(v, base, m);
      assert Digits(v, base, n) == [Rem(Quot(q, m), base)] + (Digits(Rem(q, m), base, n - 2) + [Rem(v, base)]);
    }
  }

  lemma {:induction false} DivOne(v: nat)
    ensures Quot(v, 1) == v && Rem(v, 1) == 0
    decreases v
  {
    if v > 0 { DivOne(v - 1); }
  }

  lemma SmallRem(v: nat, d: nat)
    requires v < d
    ensures Rem(v, d) == v && Quot(v, d) == 0
  {
  }

  lemma {:induction false} ParseDigits(v: nat, base: nat, n: nat)
    requires base > 1 && v < Pow(base, n)
    ensures Parse(Digits(v, base, n), base) == v
    decreases n
  {
    if n > 0 {
      QuotSmaller(v, base, Pow(base, n - 1));
      ParseDigits(Quot(v, base), base, n - 1);
      assert Digits(v, base, n)[..n - 1] == Digits(Quot(v, base), base, n - 1);
      QuotRem(v, base);
    }
  }

  lemma QuotSmaller(v: nat, b: nat, m: nat)
    requires b > 0
    ensures v < Times(m, b) <==> Quot(v, b) < m
  {
    var q := Quot(v, b);
    QuotRem(v, b);
    if q < m { TimesMono(q + 1, m, b); } else { TimesMono(m, q, b); }
  }

  /** A number has just as many digits as its size says. */
  lemma {:induction false} CountFits(v: nat, base: nat)
    requires base > 1
    ensures v < Pow(base, Count(v, base))
    ensures v > 0 ==> Pow(base, Count(v, base) - 1) <= v
    decreases v
  {
    var n := Count(v, base);
    if v < base {
      assert Pow(base, 0) == 1;
      assert Times(1, base) == base;
      assert Pow(base, 1) == base;
    } else {
      QuotLess(v, base);
      CountFits(Quot(v, base), base);
      QuotSmaller(v, base, Pow(base, n - 1));
      QuotSmaller(v, base, Pow(base, n - 2));
    }
  }

  lemma {:induction false} PowMono(base: nat, n: nat, m: nat)
    requires base > 1 && n <= m
    ensures Pow(base, n) <= Pow(base, m)
    ensures n < m ==> Pow(base, n) < Pow(base, m)
    decreases m
  {
    if n < m {
      PowMono(base, n, m - 1);
      TimesMono(1, Pow(base, m - 1), base);
      TimesIs(Pow(base, m - 1), base);
      TimesIs(base, Pow(base, m - 1));
      TimesMono(2, base, Pow(base, m - 1));
    }
  }

  lemma CountIs(v: nat, base: nat, n: nat)
    requires base > 1 && n > 0 && Pow(base, n - 1) <= v < Pow(base, n)
    ensures Count(v, base) == n
  {
    var c := Count(v, base);
    CountFits(v, base);
    if c < n { PowMono(base, c, n - 1); }
    if n < c { PowMono(base, n, c - 1); }
  }

  lemma Commute(a: nat, b: nat)
    ensures Times(a, b) == Times(b, a)
  {
    TimesIs(a, b);
    TimesIs(b, a);
  }

  // ---------------------------------------------------------------- text

  function DigitChar(d: nat, upper: bool): char
    requires d < 36
  {
    if d <= 9 then '0' + d as char else if upper then 'A' + (d - 10) as char else 'a' + (d - 10) as char
  }

  function Text(d: seq<nat>, upper: bool): (t: string)
    requires forall i :: 0 <= i < |d| ==> d[i] < 36
    ensures |t| == |d|
  {
    seq(|d|, i requires 0 <= i < |d| => DigitChar(d[i], upper))
  }

  /** A digit printed is one less to print. */
  lemma TextFirst(out: string, d: nat, rest: seq<nat>, all: seq<nat>, upper: bool)
    requires d < 36 && (forall i :: 0 <= i < |rest| ==> rest[i] < 36) && all == [d] + rest
    ensures (forall i :: 0 <= i < |all| ==> all[i] < 36)
    ensures out + Text(all, upper) == out + [DigitChar(d, upper)] + Text(rest, upper)
  {
    assert Text(all, upper) == [DigitChar(d, upper)] + Text(rest, upper);
  }

  function Rep(c: char, n: int): (t: string)
    ensures |t| == if n > 0 then n else 0
  {
    if n > 0 then seq(n, i => c) else []
  }

  /** The digits of v, as many as it has. */
  function Number(v: nat, base: nat, upper: bool): string
    requires 1 < base <= 36
  {
    Text(Digits(v, base, Count(v, base)), upper)
  }

  predicate Negative(v: word, signed: bool) {
    signed && v >= 0x8000_0000
  }

  function Magnitude(v: word, signed: bool): word {
    if Negative(v, signed) then WORD - v else v
  }

  function Prefix(negative: bool, zero: bool, room: int): string {
    var sign := if negative then "-" else "";
    var pad := room - |sign|;
    if zero then sign + Rep('0', pad) else Rep(' ', pad) + sign
  }

  /** What an integer conversion should print. */
  function Formatted(v: word, base: nat, signed: bool, zero: bool, width: int, upper: bool): string
    requires 1 < base <= 36
  {
    var digits := Number(Magnitude(v, signed), base, upper);
    Prefix(Negative(v, signed), zero, width - |digits|) + digits
  }

  /** The digits read back as the number, and the first is 0 only for 0 itself. */
  lemma NumberMeans(m: nat, base: nat)
    requires base > 1
    ensures var d := Digits(m, base, Count(m, base)); Parse(d, base) == m && (m > 0 ==> d[0] != 0)
  {
    var n := Count(m, base);
    var p := Pow(base, n - 1);
    CountFits(m, base);
    ParseDigits(m, base, n);
    TopDigit(m, base, n);
    if m > 0 {
      Commute(p, base);
      QuotSmaller(m, p, base);
      SmallRem(Quot(m, p), base);
      QuotPositive(m, p);
    }
  }

  /** The field is as wide as asked, or as the number and its sign need. */
  lemma FieldWidth(v: word, base: nat, signed: bool, zero: bool, width: int, upper: bool)
    requires 1 < base <= 36
    ensures var needed := Count(Magnitude(v, signed), base) + if Negative(v, signed) then 1 else 0;
      |Formatted(v, base, signed, zero, width, upper)| == if width > needed then width else needed
  {
  }

  lemma QuotPositive(v: nat, d: nat)
    requires 0 < d <= v
    ensures Quot(v, d) > 0
  {
  }

  /** A signed number passed as its 32-bit pattern is printed with its own sign and size, the most
      negative one too. */
  lemma SignedMagnitude(x: int)
    requires -0x8000_0000 <= x < 0x8000_0000
    ensures Negative(x % WORD, true) == (x < 0)
    ensures Magnitude(x % WORD, true) == if x < 0 then -x else x
  {
  }

  // ---------------------------------------------------------------- what a reader makes of it

  const LOWER := "0123456789abcdef"
  const UPPER := "0123456789ABCDEF"

  /** Where c stands in s from place i on. */
  function PlaceIn(c: char, s: string, i: nat): nat
    requires i <= |s|
    decreases |s| - i
  {
    if i == |s| || s[i] == c then i else PlaceIn(c, s, i + 1)
  }

  function Place(c: char, upper: bool): nat {
    PlaceIn(c, if upper then UPPER else LOWER, 0)
  }

  /** The number that a text of digits says. */
  function ReadBack(text: string, upper: bool, base: nat): nat {
    if text == "" then 0
    else Times(ReadBack(text[..|text| - 1], upper, base), base) + Place(text[|text| - 1], upper)
  }

  /** Digits of the base, with no 0 in front. */
  predicate Numeral(text: string, upper: bool, base: nat) {
    && text != "" && (|text| > 1 ==> text[0] != '0')
    && forall i :: 0 <= i < |text| ==> Place(text[i], upper) < base
  }

  /** The field made of `pad` blanks, the sign and the number, or, padded with zeros, of the sign,
      the zeros and the number. */
  function Field(negative: bool, zero: bool, pad: nat, digits: string): string {
    var sign := if negative then "-" else "";
    if zero then sign + seq(pad, i => '0') + digits else seq(pad, i => ' ') + sign + digits
  }

  /** `out` is such a field for m, as wide as asked or as it must be. */
  predicate Shows(out: string, negative: bool, m: nat, base: nat, zero: bool, width: int, upper: bool,
                  pad: nat, digits: string)
  {
    var needed := |digits| + if negative then 1 else 0;
    && out == Field(negative, zero, pad, digits)
    && Numeral(digits, upper, base) && ReadBack(digits, upper, base) == m
    && |out| == if width > needed then width else needed
  }

  ghost predicate Shown(out: string, negative: bool, m: nat, base: nat, zero: bool, width: int, upper: bool) {
    exists pad: nat, digits: string :: Shows(out, negative, m, base, zero, width, upper, pad, digits)
  }

  ghost predicate Printed(out: string, v: word, base: nat, signed: bool, zero: bool, width: int, upper: bool) {
    var negative := signed && v >= 0x8000_0000;
    Shown(out, negative, if negative then WORD - v else v, base, zero, width, upper)
  }

  lemma PlaceOfDigit(d: nat, upper: bool)
    requires d < 16
    ensures Place(DigitChar(d, upper), upper) == d
    ensures d > 0 ==> DigitChar(d, upper) != '0'
  {
    PlaceFound(DigitChar(d, upper), if upper then UPPER else LOWER, 0, d);
  }

  lemma {:induction false} PlaceFound(c: char, s: string, i: nat, k: nat)
    requires i <= k < |s| && s[k] == c && forall j :: i <= j < k ==> s[j] != c
    ensures PlaceIn(c, s, i) == k
    decreases k - i
  {
    if i < k { PlaceFound(c, s, i + 1, k); }
  }

  lemma TextLast(d: seq<nat>, upper: bool)
    requires d != [] && forall i :: 0 <= i < |d| ==> d[i] < 16
    ensures var n := |d| - 1; Text(d, upper)[..n] == Text(d[..n], upper) && Text(d, upper)[n] == DigitChar(d[n], upper)
  {
  }

  lemma {:induction false} TextReads(d: seq<nat>, upper: bool, base: nat)
    requires base <= 16 && forall i :: 0 <= i < |d| ==> d[i] < base
    ensures ReadBack(Text(d, upper), upper, base) == Parse(d, base)
    decreases |d|
  {
    if d != [] {
      var n := |d| - 1;
      TextReads(d[..n], upper, base);
      PlaceOfDigit(d[n], upper);
      TextLast(d, upper);
    }
  }

  lemma PlacesOf(d: seq<nat>, upper: bool, base: nat)
    requires base <= 16 && forall i :: 0 <= i < |d| ==> d[i] < base
    ensures forall i :: 0 <= i < |d| ==> Place(Text(d, upper)[i], upper) < base
  {
    forall i | 0 <= i < |d| ensures Place(Text(d, upper)[i], upper) < base {
      PlaceOfDigit(d[i], upper);
    }
  }

  lemma NumberReads(m: nat, base: nat, upper: bool)
    requires 1 < base <= 16
    ensures Numeral(Number(m, base, upper), upper, base) && ReadBack(Number(m, base, upper), upper, base) == m
  {
    var d := Digits(m, base, Count(m, base));
    NumberMeans(m, base);
    TextReads(d, upper, base);
    PlacesOf(d, upper, base);
    PlaceOfDigit(d[0], upper);
  }

  lemma PrefixIsField(negative: bool, zero: bool, room: int, pad: nat, digits: string)
    requires pad == if room > (if negative then 1 else 0) then room - (if negative then 1 else 0) else 0
    ensures Prefix(negative, zero, room) + digits == Field(negative, zero, pad, digits)
  {
    assert Rep('0', pad) == seq(pad, i => '0') && Rep(' ', pad) == seq(pad, i => ' ');
  }

  lemma PrefixShows(out: string, negative: bool, m: nat, base: nat, zero: bool, width: int, upper: bool)
    requires 1 < base <= 16
    requires var digits := Number(m, base, upper); out == Prefix(negative, zero, width - |digits|) + digits
    ensures Shown(out, negative, m, base, zero, width, upper)
  {
    var digits := Number(m, base, upper);
    var room, sign := width - |digits|, if negative then 1 else 0;
    var pad: nat := if room > sign then room - sign else 0;
    NumberReads(m, base, upper);
    PrefixIsField(negative, zero, room, pad, digits);
    assert Shows(out, negative, m, base, zero, width, upper, pad, digits);
  }

  // ---------------------------------------------------------------- the printers

  /** (v & (0xF << 4k)) >> 4k. */
  function Nibble(v: nat, k: nat): (d: nat)
    ensures d < 16
  {
    Rem(Quot(v, Pow(16, k)), 16)
  }

  lemma NibbleZero(v: nat, k: nat)
    requires v < Pow(16, k + 1)
    ensures Nibble(v, k) == 0 <==> v < Pow(16, k)
  {
    var p := Pow(16, k);
    Commute(p, 16);
    QuotSmaller(v, p, 16);
    SmallRem(Quot(v, p), 16);
    if v >= p { QuotPositive(v, p); }
  }

  lemma NibbleIsDigit(v: nat, k: nat)
    ensures Digits(Rem(v, Pow(16, k + 1)), 16, k + 1) == [Nibble(v, k)] + Digits(Rem(v, Pow(16, k)), 16, k)
  {
    var p := Pow(16, k);
    Commute(p, 16);
    DivTwice(v, p, 16);
    TopDigit(Rem(v, Pow(16, k + 1)), 16, k + 1);
    SmallRem(Nibble(v, k), 16);
  }

  /** The last j hexadecimal digits of v. */
  function HexTail(v: nat, j: nat): string {
    Text(Digits(Rem(v, Pow(16, j)), 16, j), false)
  }

  lemma NextHexDigit(out: string, v: nat, j: nat)
    ensures out + HexTail(v, j + 1) == out + [DigitChar(Nibble(v, j), false)] + HexTail(v, j)
  {
    var rest, all := Digits(Rem(v, Pow(16, j)), 16, j), Digits(Rem(v, Pow(16, j + 1)), 16, j + 1);
    NibbleIsDigit(v, j);
    TextFirst(out, Nibble(v, j), rest, all, false);
  }

  /** The first loop of the %x of alt_printf: the highest digit that is not 0. */
  method FirstNibble(v: word) returns (k: nat)
    requires v > 0
    ensures k <= 7 && Pow(16, k) <= v < Pow(16, k + 1)
  {
    PowerOf16();
    k := 7;
    while Nibble(v, k) == 0
      invariant 0 <= k <= 7 && v < Pow(16, k + 1)
      decreases k
    {
      NibbleZero(v, k);
      assert k > 0 by { assert Pow(16, 0) == 1; }
      k := k - 1;
      assert v < Pow(16, k + 1);
    }
    NibbleZero(v, k);
  }

  /** The %x of alt_printf prints what %x of alt_log_printf should, and that reads as the number. */
  method PrintHex(v: word) returns (out: string)
    ensures out == Formatted(v, 16, false, false, -1, false)
    ensures Printed(out, v, 16, false, false, -1, false)
  {
    if v == 0 {
      out := "0";
    } else {
      var k := FirstNibble(v);
      out := PrintNibbles(v, k);
    }
    Unpadded(v);
    PrefixShows(out, false, v, 16, false, -1, false);
  }

  lemma Unpadded(v: word)
    ensures var digits := Number(v, 16, false);
      Formatted(v, 16, false, false, -1, false) == digits == Prefix(false, false, -1 - |digits|) + digits
  {
  }

  /** Its second loop, from the highest digit on. */
  method PrintNibbles(v: word, k: nat) returns (out: string)
    requires Pow(16, k) <= v < Pow(16, k + 1)
    ensures out == Number(v, 16, false)
  {
    CountIs(v, 16, k + 1);
    SmallRem(v, Pow(16, k + 1));
    out := "";
    var j := k + 1;
    while j > 0
      invariant 0 <= j <= k + 1
      invariant out + HexTail(v, j) == Number(v, 16, false)
    {
      j := j - 1;
      var digit := Nibble(v, j);
      NextHexDigit(out, v, j);
      out := out + [DigitChar(digit, false)];
    }
  }

  lemma PowerOf16()
    ensures Pow(16, 8) == WORD
  {
    TimesIs(1, 16);
    assert Pow(16, 1) == 16;
    TimesIs(16, 16);
    assert Pow(16, 2) == 256;
    TimesIs(256, 16);
    assert Pow(16, 3) == 4096;
    TimesIs(4096, 16);
    assert Pow(16, 4) == 65536;
    TimesIs(65536, 16);
    assert Pow(16, 5) == 1048576;
    TimesIs(1048576, 16);
    assert Pow(16, 6) == 16777216;
    TimesIs(16777216, 16);
    assert Pow(16, 7) == 268435456;
    TimesIs(268435456, 16);
  }

  /** Counting the digits and finding the largest power of the base. */
  method CountDigits(v: word, base: nat) returns (count: nat, p: word)
    requires 1 < base <= 36
    ensures count == Count(v, base) && p == Pow(base, count - 1)
  {
    QuotIs(v, base);
    var shrink: nat := v / base;
    count, p := 1, 1;
    CountFits(v, base);
    while shrink > 0
      invariant count > 0 && p == Pow(base, count - 1)
      invariant Count(v, base) == if shrink == 0 then count else count + Count(shrink, base)
      decreases shrink
    {
      count := count + 1;
      PowMono(base, count - 1, Count(v, base) - 1);
      TimesIs(p, base);
      p := p * base;
      QuotIs(shrink, base);
      QuotLess(shrink, base);
      shrink := shrink / base;
    }
  }

  /** Dividing by ever smaller powers of the base prints the digits. */
  method PrintDigits(v: word, base: nat, top: word, upper: bool) returns (out: string)
    requires 1 < base <= 36 && top == Pow(base, Count(v, base) - 1)
    ensures out == Number(v, base, upper)
  {
    var u: nat, p: nat := v, top;
    ghost var n := Count(v, base);
    CountFits(v, base);
    out := "";
    while p > 0
      invariant if n == 0 then p == 0 else p == Pow(base, n - 1)
      invariant u < Pow(base, n) && out + Text(Digits(u, base, n), upper) == Number(v, base, upper)
      decreases p
    {
      DigitStep(u, base, n, p);
      var d: nat := u / p;
      TextFirst(out, d, Digits(Rem(u, p), base, n - 1), Digits(u, base, n), upper);
      out := out + [DigitChar(d, upper)];
      PowerStep(base, n, p);
      u, p := u % p, p / base;
      n := n - 1;
    }
    assert Text(Digits(u, base, 0), upper) == "";
  }

  lemma DigitStep(u: nat, base: nat, n: nat, p: nat)
    requires base > 1 && n > 0 && p == Pow(base, n - 1) && u < Pow(base, n)
    ensures u / p < base && u % p == Rem(u, p) < p
    ensures Digits(u, base, n) == [u / p] + Digits(Rem(u, p), base, n - 1)
  {
    QuotIs(u, p);
    Commute(p, base);
    QuotSmaller(u, p, base);
    SmallRem(Quot(u, p), base);
    TopDigit(u, base, n);
  }

  lemma PowerStep(base: nat, n: nat, p: nat)
    requires base > 1 && n > 0 && p == Pow(base, n - 1)
    ensures p / base == (if n == 1 then 0 else Pow(base, n - 2)) && p / base < p
  {
    QuotIs(p, base);
    QuotLess(p, base);
    if n > 1 { Unique(Pow(base, n - 2), 0, base); }
  }

  /** alt_log_repchar. */
  method Repeat(c: char, n: int) returns (out: string)
    ensures out == Rep(c, n)
  {
    out := "";
    var r := n;
    while r > 0
      invariant out == Rep(c, n - r) && (if n >= 0 then 0 <= r <= n else r == n)
    {
      out := out + [c];
      r := r - 1;
    }
  }

  /** Padding and sign, in a field that leaves `room` beside the digits. */
  method PrintPrefix(sign: bool, zero: bool, room: int) returns (out: string)
    ensures out == Prefix(sign, zero, room)
  {
    var field := room;
    out := "";
    if zero {
      if sign {
        out := "-";
        field := field - 1;
      }
      var pad := Repeat('0', field);
      out := out + pad;
    } else {
      if sign {
        field := field - 1;
      }
      out := Repeat(' ', field);
      if sign {
        out := out + "-";
      }
    }
  }

  /** The integer conversions of alt_log_private_printf. */
  method PrintInteger(value: word, base: nat, signed: bool, zero: bool, width: int, upper: bool) returns (out: string)
    requires base == 8 || base == 10 || base == 16
    ensures out == Formatted(value, base, signed, zero, width, upper)
    ensures Printed(out, value, base, signed, zero, width, upper)
  {
    var v, sign := value, false;
    if signed && v >= 0x8000_0000 {
      v, sign := WORD - v, true;
    }
    out := PrintField(v, sign, base, zero, width, upper);
    FieldIs(value, base, signed, zero, width, upper, v, sign);
    ShownIs(out, value, base, signed, zero, width, upper, v, sign);
  }

  lemma FieldIs(value: word, base: nat, signed: bool, zero: bool, width: int, upper: bool, v: word, sign: bool)
    requires 1 < base <= 16 && sign == Negative(value, signed) && v == Magnitude(value, signed)
    ensures var digits := Number(v, base, upper);
      Formatted(value, base, signed, zero, width, upper) == Prefix(sign, zero, width - |digits|) + digits
  {
  }

  lemma ShownIs(out: string, value: word, base: nat, signed: bool, zero: bool, width: int, upper: bool,
                v: word, sign: bool)
    requires sign == (signed && value >= 0x8000_0000) && v == (if sign then WORD - value else value)
    requires Shown(out, sign, v, base, zero, width, upper)
    ensures Printed(out, value, base, signed, zero, width, upper)
  {
  }

  /** The sign and size of the number are known: count its digits, pad, and print them. */
  method PrintField(v: word, sign: bool, base: nat, zero: bool, width: int, upper: bool) returns (out: string)
    requires base == 8 || base == 10 || base == 16
    ensures var digits := Number(v, base, upper); out == Prefix(sign, zero, width - |digits|) + digits
    ensures Shown(out, sign, v, base, zero, width, upper)
  {
    var count, p := CountDigits(v, base);
    out := PrintPrefix(sign, zero, width - count);
    var digits := PrintDigits(v, base, p, upper);
    out := out + digits;
    PrefixShows(out, sign, v, base, zero, width, upper);
  }
}
