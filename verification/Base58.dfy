/** Base58 text of byte strings (Bitcoin alphabet), and the radix conversion
    it rests on. */
module Base58 {
  import opened Prelude

  type Alphabet = s: string | |s| == 58 witness seq(58, _ => '1')

  /** Digits and letters without 0, I, O and l. */
  const ALPHABET: Alphabet :=
    "123456789" + "ABCDEFGH" + "JKLMN" + "PQRSTUVWXYZ" + "abcdefghijk" + "mnopqrstuvwxyz"

  // ---------------------------------------------------------------------
  // Positional notation, least significant digit first.

  predicate DigitsBelow(ds: seq<nat>, base: nat) {
    forall i :: 0 <= i < |ds| ==> ds[i] < base
  }

  /** The number a little-endian digit string denotes. */
  function Denotes(ds: seq<nat>, base: nat): nat {
    if ds == [] then 0 else ds[0] + base * Denotes(ds[1..], base)
  }

  lemma DenotesCons(d: nat, rest: seq<nat>, base: nat)
    ensures Denotes([d] + rest, base) == d + base * Denotes(rest, base)
  {
    assert ([d] + rest)[1..] == rest;
  }

  /** The digits of `n`, with no zero in the most significant place. */
  function DigitsOf(n: nat, base: nat): (ds: seq<nat>)
    requires base >= 2
    ensures DigitsBelow(ds, base)
    ensures n > 0 ==> ds != []
    ensures ds != [] ==> ds[|ds| - 1] != 0
    decreases n
  {
    if n == 0 then []
    else
      DivisionShrinks(n, base);
      [n % base] + DigitsOf(n / base, base)
  }

  lemma DivisionShrinks(n: nat, base: nat)
    requires n > 0 && base >= 2
    ensures 0 <= n / base < n && 0 <= n % base < base
    ensures n == n % base + base * (n / base)
    ensures n / base > 0 || n % base > 0
  {
    var q, r := n / base, n % base;
    assert n == base * q + r;
    ProductAtLeast(base, q);
  }

  lemma ProductAtLeast(base: nat, q: nat)
    requires base >= 2
    ensures base * q >= 2 * q
  {
    assert base * q == 2 * q + (base - 2) * q;
  }

  lemma FirstDigit(n: nat, base: nat) returns (low: nat, high: nat)
    requires n > 0 && base >= 2
    ensures low < base && high < n && n == low + base * high
    ensures DigitsOf(n, base) == [low] + DigitsOf(high, base)
  {
    DivisionShrinks(n, base);
    low, high := n % base, n / base;
  }

  lemma {:induction false} DigitsDenote(n: nat, base: nat)
    requires base >= 2
    ensures Denotes(DigitsOf(n, base), base) == n
    decreases n
  {
    if n > 0 {
      var low, high := FirstDigit(n, base);
      DigitsDenote(high, base);
      DenotesCons(low, DigitsOf(high, base), base);
    }
  }

  lemma AtLeastOnce(base: nat, k: int)
    requires k >= 1
    ensures base * k >= base
  {
  }

  /** Quotient and remainder are unique. */
  lemma QuotientUnique(base: nat, q: int, r: int, q': int, r': int)
    requires base * q + r == base * q' + r'
    requires 0 <= r < base && 0 <= r' < base
    ensures q == q' && r == r'
  {
    if q > q' {
      AtLeastOnce(base, q - q');
    } else if q < q' {
      AtLeastOnce(base, q' - q);
    }
  }

  /** Putting a digit in the least significant place. */
  lemma PrependDigit(d: nat, rest: nat, base: nat)
    requires base >= 2 && d < base
    requires d > 0 || rest > 0
    ensures d + base * rest > 0
    ensures DigitsOf(d + base * rest, base) == [d] + DigitsOf(rest, base)
  {
    var n := d + base * rest;
    if rest > 0 { AtLeastOnce(base, rest); }
    QuotientUnique(base, rest, d, n / base, n % base);
  }

  /** A digit string with no zero in the most significant place is the only
      one that denotes its number. */
  lemma {:induction false} CanonicalDigits(ds: seq<nat>, base: nat)
    requires base >= 2 && DigitsBelow(ds, base)
    requires ds != [] ==> ds[|ds| - 1] != 0
    ensures DigitsOf(Denotes(ds, base), base) == ds
  {
    if ds != [] {
      var d, rest := ds[0], ds[1..];
      CanonicalDigits(rest, base);
      var r := Denotes(rest, base);
      assert d > 0 || r > 0 by {
        if r == 0 { assert DigitsOf(r, base) == []; }
      }
      assert ds == [d] + rest;
      DenotesCons(d, rest, base);
      PrependDigit(d, r, base);
    }
  }

  // ---------------------------------------------------------------------
  // One pass of the carry loop: multiply by `mul` and add `carry`.

  /** What the carry loops of the encoder (mul 256, base 58) and of the
      decoder (mul 58, base 256) leave in the digit vector. */
  function MulAdd(ds: seq<nat>, mul: nat, base: nat, carry: nat): seq<nat>
    requires base >= 2
  {
    if ds == [] then DigitsOf(carry, base)
    else
      var t := carry + ds[0] * mul;
      [t % base] + MulAdd(ds[1..], mul, base, t / base)
  }

  lemma Distribute(d: nat, rest: nat, mul: nat, base: nat, carry: nat, low: nat, high: nat)
    requires carry + d * mul == low + base * high
    ensures (d + base * rest) * mul + carry == low + base * (rest * mul + high)
  {
    assert (base * rest) * mul == base * (rest * mul);
  }

  lemma {:induction false} MulAddDenotes(ds: seq<nat>, mul: nat, base: nat, carry: nat)
    requires base >= 2
    ensures DigitsBelow(MulAdd(ds, mul, base, carry), base)
    ensures Denotes(MulAdd(ds, mul, base, carry), base) == Denotes(ds, base) * mul + carry
  {
    if ds != [] {
      var low, high := MulAddUnfold(ds, mul, base, carry);
      var rest := MulAdd(ds[1..], mul, base, high);
      MulAddDenotes(ds[1..], mul, base, high);
      Distribute(ds[0], Denotes(ds[1..], base), mul, base, carry, low, high);
      DenotesCons(low, rest, base);
      DenotesCons(ds[0], ds[1..], base);
      assert ds == [ds[0]] + ds[1..];
    } else {
      DigitsDenote(carry, base);
    }
  }

  lemma MulAddUnfold(ds: seq<nat>, mul: nat, base: nat, carry: nat) returns (low: nat, high: nat)
    requires base >= 2 && ds != []
    ensures low < base && carry + ds[0] * mul == low + base * high
    ensures MulAdd(ds, mul, base, carry) == [low] + MulAdd(ds[1..], mul, base, high)
  {
    var t := carry + ds[0] * mul;
    low, high := t % base, t / base;
  }

  lemma {:induction false} MulAddTop(ds: seq<nat>, mul: nat, base: nat, carry: nat)
    requires base >= 2 && mul >= 1
    requires ds != [] ==> ds[|ds| - 1] != 0
    ensures var r := MulAdd(ds, mul, base, carry);
            (ds != [] ==> r != []) && (r != [] ==> r[|r| - 1] != 0)
  {
    if ds != [] {
      var low, high := MulAddUnfold(ds, mul, base, carry);
      MulAddTop(ds[1..], mul, base, high);
      if |ds| == 1 && high == 0 {
        AtLeastOnce(ds[0], mul);
        assert base * high == 0;
      }
    }
  }

  /** The carry loop maps the digits of n to the digits of n * mul + carry. */
  lemma MulAddIsMultiplication(n: nat, mul: nat, base: nat, carry: nat)
    requires base >= 2 && mul >= 1
    ensures MulAdd(DigitsOf(n, base), mul, base, carry) == DigitsOf(n * mul + carry, base)
  {
    DigitsDenote(n, base);
    MulAddCanonical(DigitsOf(n, base), mul, base, carry);
  }

  lemma MulAddCanonical(ds: seq<nat>, mul: nat, base: nat, carry: nat)
    requires base >= 2 && mul >= 1
    requires ds != [] ==> ds[|ds| - 1] != 0
    ensures MulAdd(ds, mul, base, carry) == DigitsOf(Denotes(ds, base) * mul + carry, base)
  {
    MulAddDenotes(ds, mul, base, carry);
    MulAddTop(ds, mul, base, carry);
    CanonicalDigits(MulAdd(ds, mul, base, carry), base);
  }

  // ---------------------------------------------------------------------
  // Byte strings as numbers, most significant byte first.

  function Reverse<T>(s: seq<T>): (r: seq<T>)
    ensures |r| == |s|
    ensures forall i :: 0 <= i < |s| ==> r[i] == s[|s| - 1 - i]
  {
    seq(|s|, i requires 0 <= i < |s| => s[|s| - 1 - i])
  }

  lemma ReverseTwice<T>(s: seq<T>)
    ensures Reverse(Reverse(s)) == s
  {
  }

  /** Horner's rule, as the outer loops run it. */
  function Value(s: seq<nat>, base: nat): nat {
    if s == [] then 0 else Value(s[..|s| - 1], base) * base + s[|s| - 1]
  }

  lemma {:induction false} ValueIsDenotesOfReverse(s: seq<nat>, base: nat)
    ensures Value(s, base) == Denotes(Reverse(s), base)
  {
    if s != [] {
      ValueIsDenotesOfReverse(s[..|s| - 1], base);
      assert Reverse(s)[1..] == Reverse(s[..|s| - 1]);
    }
  }

  function CountLeading<T(==)>(s: seq<T>, x: T): (n: nat)
    ensures n <= |s|
    ensures forall i :: 0 <= i < n ==> s[i] == x
    ensures n < |s| ==> s[n] != x
  {
    if s == [] || s[0] != x then 0 else 1 + CountLeading(s[1..], x)
  }

  /** A digit string is its leading zeros followed by the digits of its value:
      zeros carry no value and the rest is canonical. */
  lemma LeadingZerosThenDigits(s: seq<nat>, base: nat)
    requires base >= 2 && DigitsBelow(s, base)
    ensures s == Repeat(CountLeading(s, 0), 0) + Reverse(DigitsOf(Value(s, base), base))
  {
    var z := CountLeading(s, 0);
    var rest := s[z..];
    assert s == Repeat(z, 0) + rest;
    assert Value(s, base) == Denotes(Reverse(rest), base) by {
      LeadingZerosAreWorthless(z, rest, base);
      ValueIsDenotesOfReverse(rest, base);
    }
    CanonicalDigits(Reverse(rest), base);
    ReverseTwice(rest);
  }

  lemma {:induction false} LeadingZeroIsWorthless(s: seq<nat>, base: nat)
    requires s != [] && s[0] == 0
    ensures Value(s, base) == Value(s[1..], base)
  {
    if |s| > 1 {
      LeadingZeroIsWorthless(s[..|s| - 1], base);
      assert s[..|s| - 1][1..] == s[1..][..|s| - 2];
    }
  }

  lemma {:induction false} LeadingZerosAreWorthless(n: nat, s: seq<nat>, base: nat)
    ensures Value(Repeat(n, 0) + s, base) == Value(s, base)
  {
    var z: seq<nat> := Repeat(n, 0);
    if n == 0 {
      assert z + s == s;
    } else {
      LeadingZeroIsWorthless(z + s, base);
      assert (z + s)[1..] == Repeat(n - 1, 0) + s;
      LeadingZerosAreWorthless(n - 1, s, base);
    }
  }

  /** Leading zeros in front of digits whose first is not zero. */
  lemma {:induction false} CountLeadingExact<T>(n: nat, x: T, s: seq<T>)
    requires s == [] || s[0] != x
    ensures CountLeading(Repeat(n, x) + s, x) == n
  {
    var t := Repeat(n, x) + s;
    assert forall i :: 0 <= i < n ==> t[i] == x;
    assert |t| > n ==> t[n] == s[0];
  }

  /** Radix conversion that keeps the number of leading zeros. */
  function Convert(s: seq<nat>, from: nat, to: nat): (r: seq<nat>)
    requires to >= 2
    ensures DigitsBelow(r, to)
  {
    Repeat(CountLeading(s, 0), 0) + Reverse(DigitsOf(Value(s, from), to))
  }

  lemma ConvertKeeps(s: seq<nat>, from: nat, to: nat)
    requires to >= 2
    ensures CountLeading(Convert(s, from, to), 0) == CountLeading(s, 0)
    ensures Value(Convert(s, from, to), to) == Value(s, from)
  {
    var z, v := CountLeading(s, 0), Value(s, from);
    var ds := DigitsOf(v, to);
    CountLeadingExact(z, 0, Reverse(ds));
    assert Value(Reverse(ds), to) == v by {
      ValueIsDenotesOfReverse(Reverse(ds), to);
      ReverseTwice(ds);
      DigitsDenote(v, to);
    }
    LeadingZerosAreWorthless(z, Reverse(ds), to);
  }

  /** Converting back returns the digit string. */
  lemma ConvertBack(s: seq<nat>, from: nat, to: nat)
    requires from >= 2 && to >= 2 && DigitsBelow(s, from)
    ensures Convert(Convert(s, from, to), to, from) == s
  {
    ConvertKeeps(s, from, to);
    LeadingZerosThenDigits(s, from);
  }

  // ---------------------------------------------------------------------
  // The text form.

  /** `position`: the first index of `c` at or after `i`. */
  function Position<T(==)>(s: seq<T>, c: T, i: nat): (d: Option<nat>)
    requires i <= |s|
    ensures d.Some? ==> i <= d.value < |s| && s[d.value] == c && c !in s[i..d.value]
    ensures d.None? ==> c !in s[i..]
    decreases |s| - i
  {
    if i == |s| then None
    else if s[i] == c then Some(i)
    else Position(s, c, i + 1)
  }

  function Letter(d: nat): char
    requires d < 58
  {
    if d < 9 then '1' + d as char
    else if d < 17 then 'A' + (d - 9) as char
    else if d < 22 then 'J' + (d - 17) as char
    else if d < 33 then 'P' + (d - 22) as char
    else if d < 44 then 'a' + (d - 33) as char
    else 'm' + (d - 44) as char
  }

  lemma AlphabetAt(d: nat)
    requires d < 58
    ensures |ALPHABET| == 58 && ALPHABET[d] == Letter(d)
  {
    if d < 9 { assert "123456789"[d] == Letter(d); }
    else if d < 17 { assert "ABCDEFGH"[d - 9] == Letter(d); }
    else if d < 22 { assert "JKLMN"[d - 17] == Letter(d); }
    else if d < 33 { assert "PQRSTUVWXYZ"[d - 22] == Letter(d); }
    else if d < 44 { assert "abcdefghijk"[d - 33] == Letter(d); }
    else { assert "mnopqrstuvwxyz"[d - 44] == Letter(d); }
  }

  predicate IsLetter(c: char) {
    exists d: nat :: d < 58 && Letter(d) == c
  }

  /** No two digits share a letter. */
  ghost function LetterDigit(c: char): (d: nat)
    requires IsLetter(c)
    ensures d < 58 && Letter(d) == c
    ensures forall e: nat :: e < 58 && Letter(e) == c ==> e == d
  {
    var d: nat :| d < 58 && Letter(d) == c;
    d
  }

  /** The search in the alphabet finds a letter's digit and rejects the rest. */
  lemma SearchFindsDigit(c: char)
    ensures |ALPHABET| == 58
    ensures Position(ALPHABET, c, 0) == if IsLetter(c) then Some(LetterDigit(c)) else None
  {
    var p := Position(ALPHABET, c, 0);
    if p.Some? {
      AlphabetAt(p.value);
    }
    if IsLetter(c) {
      var d := LetterDigit(c);
      AlphabetAt(d);
      assert ALPHABET[d] in ALPHABET[0..];
    }
  }

  ghost predicate ValidText(s: string) {
    forall i :: 0 <= i < |s| ==> IsLetter(s[i])
  }

  function Letters(ds: seq<nat>): (s: string)
    requires DigitsBelow(ds, 58)
    ensures |s| == |ds|
    ensures forall i :: 0 <= i < |ds| ==> s[i] == Letter(ds[i])
  {
    seq(|ds|, i requires 0 <= i < |ds| => Letter(ds[i]))
  }

  ghost function LetterDigits(s: string): (ds: seq<nat>)
    requires ValidText(s)
    ensures |ds| == |s| && DigitsBelow(ds, 58)
    ensures Letters(ds) == s
  {
    seq(|s|, i requires 0 <= i < |s| => LetterDigit(s[i]))
  }

  lemma LetterDigitsOfLetters(ds: seq<nat>)
    requires DigitsBelow(ds, 58)
    ensures ValidText(Letters(ds)) && LetterDigits(Letters(ds)) == ds
  {
    var s := Letters(ds);
    forall i | 0 <= i < |ds| ensures IsLetter(s[i]) && LetterDigit(s[i]) == ds[i] {
      assert Letter(ds[i]) == s[i];
    }
  }

  /** '1' is the letter of the digit zero and of no other. */
  lemma {:induction false} LeadingOnes(ds: seq<nat>)
    requires DigitsBelow(ds, 58)
    ensures CountLeading(Letters(ds), '1') == CountLeading(ds, 0)
  {
    if ds != [] {
      LeadingOnes(ds[1..]);
      assert Letters(ds)[1..] == Letters(ds[1..]);
    }
  }

  /** The base58 text of a byte string. */
  function TextOf(bytes: seq<byte>): string {
    Letters(Convert(bytes, 256, 58))
  }

  /** The byte string a base58 text spells. */
  ghost function BytesOf(s: string): seq<byte>
    requires ValidText(s)
  {
    Convert(LetterDigits(s), 58, 256)
  }

  /** What `base58_decode` accepts: non-empty valid text of a 32-byte key. */
  ghost function KeyOf(s: string): Option<Bytes32> {
    if s == "" || !ValidText(s) then None
    else if |BytesOf(s)| == 32 then Some(BytesOf(s)) else None
  }

  /** Encoding then decoding returns any byte string, of any length. */
  lemma BytesRoundTrip(bytes: seq<byte>)
    ensures ValidText(TextOf(bytes)) && BytesOf(TextOf(bytes)) == bytes
  {
    LetterDigitsOfLetters(Convert(bytes, 256, 58));
    ConvertBack(bytes, 256, 58);
  }

  /** Decoding then encoding returns any text over the alphabet. */
  lemma TextRoundTrip(s: string)
    requires ValidText(s)
    ensures TextOf(BytesOf(s)) == s
  {
    ConvertBack(LetterDigits(s), 58, 256);
  }

  /** A string is accepted as a 32-byte key exactly when it is that key's
      encoding: decoding inverts encoding and accepts nothing but canonical
      text. */
  lemma KeyTextIsCanonical(s: string, key: Bytes32)
    ensures KeyOf(s) == Some(key) <==> s == TextOf(key)
  {
    BytesRoundTrip(key);
    if s == TextOf(key) {
      assert BytesOf(s) == key;
      assert Convert([], 58, 256) == [];
    }
    if KeyOf(s) == Some(key) {
      TextRoundTrip(s);
    }
  }

  // ---------------------------------------------------------------------
  // The loops.

  lemma OnesAreZeroLetters(z: nat, tail: seq<nat>)
    requires DigitsBelow(tail, 58)
    ensures Repeat(z, '1') + Letters(tail) == Letters(Repeat(z, 0) + tail)
  {
  }

  /** Inside the inner loop the carry stays below the multiplier: at most 255
      when encoding and at most 57 when decoding. */
  lemma CarryBound(carry: nat, digit: nat, mul: nat, base: nat)
    requires carry < mul && digit < base && base >= 2
    ensures (carry + digit * mul) / base < mul
    ensures carry + digit * mul < base * mul
  {
    Monotone(mul, digit + 1, base);
    var low, high := DivMod(carry + digit * mul, base);
    if high >= mul {
      Monotone(base, mul, high);
    }
  }

  lemma Monotone(a: nat, x: nat, y: nat)
    requires x <= y
    ensures a * x <= a * y
  {
  }

  lemma DivMod(n: nat, base: nat) returns (low: nat, high: nat)
    requires base >= 2
    ensures low < base && n == low + base * high && high == n / base
  {
    low, high := n % base, n / base;
  }

  lemma CarryStep(ds: seq<nat>, mul: nat, base: nat, carry: nat, i: nat)
    requires base >= 2 && i < |ds| && ds[i] < base && carry < mul
    ensures var t := carry + ds[i] * mul;
            && t >= 0 && 0 <= t / base < mul && 0 <= t % base
            && MulAdd(ds[i..], mul, base, carry) == [t % base] + MulAdd(ds[i + 1..], mul, base, t / base)
  {
    CarryBound(carry, ds[i], mul, base);
    assert ds[i..][1..] == ds[i + 1..];
  }

  /** The inner loop: run a carry through the digit vector in place. */
  method CarryLoop(ds: seq<nat>, mul: nat, base: nat, start: nat) returns (digits: seq<nat>, carry: nat)
    requires base >= 2 && start < mul && DigitsBelow(ds, base)
    ensures carry < mul
    ensures MulAdd(ds, mul, base, start) == digits + DigitsOf(carry, base)
  {
    digits, carry := ds, start;
    ghost var done: seq<nat> := [];
    assert ds[0..] == ds && [] + ds == ds;
    for i := 0 to |ds|
      invariant |done| == i && digits == done + ds[i..] && 0 <= carry < mul
      invariant MulAdd(ds, mul, base, start) == done + MulAdd(ds[i..], mul, base, carry)
    {
      var low, high := Carry(ds, mul, base, carry, i);
      Associate(done, [low], MulAdd(ds[i + 1..], mul, base, high));
      UpdateNext(done, ds[i..], low);
      assert ds[i..][1..] == ds[i + 1..];
      digits := digits[i := low];
      carry := high;
      done := done + [low];
    }
    assert ds[|ds|..] == [] && done + [] == done;
  }

  lemma UpdateNext(a: seq<nat>, b: seq<nat>, x: nat)
    requires b != []
    ensures (a + b)[|a| := x] == (a + [x]) + b[1..]
  {
  }

  method Carry(ds: seq<nat>, mul: nat, base: nat, carry: nat, i: nat) returns (digit: nat, next: nat)
    requires base >= 2 && i < |ds| && ds[i] < base && carry < mul
    ensures next < mul
    ensures MulAdd(ds[i..], mul, base, carry) == [digit] + MulAdd(ds[i + 1..], mul, base, next)
  {
    CarryStep(ds, mul, base, carry, i);
    var t := carry + ds[i] * mul;
    digit, next := t % base, t / base;
  }

  /** The loop after it: push what is left of the carry. */
  method PushCarry(ds: seq<nat>, left: nat, base: nat) returns (digits: seq<nat>)
    requires base >= 2
    ensures digits == ds + DigitsOf(left, base)
  {
    var carry: nat := left;
    digits := ds;
    while carry > 0
      invariant ds + DigitsOf(left, base) == digits + DigitsOf(carry, base)
      decreases carry
    {
      var low, high := SplitDigit(carry, base);
      digits := digits + [low];
      carry := high;
    }
  }

  method SplitDigit(n: nat, base: nat) returns (low: nat, high: nat)
    requires n > 0 && base >= 2
    ensures high < n && DigitsOf(n, base) == [low] + DigitsOf(high, base)
  {
    DivisionShrinks(n, base);
    low, high := n % base, n / base;
  }

  /** One iteration of the outer loops. */
  method MultiplyAdd(ds: seq<nat>, ghost n: nat, mul: nat, base: nat, value: nat) returns (digits: seq<nat>)
    requires base >= 2 && value < mul
    requires ds == DigitsOf(n, base)
    ensures digits == DigitsOf(n * mul + value, base)
  {
    MulAddIsMultiplication(n, mul, base, value);
    var carry: nat;
    digits, carry := CarryLoop(ds, mul, base, value);
    digits := PushCarry(digits, carry, base);
  }

  method LeadingCount<T(==)>(s: seq<T>, x: T) returns (n: nat)
    ensures n == CountLeading(s, x)
  {
    n := 0;
    while n < |s| && s[n] == x
      invariant n <= |s|
      invariant CountLeading(s, x) == n + CountLeading(s[n..], x)
    {
      n := n + 1;
    }
  }

  /** The outer loop of the encoder. */
  method ToBase58(bytes: seq<byte>) returns (digits: seq<nat>)
    ensures digits == DigitsOf(Value(bytes, 256), 58)
  {
    digits := [];
    ghost var value := 0;
    for i := 0 to |bytes|
      invariant value == Value(bytes[..i], 256)
      invariant digits == DigitsOf(value, 58)
    {
      ValueOfPrefix(bytes, i, 256);
      digits := MultiplyAdd(digits, value, 256, 58, bytes[i]);
      value := value * 256 + bytes[i] as int;
    }
    assert bytes[..|bytes|] == bytes;
  }

  lemma ValueOfPrefix(s: seq<nat>, i: nat, base: nat)
    requires i < |s|
    ensures Value(s[..i + 1], base) == Value(s[..i], base) * base + s[i]
  {
    assert s[..i + 1][..i] == s[..i];
  }

  method FindDigit(c: char) returns (idx: Option<nat>)
    ensures idx.Some? ==> idx.value < 58 && Letter(idx.value) == c
    ensures idx.None? ==> !IsLetter(c)
  {
    SearchFindsDigit(c);
    idx := Position(ALPHABET, c, 0);
  }

  lemma AppendDigit(ds: seq<nat>, d: nat, base: nat)
    ensures Value(ds + [d], base) == Value(ds, base) * base + d
  {
    assert (ds + [d])[..|ds|] == ds;
  }

  /** One character of the decoder's outer loop; `read` are the digits so far. */
  method ReadLetter(digits: seq<nat>, ghost read: seq<nat>, c: char) returns (next: Option<seq<nat>>, ghost d: nat)
    requires DigitsBelow(read, 58) && digits == DigitsOf(Value(read, 58), 256)
    ensures next.None? ==> !IsLetter(c)
    ensures next.Some? ==> d < 58 && Letter(d) == c && next.value == DigitsOf(Value(read + [d], 58), 256)
  {
    var idx := FindDigit(c);
    if idx.None? {
      return None, 0;
    }
    AppendDigit(read, idx.value, 58);
    var more := MultiplyAdd(digits, Value(read, 58), 58, 256, idx.value);
    return Some(more), idx.value;
  }

  lemma LettersAppend(ds: seq<nat>, d: nat)
    requires DigitsBelow(ds, 58) && d < 58
    ensures DigitsBelow(ds + [d], 58) && Letters(ds + [d]) == Letters(ds) + [Letter(d)]
  {
  }

  /** The outer loop of the decoder; a character outside the alphabet ends it. */
  method ToBase256(s: string) returns (bytes: Option<seq<nat>>, ghost read: seq<nat>)
    ensures bytes.None? ==> !ValidText(s)
    ensures bytes.Some? ==> DigitsBelow(read, 58) && Letters(read) == s
    ensures bytes.Some? ==> bytes.value == DigitsOf(Value(read, 58), 256)
  {
    var digits: seq<nat> := [];
    read := [];
    for i := 0 to |s|
      invariant DigitsBelow(read, 58) && Letters(read) == s[..i]
      invariant digits == DigitsOf(Value(read, 58), 256)
    {
      ghost var d: nat;
      var next;
      next, d := ReadLetter(digits, read, s[i]);
      if next.None? {
        return None, [];
      }
      LettersAppend(read, d);
      assert s[..i + 1] == s[..i] + [s[i]];
      digits, read := next.value, read + [d];
    }
    assert s[..|s|] == s;
    bytes := Some(digits);
  }

  /** Append the letters of a digit vector, most significant first. */
  method PushLetters(prefix: string, digits: seq<nat>) returns (result: string)
    requires DigitsBelow(digits, 58)
    ensures result == prefix + Letters(Reverse(digits))
  {
    result := prefix;
    for i := |digits| downto 0
      invariant result == prefix + Letters(Reverse(digits[i..]))
    {
      AlphabetAt(digits[i]);
      result := result + [ALPHABET[digits[i]]];
      assert digits[i..] == [digits[i]] + digits[i + 1..];
    }
    assert digits[0..] == digits;
  }

  method Push<T>(s: seq<T>, n: nat, x: T) returns (result: seq<T>)
    ensures result == s + Repeat(n, x)
  {
    result := s;
    for i := 0 to n
      invariant result == s + Repeat(i, x)
    {
      result := result + [x];
    }
  }

  lemma EmptyText()
    ensures TextOf([]) == []
  {
    assert Convert([], 256, 58) == [];
  }

  /** `base58_encode` */
  method Encode(bytes: seq<byte>) returns (result: string)
    ensures result == TextOf(bytes)
  {
    if bytes == [] {
      EmptyText();
      return [];
    }
    var zeros := LeadingCount(bytes, 0);
    var digits := ToBase58(bytes);
    var ones := Push([], zeros, '1');
    assert ones == Repeat(zeros, '1');
    result := PushLetters(ones, digits);
    OnesAreZeroLetters(zeros, Reverse(digits));
  }

  /** `base58_decode` */
  method Decode(s: string) returns (key: Option<Bytes32>)
    ensures key == KeyOf(s)
  {
    if s == "" {
      return None;
    }
    var digits: Option<seq<nat>>;
    ghost var read;
    digits, read := ToBase256(s);
    if digits.None? {
      return None;
    }
    LetterDigitsOfLetters(read);
    var zeros := LeadingCount(s, '1');
    var bytes := Push(digits.value, zeros, 0);
    bytes := Reverse(bytes);
    LeadingOnes(read);
    assert bytes == Repeat(zeros, 0) + Reverse(digits.value);
    key := if |bytes| == 32 then Some(bytes) else None;
  }
}
