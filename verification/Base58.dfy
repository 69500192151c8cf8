/** The search for version bytes that make every base-58 encoding of a class of payloads start with a
    chosen prefix. */
module Base58 {
  import opened ByteStrings

  const ALPHABET: string := "123456789ABCDEFGHJKLMNPQRSTUVWXYZabcdefghijkmnopqrstuvwxyz"

  // ---------------------------------------------------------------- words and numbers

  // The first position of a character from i on, or -1.
  function Position(letters: string, c: char, i: nat): int
    requires i <= |letters|
    decreases |letters| - i
  {
    if i == |letters| then -1 else if letters[i] == c then i else Position(letters, c, i + 1)
  }

  lemma {:induction false} PositionIs(letters: string, c: char, i: nat)
    requires i <= |letters|
    ensures Position(letters, c, i) == -1 ==> forall k :: i <= k < |letters| ==> letters[k] != c
    ensures Position(letters, c, i) != -1 ==>
      i <= Position(letters, c, i) < |letters| && letters[Position(letters, c, i)] == c
    decreases |letters| - i
  {
    if i < |letters| { PositionIs(letters, c, i + 1); }
  }

  function Find(c: char): int { Position(ALPHABET, c, 0) }

  // The digit of a letter is the one place it has in the alphabet; any other character has the digit -1.
  lemma {:induction false} FindIs(c: char)
    ensures Find(c) == -1 <==> c !in ALPHABET
    ensures Find(c) != -1 ==> 0 <= Find(c) < |ALPHABET| && ALPHABET[Find(c)] == c
  {
    PositionIs(ALPHABET, c, 0);
  }

  function Word(word: string): int {
    if word == "" then 0 else Word(word[..|word| - 1]) * 58 + Find(word[|word| - 1])
  }

  method B58Dec(word: string) returns (x: int)
    ensures x == Word(word)
  {
    x := 0;
    for i := 0 to |word|
      invariant x == Word(word[..i])
    {
      assert word[..i + 1][..i] == word[..i];
      x := x * 58;
      x := x + Find(word[i]);
    }
    assert word[..|word|] == word;
  }

  function Bytes(n: int): seq<nat> { if n <= 0 then [] else Bytes(n / 256) + [n % 256] }

  /** The bytes of a number: its base-256 digits, without a leading zero. */
  lemma {:induction false} BytesValue(n: nat)
    ensures Value(Bytes(n)) == n
    ensures forall k :: 0 <= k < |Bytes(n)| ==> Bytes(n)[k] < 256
    ensures n > 0 ==> |Bytes(n)| > 0 && Bytes(n)[0] > 0
  {
    if n > 0 {
      BytesValue(n / 256);
      var high := Bytes(n / 256);
      assert Bytes(n)[..|high|] == high;
    }
  }

  function Reversed(s: seq<nat>): (t: seq<nat>)
    ensures |t| == |s|
  {
    if s == [] then [] else Reversed(s[1..]) + [s[0]]
  }

  lemma {:induction false} ReversedAppend(s: seq<nat>, x: nat)
    ensures Reversed(s + [x]) == [x] + Reversed(s)
  {
    if s != [] {
      assert (s + [x])[1..] == s[1..] + [x];
      ReversedAppend(s[1..], x);
    } else {
      assert s + [x] == [x];
    }
  }

  method AsciiDec(val: int) returns (word: seq<nat>)
    ensures word == Bytes(val)
  {
    var digits: seq<nat> := [];
    var n := val;
    while n > 0
      invariant Bytes(n) + Reversed(digits) == Bytes(val)
      decreases n
    {
      ReversedAppend(digits, n % 256);
      assert Bytes(n / 256) + [n % 256] + Reversed(digits) == Bytes(n / 256) + ([n % 256] + Reversed(digits));
      digits := digits + [n % 256];
      n := n / 256;
    }
    word := Reversed(digits);
  }

  // ---------------------------------------------------------------- the search

  // The least multiple of 2^shift the search tries, before and after the correction.
  function LowFloor(target: int, t: int, m: nat): int
    requires m > 0
  {
    (target * t) / m
  }

  function Low(target: int, t: int, m: nat): int
    requires m > 0
  {
    var lo := LowFloor(target, t, m);
    lo + if lo == (lo / m) * m then 0 else 1
  }

  function High(target: int, t: int, m: nat): int
    requires m > 0
  {
    ((target + 1) * t - m + 1) / m
  }

  // The bits of a payload of the given length and its checksum of four bytes.
  function Bits(length: nat): nat { 8 * (length + 4) }

  // The search stops at this number of further digits.
  predicate Stops(target: int, shift: nat, digits: nat) {
    High(target, Pow(58, digits), Pow(2, shift)) >= Low(target, Pow(58, digits), Pow(2, shift))
  }

  // ---------------------------------------------------------------- the interval

  function Number(lo: int, m: int, p: int): int { lo * m + p }

  // Every number that starts with lo and goes on with any p below 2^shift is in the target interval.
  ghost predicate AllFit(target: int, t: int, m: nat, lo: int) {
    forall p {:trigger Number(lo, m, p)} :: 0 <= p < m ==> target * t <= Number(lo, m, p) < (target + 1) * t
  }

  // The product is even, so an odd number is not equal to it.
  lemma EvenProduct(a: int, t: int)
    requires t % 2 == 0
    ensures (a * t) % 2 == 0
  {
    var h := t / 2;
    assert a * t == 2 * (a * h);
  }

  lemma FloorBounds(x: int, m: nat)
    requires m > 0
    ensures (x / m) * m <= x < (x / m) * m + m
  {
    assert x == m * (x / m) + x % m;
  }

  lemma TimesMonotone(a: int, b: int, m: nat)
    requires a <= b
    ensures a * m <= b * m
  {
  }

  lemma UpperEnd(target: int, t: int, m: nat, lo: int)
    requires m > 0 && m % 2 == 0 && t % 2 == 0 && lo <= High(target, t, m)
    ensures lo * m + m <= (target + 1) * t
  {
    var top, h := (target + 1) * t, High(target, t, m);
    FloorBounds(top - m + 1, m);
    TimesMonotone(lo, h, m);
    EvenProduct(target + 1, t);
    EvenProduct(lo, m);
    Parity(lo * m, m, top);
  }

  lemma Parity(x: int, m: int, top: int)
    requires x % 2 == 0 && m % 2 == 0 && top % 2 == 0 && x <= top - m + 1
    ensures x + m <= top
  {
  }

  // The lower end is met unless the correction was skipped although the division was not exact.
  ghost predicate Sound(target: int, t: int, m: nat)
    requires m > 0
  {
    LowFloor(target, t, m) % m != 0 || (target * t) % m == 0
  }

  lemma Multiple(x: int, m: nat)
    requires m > 0
    ensures x == (x / m) * m <==> x % m == 0
  {
    assert x == m * (x / m) + x % m;
  }

  lemma LowerEnd(target: int, t: int, m: nat)
    requires m > 0
    ensures target * t <= Low(target, t, m) * m <==> Sound(target, t, m)
  {
    var x, q := target * t, LowFloor(target, t, m);
    FloorBounds(x, m);
    Multiple(q, m);
    Multiple(x, m);
    NextMultiple(q, m);
  }

  lemma NextMultiple(q: int, m: int)
    ensures (q + 1) * m == q * m + m
  {
  }

  /** Where the search stops, every payload and every checksum gives a number in the interval exactly
      when the quotient was not a multiple of 2^shift, or the division was exact. */
  lemma FitExactly(target: int, t: int, m: nat)
    requires m > 0 && m % 2 == 0 && t % 2 == 0 && High(target, t, m) >= Low(target, t, m)
    ensures AllFit(target, t, m, Low(target, t, m)) <==> Sound(target, t, m)
  {
    var lo := Low(target, t, m);
    LowerEnd(target, t, m);
    UpperEnd(target, t, m, lo);
    hide Low, High, Sound;
    assert Number(lo, m, 0) == lo * m;
  }

  // ---------------------------------------------------------------- the least version

  // The least version whose numbers are not below the interval: the quotient rounded up.
  ghost predicate RoundedUp(target: int, t: int, m: nat, lo: int) {
    (lo - 1) * m < target * t <= lo * m
  }

  // The correction is made exactly where rounding up needs it.
  ghost predicate Corrected(target: int, t: int, m: nat)
    requires m > 0
  {
    LowFloor(target, t, m) % m == 0 <==> (target * t) % m == 0
  }

  lemma RoundedUpIs(x: int, m: nat, lo: int)
    requires m > 0
    ensures (lo - 1) * m < x <= lo * m <==> lo == x / m + if x % m == 0 then 0 else 1
  {
    var q := x / m;
    FloorBounds(x, m);
    Multiple(x, m);
    NextMultiple(q, m);
    NextMultiple(q - 1, m);
    NextMultiple(lo - 1, m);
    var up := if x % m == 0 then q else q + 1;
    if lo < up { TimesMonotone(lo, up - 1, m); NextMultiple(up - 1, m); }
    if lo > up { TimesMonotone(up, lo - 1, m); }
  }

  /** The version the search tries is the rounded one exactly where the correction is right.  It is one too
      low where the correction is missing, and one too high where it is made for an exact division. */
  lemma LowExactly(target: int, t: int, m: nat)
    requires m > 0
    ensures RoundedUp(target, t, m, Low(target, t, m)) <==> Corrected(target, t, m)
    ensures RoundedUp(target, t, m, Low(target, t, m) + 1) <==> !Sound(target, t, m)
    ensures RoundedUp(target, t, m, Low(target, t, m) - 1) <==> Sound(target, t, m) && !Corrected(target, t, m)
  {
    var x, low := target * t, Low(target, t, m);
    Multiple(LowFloor(target, t, m), m);
    RoundedUpIs(x, m, low);
    RoundedUpIs(x, m, low + 1);
    RoundedUpIs(x, m, low - 1);
  }

  // All numbers of a version fit exactly if the first and the last do.
  lemma AllFitIs(target: int, t: int, m: nat, lo: int)
    requires m > 0
    ensures AllFit(target, t, m, lo) <==> target * t <= lo * m && lo * m + m <= (target + 1) * t
  {
    assert Number(lo, m, 0) == lo * m && Number(lo, m, m - 1) == lo * m + m - 1;
  }

  lemma HighExactly(target: int, t: int, m: nat, lo: int)
    requires m > 0 && m % 2 == 0 && t % 2 == 0
    ensures lo <= High(target, t, m) <==> lo * m + m <= (target + 1) * t
  {
    var top, h := (target + 1) * t, High(target, t, m);
    FloorBounds(top - m + 1, m);
    if lo <= h { UpperEnd(target, t, m, lo); }
    if lo > h {
      TimesMonotone(h + 1, lo, m);
      NextMultiple(h, m);
    }
  }

  // The least version with room for every payload and checksum.
  ghost predicate LeastFit(target: int, t: int, m: nat, lo: int) {
    AllFit(target, t, m, lo) && forall v :: v < lo ==> !AllFit(target, t, m, v)
  }

  lemma LeastFitIs(target: int, t: int, m: nat, lo: int)
    requires m > 0 && AllFit(target, t, m, lo)
    ensures LeastFit(target, t, m, lo) <==> RoundedUp(target, t, m, lo)
  {
    hide AllFit;
    AllFitIs(target, t, m, lo);
    AllFitIs(target, t, m, lo - 1);
    NextMultiple(lo - 1, m);
    forall v | v < lo && AllFit(target, t, m, v) ensures target * t <= (lo - 1) * m {
      AllFitIs(target, t, m, v);
      TimesMonotone(v, lo - 1, m);
    }
  }

  /** Where the search stops, its version is the least one that fits if and only if the correction is right. */
  lemma LeastExactly(target: int, t: int, m: nat)
    requires m > 0 && m % 2 == 0 && t % 2 == 0 && High(target, t, m) >= Low(target, t, m)
    ensures LeastFit(target, t, m, Low(target, t, m)) <==> Corrected(target, t, m)
  {
    var low := Low(target, t, m);
    FitExactly(target, t, m);
    LowExactly(target, t, m);
    hide Low, High, AllFit;
    if AllFit(target, t, m, low) { LeastFitIs(target, t, m, low); }
  }

  /** Where it goes on, no version fits, if the correction is right. */
  lemma NoneFits(target: int, t: int, m: nat, lo: int)
    requires m > 0 && m % 2 == 0 && t % 2 == 0 && High(target, t, m) < Low(target, t, m) && Corrected(target, t, m)
    ensures !AllFit(target, t, m, lo)
  {
    var low := Low(target, t, m);
    LowExactly(target, t, m);
    AllFitIs(target, t, m, lo);
    HighExactly(target, t, m, lo);
    hide Low, High, AllFit;
    if lo < low { TimesMonotone(lo, low - 1, m); }
  }

  // An exact division gives a version that is one higher than the least.
  lemma LateVersion(target: int, t: int, m: nat)
    requires m > 0 && m % 2 == 0 && t % 2 == 0 && High(target, t, m) >= Low(target, t, m)
    requires Sound(target, t, m) && !Corrected(target, t, m)
    ensures LeastFit(target, t, m, Low(target, t, m) - 1)
  {
    var low := Low(target, t, m);
    LowExactly(target, t, m);
    AllFitIs(target, t, m, low - 1);
    HighExactly(target, t, m, low - 1);
    hide Low, High, AllFit;
    LeastFitIs(target, t, m, low - 1);
  }

  // It happens: for this target, six more digits and an empty payload.
  lemma LateStop()
    ensures Stops(4294967296, Bits(0), 6)
    ensures !LeastFit(4294967296, Pow(58, 6), Pow(2, Bits(0)), Low(4294967296, Pow(58, 6), Pow(2, Bits(0))))
  {
    hide AllFit;
    ThirtyTwoBits();
    assert Pow(58, 6) == 38068692544;
    assert LowFloor(4294967296, 38068692544, 4294967296) == 38068692544;
    LeastExactly(4294967296, 38068692544, 4294967296);
  }

  lemma ThirtyTwoBits()
    ensures Pow(2, Bits(0)) == 4294967296
  {
    assert Pow(2, 0) == 1;
    EightMore(0);
    EightMore(8);
    EightMore(16);
    EightMore(24);
  }

  lemma FloorSigns(x: int, m: nat)
    requires m > 0
    ensures x >= 0 ==> x / m >= 0
    ensures 0 <= x < m ==> x / m == 0
  {
  }

  // A target interval that ends above 2^shift but starts below it stops the search at version zero.
  lemma ZeroVersion(target: int, t: int, m: nat)
    requires 0 < target * t < m <= (target + 1) * t + 1
    ensures High(target, t, m) >= Low(target, t, m) == 0
    ensures !AllFit(target, t, m, 0)
  {
    FloorSigns(target * t, m);
    FloorSigns((target + 1) * t - m + 1, m);
    assert Number(0, m, 0) == 0;
  }

  /** The condition is needed: for this target, one more digit and an empty payload the search stops
      with version zero, and the number zero is below the interval. */
  lemma UnsoundStop()
    ensures Stops(74051160, Bits(0), 1) && !AllFit(74051160, Pow(58, 1), Pow(2, Bits(0)), 0)
  {
    hide High, Low, AllFit;
    ThirtyTwoBits();
    assert Pow(58, 1) == 58 * Pow(58, 0);
    ZeroVersion(74051160, 58, 4294967296);
  }

  // ---------------------------------------------------------------- the search loop

  /** The first number of digits below the limit where the interval is not empty; without one, the
      last that was tried.  The version is the quotient rounded up, the least that fits, exactly where
      the correction is right, and no version fits at the digits passed over. */
  method ComputeVersionBytes(prefix: string, length: nat, limit: nat)
    returns (found: bool, size: nat, version: seq<nat>, ghost low: int)
    requires limit > 1
    ensures |prefix| < size < limit + |prefix|
    ensures found ==> Stops(Word(prefix), Bits(length), size - |prefix|)
    ensures forall d :: 1 <= d < size - |prefix| ==> !Stops(Word(prefix), Bits(length), d)
    ensures !found ==> forall d :: 1 <= d < limit ==> !Stops(Word(prefix), Bits(length), d)
    ensures version == Bytes(low) && low == Low(Word(prefix), Pow(58, size - |prefix|), Pow(2, Bits(length)))
    ensures Tried(Word(prefix), Pow(58, size - |prefix|), Pow(2, Bits(length)), low, found)
    ensures forall d, v {:trigger AllFit(Word(prefix), Pow(58, d), Pow(2, Bits(length)), v)}
      | 1 <= d < size - |prefix| && Corrected(Word(prefix), Pow(58, d), Pow(2, Bits(length))) ::
        !AllFit(Word(prefix), Pow(58, d), Pow(2, Bits(length)), v)
  {
    var target := B58Dec(prefix);
    var shift := Bits(length);
    hide Low, High, Pow, AllFit;
    var m := 1;
    while true
      invariant 1 <= m < limit
      invariant forall d :: 1 <= d < m ==> !Stops(target, shift, d)
      decreases limit - m
    {
      var lo, hi := Interval(target, m, shift);
      if hi >= lo || m + 1 == limit {
        version := AsciiDec(lo);
        found, size, low := hi >= lo, m + |prefix|, lo;
        TriedVersion(target, m, shift);
        forall d, v | 1 <= d < m && Corrected(target, Pow(58, d), Pow(2, shift))
          ensures !AllFit(target, Pow(58, d), Pow(2, shift), v)
        {
          PassedOver(target, d, shift, v);
        }
        return;
      }
      m := m + 1;
    }
  }

  // The ends of the interval of versions, for one number of digits.
  method Interval(target: int, digits: nat, shift: nat) returns (lo: int, hi: int)
    ensures lo == Low(target, Pow(58, digits), Pow(2, shift)) && hi == High(target, Pow(58, digits), Pow(2, shift))
  {
    var t, m := Pow(58, digits), Pow(2, shift);
    lo := target * t;
    lo := lo / m;
    lo := lo + if lo == (lo / m) * m then 0 else 1;
    hi := (target + 1) * t - m + 1;
    hi := hi / m;
  }

  // What is known of the version that was tried last.
  ghost predicate Tried(target: int, t: int, m: nat, low: int, found: bool)
    requires m > 0
  {
    && (RoundedUp(target, t, m, low) <==> Corrected(target, t, m))
    && (RoundedUp(target, t, m, low + 1) <==> !Sound(target, t, m))
    && (found ==> (AllFit(target, t, m, low) <==> Sound(target, t, m)))
    && (found ==> (LeastFit(target, t, m, low) <==> Corrected(target, t, m)))
  }

  lemma TriedVersion(target: int, d: nat, shift: nat)
    requires d > 0 && shift > 0
    ensures Tried(target, Pow(58, d), Pow(2, shift), Low(target, Pow(58, d), Pow(2, shift)), Stops(target, shift, d))
  {
    hide Low, High, Pow, AllFit;
    var t, m := Pow(58, d), Pow(2, shift);
    EvenPower(2, shift);
    EvenPower(58, d);
    LowExactly(target, t, m);
    if High(target, t, m) >= Low(target, t, m) {
      FitExactly(target, t, m);
      LeastExactly(target, t, m);
    }
  }

  lemma PassedOver(target: int, d: nat, shift: nat, v: int)
    requires d > 0 && shift > 0 && !Stops(target, shift, d) && Corrected(target, Pow(58, d), Pow(2, shift))
    ensures !AllFit(target, Pow(58, d), Pow(2, shift), v)
  {
    hide Low, High, Pow, AllFit;
    EvenPower(2, shift);
    EvenPower(58, d);
    NoneFits(target, Pow(58, d), Pow(2, shift), v);
  }

  // ---------------------------------------------------------------- encodings

  function Digits(n: nat): seq<nat> { if n == 0 then [] else Digits(n / 58) + [n % 58] }

  function Letter(d: nat): char { if d < |ALPHABET| then ALPHABET[d] else '?' }

  function Letters(ds: seq<nat>): (w: string)
    ensures |w| == |ds|
  {
    seq(|ds|, i requires 0 <= i < |ds| => Letter(ds[i]))
  }

  function LeadingZeros(data: seq<nat>): nat {
    if data == [] || data[0] != 0 then 0 else 1 + LeadingZeros(data[1..])
  }

  // The letter 1 for every leading zero byte, then the base-58 digits of the number.
  function Encode(data: seq<nat>): string {
    seq(LeadingZeros(data), _ => '1') + Letters(Digits(Value(data)))
  }

  // A number in the interval of t starts with the digits of t.
  lemma {:induction false} DigitsSplit(n: nat, t: nat, d: nat)
    requires t > 0 && t * Pow(58, d) <= n < (t + 1) * Pow(58, d)
    ensures |Digits(n)| == |Digits(t)| + d && Digits(t) <= Digits(n)
    decreases d
  {
    if d > 0 {
      NarrowInterval(n, t, Pow(58, d - 1));
      DigitsSplit(n / 58, t, d - 1);
    } else {
      assert n == t;
    }
  }

  lemma NarrowInterval(n: nat, t: nat, p: nat)
    requires t * (58 * p) <= n < (t + 1) * (58 * p)
    ensures t * p <= n / 58 < (t + 1) * p
  {
    assert t * (58 * p) == 58 * (t * p) && (t + 1) * (58 * p) == 58 * ((t + 1) * p);
  }

  // The prefix is made of letters and starts with one that is not the zero digit.
  predicate Proper(prefix: string) {
    prefix != "" && Find(prefix[0]) > 0 && forall i :: 0 <= i < |prefix| ==> Find(prefix[i]) >= 0
  }

  lemma {:induction false} WordDigits(word: string)
    requires Proper(word)
    ensures Word(word) > 0 && Letters(Digits(Word(word))) == word
  {
    var n := |word| - 1;
    var c, f := word[n], Find(word[n]);
    FindIs(c);
    AlphabetSize();
    var high := word[..n];
    if n == 0 {
      assert Word(word) == f;
      assert f / 58 == 0 && f % 58 == f;
      assert Digits(f) == [f];
    } else {
      WordDigits(high);
      var h := Word(high);
      assert (h * 58 + f) / 58 == h && (h * 58 + f) % 58 == f;
      assert Digits(Word(word)) == Digits(h) + [f];
    }
    assert word == high + [c];
  }

  lemma AlphabetSize()
    ensures |ALPHABET| == 58
  {
  }

  lemma EvenPower(b: nat, n: nat)
    requires b % 2 == 0 && n > 0
    ensures Pow(b, n) % 2 == 0
  {
    EvenProduct(Pow(b, n - 1), b);
  }

  // The number an encoding stands for, from the version bytes and the rest.
  lemma DataNumber(low: nat, rest: seq<nat>, length: nat)
    requires |rest| == length + 4 && forall k :: 0 <= k < |rest| ==> rest[k] < 256
    ensures Value(Bytes(low) + rest) == Number(low, Pow(2, Bits(length)), Value(rest))
    ensures Value(rest) < Pow(2, Bits(length))
  {
    hide Value, Pow;
    BytesValue(low);
    ValueAppend(Bytes(low), rest);
    ValueBound(rest);
    BytesAsBits(length + 4);
  }

  /** For every payload of the given length and every checksum: when the search stops after d digits
      and the version bytes are sound, the encoding starts with the prefix and its length is d more
      than the prefix's. */
  lemma EveryEncoding(prefix: string, length: nat, d: nat, payload: seq<nat>, checksum: seq<nat>)
    requires Proper(prefix) && d > 0 && Stops(Word(prefix), Bits(length), d)
    requires Sound(Word(prefix), Pow(58, d), Pow(2, Bits(length)))
    requires |payload| == length && |checksum| == 4
    requires forall k :: 0 <= k < length ==> payload[k] < 256
    requires forall k :: 0 <= k < 4 ==> checksum[k] < 256
    ensures var low := Low(Word(prefix), Pow(58, d), Pow(2, Bits(length)));
      low > 0 && var e := Encode(Bytes(low) + payload + checksum); prefix <= e && |e| == d + |prefix|
  {
    hide Low, High, Sound, Pow, Value;
    var target, t, m := Word(prefix), Pow(58, d), Pow(2, Bits(length));
    WordDigits(prefix);
    EvenPower(2, Bits(length));
    EvenPower(58, d);
    FitExactly(target, t, m);
    var low, rest := Low(target, t, m), payload + checksum;
    LowPositive(target, t, m, low);
    DataNumber(low, rest, length);
    assert Bytes(low) + payload + checksum == Bytes(low) + rest;
    var data := Bytes(low) + rest;
    assert target * t <= Number(low, m, Value(rest)) < (target + 1) * t;
    DigitsSplit(Value(data), target, d);
    BytesValue(low);
    assert LeadingZeros(data) == 0;
    LettersPrefix(Digits(target), Digits(Value(data)));
    assert Encode(data) == Letters(Digits(Value(data)));
  }

  lemma LowPositive(target: int, t: int, m: nat, lo: int)
    requires m > 0 && target > 0 && t > 0 && AllFit(target, t, m, lo)
    ensures lo > 0
  {
    assert Number(lo, m, 0) == lo * m;
    assert target * t > 0;
    if lo <= 0 { TimesMonotone(lo, 0, m); }
  }

  lemma LettersPrefix(a: seq<nat>, b: seq<nat>)
    requires a <= b
    ensures Letters(a) <= Letters(b)
  {
  }
}
