/**
 * The short-code generator of `UrlShortenerUtil`: a fixed 58-symbol table,
 * positional conversion with radix 62 in both directions, and the two bounded
 * retry loops that look for a code the URL table does not hold yet.
 *
 * The repository's `existsByShortCode` is the set `existing` of codes stored
 * when the generator runs; `SecureRandom.nextInt(58)` is the sequence of
 * symbol indices it would draw, one sequence per attempt.
 */
module ShortCodeUtil {
  import opened Common

  const MaxAttempt: nat := 5
  const CodeLength: nat := 6

  /** The radix of both conversions; NOT the size of the symbol table. */
  const Radix: nat := 62

  /** Character code of the symbol at position `i`: six runs of consecutive codes. */
  function SymbolCode(i: nat): int {
    if i < 8 then 65 + i          // A..H
    else if i < 13 then 66 + i    // J..N
    else if i < 24 then 67 + i    // P..Z
    else if i < 35 then 73 + i    // a..k
    else if i < 49 then 74 + i    // m..z
    else i                        // 1..9
  }

  function SymbolChar(i: int): char
    requires 0 <= i < 58
  {
    SymbolCode(i) as char
  }

  function SymbolTable(): (s: string)
    ensures |s| == 58 && forall i :: 0 <= i < 58 ==> s[i] == SymbolChar(i)
  {
    seq(58, i requires 0 <= i < 58 => SymbolChar(i))
  }

  /** The symbol table `alphabet`: 58 symbols, position by position. */
  const Alphabet: string := SymbolTable()

  /** The table spelled out: the source's literal in six runs, with no I, O, l or 0. */
  lemma AlphabetText()
    ensures Alphabet == "ABCDEFGH" + "JKLMN" + "PQRSTUVWXYZ" + "abcdefghijk" + "mnopqrstuvwxyz" + "123456789"
  {
  }

  predicate CodeIsSymbol(k: int) {
    65 <= k <= 72 || 74 <= k <= 78 || 80 <= k <= 90 || 97 <= k <= 107 || 109 <= k <= 122 || 49 <= k <= 57
  }

  /** Membership in the table, decided on the character code. */
  predicate IsSymbol(c: char) {
    CodeIsSymbol(c as int)
  }

  function CodeIndex(k: int): int {
    if k <= 57 then k
    else if k <= 72 then k - 65
    else if k <= 78 then k - 66
    else if k <= 90 then k - 67
    else if k <= 107 then k - 73
    else k - 74
  }

  /** Position of a symbol in the table. */
  function SymbolIndex(c: char): (i: nat)
    requires IsSymbol(c)
    ensures i < 58 && SymbolChar(i) == c
  {
    CodeIndex(c as int)
  }

  /** `IsSymbol` is exactly membership in the table. */
  lemma IsSymbolIff(c: char)
    ensures IsSymbol(c) <==> c in Alphabet
  {
    if IsSymbol(c) {
      var i := SymbolIndex(c);
      assert Alphabet[i] == c;
    }
    if c in Alphabet {
      var i :| 0 <= i < |Alphabet| && Alphabet[i] == c;
      assert SymbolChar(i) == c;
    }
  }

  /** No symbol occurs twice in the table. */
  lemma AlphabetDistinct()
    ensures forall i, j :: 0 <= i < j < |Alphabet| ==> Alphabet[i] != Alphabet[j]
  {
    forall i, j | 0 <= i < j < |Alphabet|
      ensures Alphabet[i] != Alphabet[j]
    {
      assert Alphabet[i] as int == SymbolCode(i);
      assert Alphabet[j] as int == SymbolCode(j);
    }
  }

  /** `charToIndex`: each symbol mapped to its position in the table. */
  function CharToIndex(): (m: map<char, nat>)
    ensures forall c :: c in m <==> IsSymbol(c)
    ensures forall c :: IsSymbol(c) ==> m[c] == SymbolIndex(c)
    ensures forall i :: 0 <= i < |Alphabet| ==> Alphabet[i] in m && m[Alphabet[i]] == i
  {
    AlphabetDistinct();
    var m := map i | 0 <= i < |Alphabet| :: Alphabet[i] := i;
    forall c | IsSymbol(c)
      ensures c in m && m[c] == SymbolIndex(c)
    {
      assert Alphabet[SymbolIndex(c)] == c;
    }
    m
  }

  // ---------------------------------------------------------------------
  // Digits and symbols

  /** The base-62 digits of `n`, most significant first. */
  function Digits(n: nat): (ds: seq<nat>)
    requires n > 0
    ensures |ds| >= 1 && ds[0] != 0
    ensures forall i :: 0 <= i < |ds| ==> ds[i] < Radix
    decreases n
  {
    if n < Radix then [n] else Digits(n / Radix) + [n % Radix]
  }

  /** The number an MSB-first digit sequence denotes, with unbounded integers. */
  function Value(ds: seq<nat>): nat {
    if ds == [] then 0 else Value(ds[..|ds| - 1]) * Radix + ds[|ds| - 1]
  }

  function Pow(b: nat, k: nat): nat {
    if k == 0 then 1 else b * Pow(b, k - 1)
  }

  /** Every digit of `n` is a valid index into the 58-symbol table. */
  predicate Encodable(n: nat)
    requires n > 0
  {
    forall i :: 0 <= i < |Digits(n)| ==> Digits(n)[i] < |Alphabet|
  }

  predicate AllSymbols(ds: seq<nat>) {
    forall i :: 0 <= i < |ds| ==> ds[i] < |Alphabet|
  }

  predicate InAlphabet(s: string) {
    forall i :: 0 <= i < |s| ==> IsSymbol(s[i])
  }

  /** Digit sequence spelled with the table. */
  function Symbols(ds: seq<nat>): (s: string)
    requires AllSymbols(ds)
    ensures |s| == |ds| && InAlphabet(s)
  {
    seq(|ds|, i requires 0 <= i < |ds| => Alphabet[ds[i]])
  }

  /** Symbol string read back as digit positions. */
  function Indices(s: string): (ds: seq<nat>)
    requires InAlphabet(s)
    ensures |ds| == |s| && AllSymbols(ds)
  {
    var table := CharToIndex();
    seq(|s|, i requires 0 <= i < |s| => table[s[i]])
  }

  lemma {:induction false} ValueOfDigits(n: nat)
    requires n > 0
    ensures Value(Digits(n)) == n
    decreases n
  {
    if n >= Radix {
      ValueOfDigits(n / Radix);
      var ds := Digits(n);
      assert ds[..|ds| - 1] == Digits(n / Radix);
    }
  }

  /** `Digits(n)` has exactly as many digits as `n` has in base 62. */
  lemma {:induction false} DigitCount(n: nat)
    requires n > 0
    ensures Pow(Radix, |Digits(n)| - 1) <= n < Pow(Radix, |Digits(n)|)
    decreases n
  {
    if n >= Radix {
      var m := n / Radix;
      DigitCount(m);
      var k := |Digits(m)|;
      assert |Digits(n)| == k + 1;
      assert Pow(Radix, k) == Radix * Pow(Radix, k - 1);
      assert Pow(Radix, k + 1) == Radix * Pow(Radix, k);
      assert Radix * m <= n < Radix * (m + 1);
      assert m + 1 <= Pow(Radix, k);
    }
  }

  /** Distinct numbers have distinct digit sequences. */
  lemma DigitsInjective(a: nat, b: nat)
    requires a > 0 && b > 0 && Digits(a) == Digits(b)
    ensures a == b
  {
    ValueOfDigits(a);
    ValueOfDigits(b);
  }

  lemma IndicesOfSymbols(ds: seq<nat>)
    requires AllSymbols(ds)
    ensures Indices(Symbols(ds)) == ds
  {
  }

  // ---------------------------------------------------------------------
  // base10ToBase62

  /** Result of the conversion loop for a positive number. */
  function PositiveEncoding(n: nat): (r: Result<string>)
    requires n > 0
    ensures r.Success? <==> Encodable(n)
    ensures r.Success? ==> r.value == Symbols(Digits(n))
    ensures r.Failure? ==> r.error.SymbolIndexOutOfBounds? && |Alphabet| <= r.error.index < Radix
    decreases n
  {
    var d := n % Radix;
    if d >= |Alphabet| then
      assert Digits(n)[|Digits(n)| - 1] == d;
      Failure(SymbolIndexOutOfBounds(d))
    else if n < Radix then
      Success([Alphabet[d]])
    else
      match PositiveEncoding(n / Radix)
      case Failure(e) =>
        assert Digits(n)[..|Digits(n)| - 1] == Digits(n / Radix);
        Failure(e)
      case Success(s) =>
        assert Digits(n) == Digits(n / Radix) + [d];
        Success(s + [Alphabet[d]])
  }

  /**
   * What `base10ToBase62` returns or throws: "0" for zero, the empty string
   * for a negative number (the loop never runs), and otherwise the digits
   * spelled with the table, failing on a digit the table is too short for.
   */
  function Encoding(num: int): (r: Result<string>)
    ensures num == 0 ==> r == Success("0")
    ensures num < 0 ==> r == Success("")
    ensures num > 0 ==> (r.Success? <==> Encodable(num))
    ensures num > 0 && r.Success? ==> r.value == Symbols(Digits(num)) && InAlphabet(r.value)
    ensures r.Failure? ==> r.error.SymbolIndexOutOfBounds? && |Alphabet| <= r.error.index < Radix
  {
    if num == 0 then Success("0") else if num < 0 then Success("") else PositiveEncoding(num)
  }

  /** `StringBuilder.reverse`: the same characters, last first. */
  function Reversed(s: string): (r: string)
    ensures |r| == |s|
    ensures forall k :: 0 <= k < |s| ==> r[k] == s[|s| - 1 - k]
  {
    if s == [] then [] else [s[|s| - 1]] + Reversed(s[..|s| - 1])
  }

  function Append(r: Result<string>, t: string): Result<string> {
    match r
    case Success(s) => Success(s + t)
    case Failure(e) => Failure(e)
  }

  /** Proof step of `Base10ToBase62`: an empty builder adds nothing. */
  lemma AppendNothing(r: Result<string>)
    ensures Append(r, Reversed([])) == r
  {
    if r.Success? {
      assert r.value + [] == r.value;
    }
  }

  /** Proof step of `Base10ToBase62`: appending is associative. */
  lemma AppendStep(r: Result<string>, c: char, t: string)
    ensures Append(Append(r, [c]), t) == Append(r, [c] + t)
  {
    if r.Success? {
      assert (r.value + [c]) + t == r.value + ([c] + t);
    }
  }

  /** One turn of the conversion loop: the last digit is split off. */
  lemma PositiveEncodingStep(n: nat)
    requires n >= Radix && n % Radix < |Alphabet|
    ensures PositiveEncoding(n) == Append(PositiveEncoding(n / Radix), [Alphabet[n % Radix]])
  {
  }

  /** `base10ToBase62`: least significant symbol first into a builder, then reversed. */
  method Base10ToBase62(num: int) returns (r: Result<string>)
    ensures r == Encoding(num)
  {
    if num == 0 {
      return Success("0");
    }
    var n := num;
    var sb: string := [];
    AppendNothing(Encoding(num));
    while n > 0
      invariant num > 0 ==> n >= 0
      invariant num < 0 ==> n == num && sb == []
      invariant n > 0 ==> PositiveEncoding(num) == Append(PositiveEncoding(n), Reversed(sb))
      invariant num > 0 && n == 0 ==> PositiveEncoding(num) == Success(Reversed(sb))
      decreases n
    {
      var d := n % Radix;
      if d >= |Alphabet| {
        return Failure(SymbolIndexOutOfBounds(d));
      }
      assert Reversed(sb + [Alphabet[d]]) == [Alphabet[d]] + Reversed(sb) by {
        assert (sb + [Alphabet[d]])[..|sb|] == sb;
      }
      if n >= Radix {
        PositiveEncodingStep(n);
        AppendStep(PositiveEncoding(n / Radix), Alphabet[d], Reversed(sb));
      }
      sb := sb + [Alphabet[d]];
      n := n / Radix;
    }
    r := Success(Reversed(sb));
  }

  // ---------------------------------------------------------------------
  // base62ToBase10

  /** The `Long` the decoding loop accumulates: `result * 62 + value`, wrapping. */
  function LongValue(ds: seq<nat>): (v: int)
    ensures IsLong(v)
  {
    if ds == [] then 0 else WrapLong(LongValue(ds[..|ds| - 1]) * Radix + ds[|ds| - 1])
  }

  /** One wrapping step keeps the accumulation congruent to the exact value. */
  lemma WrapStepCongruent(prev: int, exact: int, d: int, wrapped: int, q: int, w: int)
    requires prev - exact == LongModulus * q
    requires prev * Radix + d - wrapped == LongModulus * w
    ensures (wrapped - (exact * Radix + d)) % LongModulus == 0
  {
    assert wrapped - (exact * Radix + d) == LongModulus * (q * Radix - w);
  }

  /** The wrapping accumulation is congruent to the exact value modulo 2^64, whatever the length. */
  lemma {:induction false} LongValueCongruent(ds: seq<nat>)
    ensures (LongValue(ds) - Value(ds)) % LongModulus == 0
    decreases |ds|
  {
    if ds != [] {
      var p := ds[..|ds| - 1];
      var d := ds[|ds| - 1];
      LongValueCongruent(p);
      var prev := LongValue(p);
      var exact := Value(p);
      var q := (prev - exact) / LongModulus;
      var w := (prev * Radix + d - MinLong) / LongModulus;
      assert LongValue(ds) == WrapLong(prev * Radix + d);
      assert Value(ds) == exact * Radix + d;
      WrapStepCongruent(prev, exact, d, LongValue(ds), q, w);
    }
  }

  lemma {:induction false} PrefixValue(ds: seq<nat>, k: nat)
    requires k <= |ds|
    ensures Value(ds[..k]) <= Value(ds)
    decreases |ds|
  {
    if k < |ds| {
      assert ds[..|ds| - 1][..k] == ds[..k];
      PrefixValue(ds[..|ds| - 1], k);
    } else {
      assert ds[..k] == ds;
    }
  }

  /** Without overflow the `Long` accumulation is the exact value. */
  lemma {:induction false} LongValueExact(ds: seq<nat>)
    requires Value(ds) <= MaxLong
    ensures LongValue(ds) == Value(ds)
    decreases |ds|
  {
    if ds != [] {
      var p := ds[..|ds| - 1];
      PrefixValue(ds, |ds| - 1);
      LongValueExact(p);
    }
  }

  /** Reading one more symbol extends the digit positions by that symbol's. */
  lemma IndicesSnoc(s: string, i: nat)
    requires i < |s| && InAlphabet(s[..i]) && IsSymbol(s[i])
    ensures InAlphabet(s[..i + 1])
    ensures LongValue(Indices(s[..i + 1])) == WrapLong(LongValue(Indices(s[..i])) * Radix + CharToIndex()[s[i]])
  {
    assert s[..i + 1] == s[..i] + [s[i]];
    var ds := Indices(s[..i + 1]);
    assert ds[..i] == Indices(s[..i]);
  }

  /**
   * `base62ToBase10`: left to right, failing on the first character that is
   * not in the table; the empty string gives 0.
   */
  method Base62ToBase10(s: string) returns (r: Result<int>)
    ensures r.Success? <==> InAlphabet(s)
    ensures r.Failure? ==> exists k :: 0 <= k < |s| && r == Failure(InvalidBase62Character(s[k]))
                                       && !IsSymbol(s[k]) && InAlphabet(s[..k])
    ensures r.Success? ==> r.value == LongValue(Indices(s)) && IsLong(r.value)
    ensures r.Success? && Value(Indices(s)) <= MaxLong ==> r.value == Value(Indices(s))
    ensures s == [] ==> r == Success(0)
  {
    var table := CharToIndex();
    var result := 0;
    for i := 0 to |s|
      invariant InAlphabet(s[..i])
      invariant result == LongValue(Indices(s[..i]))
    {
      if s[i] !in table {
        assert !IsSymbol(s[i]) && InAlphabet(s[..i]);
        return Failure(InvalidBase62Character(s[i]));
      }
      IndicesSnoc(s, i);
      result := WrapLong(result * Radix + table[s[i]]);
    }
    assert s[..|s|] == s;
    r := Success(result);
    if Value(Indices(s)) <= MaxLong {
      LongValueExact(Indices(s));
    }
  }

  /**
   * Decoding undoes encoding: for every positive `Long` whose digits the
   * table can spell, the encoded code consists of table symbols and reads
   * back as the number.
   */
  lemma DecodeEncode(n: int)
    requires 0 < n <= MaxLong && Encodable(n)
    ensures Encoding(n).Success? && InAlphabet(Encoding(n).value)
    ensures LongValue(Indices(Encoding(n).value)) == n
  {
    var ds := Digits(n);
    IndicesOfSymbols(ds);
    ValueOfDigits(n);
    LongValueExact(ds);
  }

  /** Encoding is injective on positive numbers it can encode. */
  lemma EncodingInjective(a: int, b: int)
    requires a > 0 && b > 0
    requires Encoding(a).Success? && Encoding(b).Success? && Encoding(a).value == Encoding(b).value
    ensures a == b
  {
    IndicesOfSymbols(Digits(a));
    IndicesOfSymbols(Digits(b));
    DigitsInjective(a, b);
  }

  /**
   * `base10ToBase62(0)` is "0", which is not a symbol of the table, so
   * `base62ToBase10` rejects it instead of reading back 0.
   */
  lemma ZeroDoesNotRoundTrip()
    ensures Encoding(0) == Success("0")
    ensures !IsSymbol('0') && '0' !in Alphabet
    ensures !InAlphabet(Encoding(0).value)
  {
    IsSymbolIff('0');
    assert Encoding(0).value[0] == '0';
  }

  /** A positive number's code never starts with the table's zero symbol `A`. */
  lemma NoLeadingZeroSymbol(n: int)
    requires n > 0 && Encoding(n).Success?
    ensures Encoding(n).value[0] != Alphabet[0]
    ensures |Encoding(n).value| == |Digits(n)|
  {
    AlphabetDistinct();
  }

  /**
   * 58 is a single base-62 digit past the end of the 58-symbol table: the
   * first positive number whose encoding indexes outside the table.
   */
  lemma FiftyEightIsNotEncodable()
    ensures !Encodable(58) && Encoding(58) == Failure(SymbolIndexOutOfBounds(58))
    ensures forall n :: 0 < n < 58 ==> Encodable(n)
  {
    assert Digits(58) == [58];
    forall n | 0 < n < 58
      ensures Encodable(n)
    {
      assert Digits(n) == [n];
    }
  }

  // ---------------------------------------------------------------------
  // generateUniqueShortCode

  /**
   * `generateUniqueShortCode(length, maxAttempts)`: attempt `k` spells the
   * indices `draws[k]`; the first candidate the store does not hold is
   * returned; after `maxAttempts` held candidates the generator gives up.
   */
  method GenerateRandomShortCode(length: nat, maxAttempts: nat, draws: seq<seq<nat>>, existing: set<string>)
    returns (r: Result<string>)
    requires |draws| >= maxAttempts
    requires forall k :: 0 <= k < |draws| ==> |draws[k]| == length && AllSymbols(draws[k])
    ensures r.Success? ==> |r.value| == length && InAlphabet(r.value) && r.value !in existing
    ensures r.Success? ==> exists k :: 0 <= k < maxAttempts && r.value == Symbols(draws[k])
                                     && forall j :: 0 <= j < k ==> Symbols(draws[j]) in existing
    ensures r.Failure? <==> forall k :: 0 <= k < maxAttempts ==> Symbols(draws[k]) in existing
    ensures r.Failure? ==> r.error == GenerationExhausted(maxAttempts)
  {
    for attempt := 0 to maxAttempts
      invariant forall j :: 0 <= j < attempt ==> Symbols(draws[j]) in existing
    {
      var shortCode := Symbols(draws[attempt]);
      if shortCode !in existing {
        return Success(shortCode);
      }
    }
    r := Failure(GenerationExhausted(maxAttempts));
  }

  /** `generateUniqueShortCode()` with its default arguments: six symbols, five attempts. */
  method GenerateDefaultShortCode(draws: seq<seq<nat>>, existing: set<string>) returns (r: Result<string>)
    requires |draws| >= MaxAttempt
    requires forall k :: 0 <= k < |draws| ==> |draws[k]| == CodeLength && AllSymbols(draws[k])
    ensures r.Success? ==> |r.value| == CodeLength && InAlphabet(r.value) && r.value !in existing
    ensures r.Failure? <==> forall k :: 0 <= k < MaxAttempt ==> Symbols(draws[k]) in existing
    ensures r.Failure? ==> r.error == GenerationExhausted(MaxAttempt)
  {
    r := GenerateRandomShortCode(CodeLength, MaxAttempt, draws, existing);
  }

  /**
   * What `generateUniqueShortCode(sequence, maxAttempts)` returns or throws.
   * Every attempt encodes the same sequence value, so the outcome is decided
   * by the first one: that code when the store does not hold it, the
   * encoding's own failure, or exhaustion after `maxAttempts` identical
   * rejections (at once when `maxAttempts` is 0). It never gives a held code.
   */
  function SequentialCode(sequence: int, maxAttempts: nat, existing: set<string>): (r: Result<string>)
    ensures r.Success? <==> maxAttempts > 0 && Encoding(sequence).Success? && Encoding(sequence).value !in existing
    ensures r.Success? ==> r == Encoding(sequence) && r.value !in existing
    ensures maxAttempts > 0 && Encoding(sequence).Failure? ==> r == Encoding(sequence)
    ensures (maxAttempts == 0 || (Encoding(sequence).Success? && Encoding(sequence).value in existing))
            ==> r == Failure(GenerationExhausted(maxAttempts))
  {
    if maxAttempts == 0 then Failure(GenerationExhausted(0))
    else
      match Encoding(sequence)
      case Failure(e) => Failure(e)
      case Success(code) => if code !in existing then Success(code) else Failure(GenerationExhausted(maxAttempts))
  }

  /** The retry loop of the sequence overload; each turn recomputes the same candidate. */
  method GenerateSequentialShortCode(sequence: int, maxAttempts: nat, existing: set<string>)
    returns (r: Result<string>)
    ensures r == SequentialCode(sequence, maxAttempts, existing)
  {
    for attempt := 0 to maxAttempts
      invariant attempt > 0 ==> Encoding(sequence).Success? && Encoding(sequence).value in existing
    {
      var shortCode := Base10ToBase62(sequence);
      if shortCode.Failure? {
        return shortCode;
      }
      if shortCode.value !in existing {
        return shortCode;
      }
    }
    r := Failure(GenerationExhausted(maxAttempts));
  }
}
