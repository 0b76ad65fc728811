/** The difficulty and time estimate shown before a search: the chance that
    one random address satisfies the pattern, its reciprocal (the expected
    number of attempts), the attempt rate and the expected time. The
    probability is kept as an exact fraction instead of a float. */
module Estimate {

  /** A character the estimate gives a chance of 2/58 when the search is not
      case-sensitive: a letter of the class [a-hj-km-np-z] in either case,
      that is every letter but i, l and o. */
  predicate IsCasePair(c: char) {
    ('a' <= c <= 'h') || ('j' <= c <= 'k') || ('m' <= c <= 'n') || ('p' <= c <= 'z') ||
    ('A' <= c <= 'H') || ('J' <= c <= 'K') || ('M' <= c <= 'N') || ('P' <= c <= 'Z')
  }

  /** The case-pair characters are exactly the ASCII letters other than
      i, l and o (in either case); digits are never case pairs. */
  lemma CasePairLetters(c: char)
    ensures IsCasePair(c) <==> (('a' <= c <= 'z') || ('A' <= c <= 'Z')) && c !in "iIlLoO"
    ensures '0' <= c <= '9' ==> !IsCasePair(c)
  {
  }

  function Pow(b: nat, e: nat): (r: nat)
    ensures b >= 1 ==> r >= 1
  {
    if e == 0 then 1 else b * Pow(b, e - 1)
  }

  /** How many characters of `s` get the chance 2/58. */
  function Pairs(s: string): (k: nat)
    ensures k <= |s|
  {
    if s == [] then 0
    else Pairs(s[..|s| - 1]) + (if IsCasePair(s[|s| - 1]) then 1 else 0)
  }

  /** The number of characters given the chance 2/58. */
  function Doubled(s: string, caseSensitive: bool): (k: nat)
    ensures k <= |s|
  {
    if caseSensitive then 0 else Pairs(s)
  }

  /** The difficulty in closed form: 58^n / 2^k = 29^k * 58^(n-k), with n the
      pattern length and k the number of characters with chance 2/58. */
  function Difficulty(s: string, caseSensitive: bool): nat {
    var k := Doubled(s, caseSensitive);
    Pow(29, k) * Pow(58, |s| - k)
  }

  /** The combined attempt rate of `threads` threads. */
  function Rate(speedPerThread: real, threads: int): real {
    speedPerThread * threads as real
  }

  /** The expected time in seconds: the difficulty over the rate, and 0
      where that quotient is Infinity. */
  function ExpectedTime(difficulty: nat, rate: real): (t: real)
    ensures rate == 0.0 ==> t == 0.0
    ensures rate != 0.0 ==> t * rate == difficulty as real
    ensures rate > 0.0 ==> t >= 0.0
  {
    if rate == 0.0 then 0.0 else difficulty as real / rate
  }

  datatype Estimate = Estimate(difficulty: nat, attemptsPerSecond: int, expectedTimeSeconds: real)

  lemma MulCommutesLeft(a: int, b: int, c: int)
    ensures a * (b * c) == b * (a * c)
  {
  }

  lemma MulAtLeast(b: int, x: int)
    requires b > 0 && x >= 1
    ensures b * x >= b
  {
  }

  /** An exact quotient. */
  lemma DivExact(a: nat, b: nat, q: nat)
    requires b > 0 && a == b * q
    ensures a / b == q
  {
    var r, m := a / b, a % b;
    assert a == b * r + m && 0 <= m < b;
    assert b * (q - r) == m;
    if q - r >= 1 {
      MulAtLeast(b, q - r);
    } else if q - r <= -1 {
      MulAtLeast(b, r - q);
    }
  }

  lemma {:induction false} PowAdd(b: nat, m: nat, n: nat)
    ensures Pow(b, m + n) == Pow(b, m) * Pow(b, n)
  {
    if n > 0 {
      PowAdd(b, m, n - 1);
      calc {
        Pow(b, m + n);
        b * Pow(b, m + (n - 1));
        b * (Pow(b, m) * Pow(b, n - 1));
        { MulCommutesLeft(b, Pow(b, m), Pow(b, n - 1)); }
        Pow(b, m) * (b * Pow(b, n - 1));
      }
    }
  }

  lemma {:induction false} PowMul(a: nat, b: nat, n: nat)
    ensures Pow(a * b, n) == Pow(a, n) * Pow(b, n)
  {
    if n > 0 {
      PowMul(a, b, n - 1);
      calc {
        Pow(a * b, n);
        (a * b) * (Pow(a, n - 1) * Pow(b, n - 1));
        (a * Pow(a, n - 1)) * (b * Pow(b, n - 1));
      }
    }
  }

  /** 58^n is exactly 2^k times the closed form, so the division that turns
      the probability 2^k / 58^n into a difficulty has no remainder. */
  lemma CancelTwos(n: nat, k: nat)
    requires k <= n
    ensures Pow(58, n) == Pow(2, k) * (Pow(29, k) * Pow(58, n - k))
  {
    PowAdd(58, k, n - k);
    PowMul(2, 29, k);
  }

  /** `estimate`: multiply the probability once per character of the
      pattern, then derive difficulty, rate and expected time.
      `speedPerThread` is the benchmarked single-thread rate. */
  method Compute(prefix: string, suffix: string, threads: int, caseSensitive: bool, speedPerThread: real)
    returns (e: Estimate)
    ensures e.difficulty == Difficulty(prefix + suffix, caseSensitive)
    ensures e.attemptsPerSecond == Rate(speedPerThread, threads).Floor
    ensures e.expectedTimeSeconds == ExpectedTime(e.difficulty, Rate(speedPerThread, threads))
  {
    var combined := prefix + suffix;
    // probability == num / den
    var num: nat := 1;
    var den: nat := 1;
    for i := 0 to |combined|
      invariant num == Pow(2, Doubled(combined[..i], caseSensitive))
      invariant den == Pow(58, i)
    {
      assert combined[..i + 1][..i] == combined[..i];
      ghost var k := Doubled(combined[..i], caseSensitive);
      assert Pow(58, i + 1) == 58 * Pow(58, i);
      if caseSensitive {
        den := den * 58;
      } else if IsCasePair(combined[i]) {
        assert Doubled(combined[..i + 1], caseSensitive) == k + 1;
        assert Pow(2, k + 1) == 2 * Pow(2, k);
        num, den := num * 2, den * 58;
      } else {
        den := den * 58;
      }
    }
    assert combined[..|combined|] == combined;
    var k := Doubled(combined, caseSensitive);
    CancelTwos(|combined|, k);
    DivExact(den, num, Pow(29, k) * Pow(58, |combined| - k));
    var difficulty := den / num;
    var attemptsPerSecond := speedPerThread * threads as real;
    // difficulty / 0 is Infinity, which is reported as 0
    var expected := if attemptsPerSecond == 0.0 then 0.0 else difficulty as real / attemptsPerSecond;
    e := Estimate(difficulty, attemptsPerSecond.Floor, expected);
  }

  /** The empty pattern has difficulty 1, and every pattern at least 1. */
  lemma DifficultyAtLeastOne(s: string, caseSensitive: bool)
    ensures Difficulty(s, caseSensitive) >= 1
    ensures s == [] ==> Difficulty(s, caseSensitive) == 1
  {
  }

  /** Appending one character multiplies the difficulty by 58, or by 29 when
      the search ignores case and the character is a case pair. */
  lemma DifficultyAppend(s: string, c: char, caseSensitive: bool)
    ensures Difficulty(s + [c], caseSensitive) ==
            Difficulty(s, caseSensitive) * (if !caseSensitive && IsCasePair(c) then 29 else 58)
  {
    var t := s + [c];
    assert t[..|t| - 1] == s;
    var k := Doubled(s, caseSensitive);
    if !caseSensitive && IsCasePair(c) {
      assert Doubled(t, caseSensitive) == k + 1;
      assert Pow(29, k + 1) == 29 * Pow(29, k);
    } else {
      assert Doubled(t, caseSensitive) == k;
      assert |t| - k == (|s| - k) + 1;
      assert Pow(58, |t| - k) == 58 * Pow(58, |s| - k);
    }
  }

  /** Extending the pattern at its end never makes it easier. */
  lemma {:induction false} DifficultyMonotone(s: string, t: string, caseSensitive: bool)
    ensures Difficulty(s, caseSensitive) <= Difficulty(s + t, caseSensitive)
  {
    if t == [] {
      assert s + t == s;
    } else {
      var init := t[..|t| - 1];
      DifficultyMonotone(s, init, caseSensitive);
      assert s + t == (s + init) + [t[|t| - 1]];
      DifficultyAppend(s + init, t[|t| - 1], caseSensitive);
    }
  }

  lemma MulAssoc(x: int, y: int, z: int)
    ensures (x * y) * z == x * (y * z)
  {
  }

  lemma MulMonotone(x: nat, y: nat, z: nat)
    requires x <= y
    ensures x * z <= y * z
  {
  }

  /** The difficulty of a concatenation is the product of the parts'
      difficulties: each character contributes its own factor. */
  lemma {:induction false} DifficultyConcat(a: string, b: string, caseSensitive: bool)
    ensures Difficulty(a + b, caseSensitive) == Difficulty(a, caseSensitive) * Difficulty(b, caseSensitive)
    decreases |b|
  {
    if b == [] {
      assert a + b == a;
      DifficultyAtLeastOne(b, caseSensitive);
    } else {
      var init, c := b[..|b| - 1], b[|b| - 1];
      DifficultyConcat(a, init, caseSensitive);
      assert a + b == (a + init) + [c];
      assert b == init + [c];
      DifficultyAppend(a + init, c, caseSensitive);
      DifficultyAppend(init, c, caseSensitive);
      MulAssoc(Difficulty(a, caseSensitive), Difficulty(init, caseSensitive),
               if !caseSensitive && IsCasePair(c) then 29 else 58);
    }
  }

  /** Inserting text anywhere in the pattern never makes it easier: typing
      into the prefix field (which comes before the suffix) or into the
      suffix field never lowers the difficulty. */
  lemma DifficultyInsert(p: string, m: string, s: string, caseSensitive: bool)
    ensures Difficulty(p + s, caseSensitive) <= Difficulty(p + m + s, caseSensitive)
  {
    DifficultyConcat(p, s, caseSensitive);
    DifficultyConcat(p + m, s, caseSensitive);
    DifficultyMonotone(p, m, caseSensitive);
    MulMonotone(Difficulty(p, caseSensitive), Difficulty(p + m, caseSensitive), Difficulty(s, caseSensitive));
  }

  /** Ignoring case never makes a pattern harder. */
  lemma {:induction false} InsensitiveAtMostSensitive(s: string)
    ensures Difficulty(s, false) <= Difficulty(s, true)
    ensures Difficulty(s, true) == Pow(58, |s|)
  {
    if s != [] {
      var init := s[..|s| - 1];
      InsensitiveAtMostSensitive(init);
      assert s == init + [s[|s| - 1]];
      DifficultyAppend(init, s[|s| - 1], false);
      DifficultyAppend(init, s[|s| - 1], true);
    }
  }

  /** Digits and the letters i, l and o have no case pair: a pattern made of
      them is exactly as hard with or without case sensitivity. */
  lemma {:induction false} NoPairsSameDifficulty(s: string)
    requires forall i :: 0 <= i < |s| ==> !IsCasePair(s[i])
    ensures Difficulty(s, false) == Difficulty(s, true) == Pow(58, |s|)
  {
    if s != [] {
      var init := s[..|s| - 1];
      NoPairsSameDifficulty(init);
      assert s == init + [s[|s| - 1]];
      DifficultyAppend(init, s[|s| - 1], false);
      DifficultyAppend(init, s[|s| - 1], true);
    }
  }

  /** A pattern of case-pair letters only is 2^n times easier without case
      sensitivity. */
  lemma {:induction false} AllPairsDifficulty(s: string)
    requires forall i :: 0 <= i < |s| ==> IsCasePair(s[i])
    ensures Difficulty(s, false) == Pow(29, |s|)
    ensures Difficulty(s, true) == Pow(2, |s|) * Pow(29, |s|)
  {
    if s != [] {
      var init := s[..|s| - 1];
      AllPairsDifficulty(init);
      assert s == init + [s[|s| - 1]];
      DifficultyAppend(init, s[|s| - 1], false);
      DifficultyAppend(init, s[|s| - 1], true);
    }
  }
}
