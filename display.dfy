/** The pure logic of the page: the base58 input filter, JavaScript's
    String.prototype.slice, the length limit on prefix plus suffix, the
    preview and result splits, the unit chosen for numbers and durations,
    and the progress percentage. Digit rendering (toFixed, toLocaleString)
    is not modelled: a formatted number is its scaled value and its unit. */
module Display {
  import Worker

  /** The Bitcoin base58 alphabet 1-9 A-H J-N P-Z a-k m-z. */
  predicate IsBase58Char(c: char) {
    ('1' <= c <= '9') || ('A' <= c <= 'H') || ('J' <= c <= 'N') || ('P' <= c <= 'Z') ||
    ('a' <= c <= 'k') || ('m' <= c <= 'z')
  }

  /** The base58 alphabet written out, in code-point order: the digits
      but 0, the upper-case letters but I and O, the lower-case letters
      but l, as six runs of consecutive characters. */
  const Alphabet: string :=
    "123456789" + "ABCDEFGH" + "JKLMN" + "PQRSTUVWXYZ" + "abcdefghijk" + "mnopqrstuvwxyz"

  /** A run of consecutive characters from `lo` holds exactly the
      characters of its code-point range. */
  lemma RunPart(run: string, lo: char, c: char)
    requires forall i :: 0 <= i < |run| ==> run[i] as int == lo as int + i
    ensures c in run <==> lo as int <= c as int < lo as int + |run|
  {
    if lo as int <= c as int < lo as int + |run| {
      assert run[c as int - lo as int] == c;
    }
  }

  /** The character ranges of the filter are exactly the 58 characters of
      the alphabet; in particular 0, O, I and l are not among them. */
  lemma Base58Alphabet(c: char)
    ensures |Alphabet| == 58
    ensures IsBase58Char(c) <==> c in Alphabet
    ensures IsBase58Char(c) ==> c != '0' && c != 'O' && c != 'I' && c != 'l'
  {
    RunPart("123456789", '1', c);
    RunPart("ABCDEFGH", 'A', c);
    RunPart("JKLMN", 'J', c);
    RunPart("PQRSTUVWXYZ", 'P', c);
    RunPart("abcdefghijk", 'a', c);
    RunPart("mnopqrstuvwxyz", 'm', c);
  }

  predicate IsBase58(s: string) {
    forall i :: 0 <= i < |s| ==> IsBase58Char(s[i])
  }

  /** `value.replace(/[^1-9A-HJ-NP-Za-km-z]/g, '')`. */
  function Sanitize(s: string): (r: string)
    ensures IsBase58(r)
    ensures |r| <= |s|
  {
    if s == [] then []
    else (if IsBase58Char(s[0]) then [s[0]] else []) + Sanitize(s[1..])
  }

  /** Filtering a concatenation filters each part: with the one-character
      case of the definition, this says the result is exactly the base58
      characters of the input, in their order. */
  lemma {:induction false} SanitizeAppend(a: string, b: string)
    ensures Sanitize(a + b) == Sanitize(a) + Sanitize(b)
  {
    if a != [] {
      SanitizeAppend(a[1..], b);
      assert (a + b)[1..] == a[1..] + b;
    } else {
      assert a + b == b;
    }
  }

  /** Each base58 character occurs as often in the result as in the input;
      every other character is gone. */
  lemma {:induction false} SanitizeCounts(s: string, c: char)
    ensures multiset(Sanitize(s))[c] == if IsBase58Char(c) then multiset(s)[c] else 0
  {
    if s != [] {
      SanitizeCounts(s[1..], c);
      assert s == [s[0]] + s[1..];
      assert multiset(s) == multiset([s[0]]) + multiset(s[1..]);
    }
  }

  /** Text made only of base58 characters passes unchanged, and only such
      text does. */
  lemma {:induction false} SanitizeFixpoint(s: string)
    ensures Sanitize(s) == s <==> IsBase58(s)
  {
    if s != [] {
      SanitizeFixpoint(s[1..]);
      if !IsBase58Char(s[0]) {
        assert |Sanitize(s)| < |s|;
      }
    }
  }

  lemma SanitizeIdempotent(s: string)
    ensures Sanitize(Sanitize(s)) == Sanitize(s)
  {
    SanitizeFixpoint(Sanitize(s));
  }

  /** How slice reads an index: negative counts from the end, and the
      result is clamped to 0 .. len. */
  function SliceIndex(i: int, len: nat): (r: nat)
    ensures r <= len
    ensures 0 <= i <= len ==> r == i
    ensures -(len as int) <= i < 0 ==> r == len + i
  {
    if i < 0 then (if len + i < 0 then 0 else len + i)
    else if i > len then len
    else i
  }

  /** `s.slice(start, end)`; `s.slice(start)` is `Slice(s, start, |s|)`. */
  function Slice(s: string, start: int, end: int): (r: string)
    ensures 0 <= start <= end <= |s| ==> r == s[start..end]
    // otherwise the characters from the clamped start up to the clamped
    // end, none when the end does not come after the start
    ensures var b, e := SliceIndex(start, |s|), SliceIndex(end, |s|);
            |r| == (if b < e then e - b else 0) && forall k :: 0 <= k < |r| ==> r[k] == s[b + k]
    // a negative start within the length takes that many characters from the end
    ensures -(|s| as int) <= start < 0 && end == |s| ==> r == s[|s| + start..] && |r| == -start
  {
    var b, e := SliceIndex(start, |s|), SliceIndex(end, |s|);
    if b < e then s[b..e] else []
  }

  datatype Pattern = Pattern(prefix: string, suffix: string)

  /** The length limit of `updateAll`: when prefix and suffix together are
      longer than `limit`, the field just edited (the suffix if it was the
      one, the prefix otherwise) is cut to fit. */
  function Truncate(prefix: string, suffix: string, suffixEdited: bool, limit: nat): (r: Pattern)
    // within the limit nothing changes
    ensures |prefix| + |suffix| <= limit ==> r == Pattern(prefix, suffix)
    // only the edited field changes, and only by losing its tail
    ensures suffixEdited ==> r.prefix == prefix && |r.suffix| <= |suffix| && r.suffix == suffix[..|r.suffix|]
    ensures !suffixEdited ==> r.suffix == suffix && |r.prefix| <= |prefix| && r.prefix == prefix[..|r.prefix|]
    // if the other field fits, the result fills the limit exactly
    ensures |prefix| + |suffix| > limit && (if suffixEdited then |prefix| else |suffix|) <= limit ==>
              |r.prefix| + |r.suffix| == limit
  {
    if |prefix| + |suffix| > limit then
      if suffixEdited then Pattern(prefix, Slice(suffix, 0, limit - |prefix|))
      else Pattern(Slice(prefix, 0, limit - |suffix|), suffix)
    else Pattern(prefix, suffix)
  }

  /** The three parts of a displayed address: a bold start, a light
      middle and a bold end. */
  datatype Segments = Segments(start: string, middle: string, end: string)

  function Join(g: Segments): string {
    g.start + g.middle + g.end
  }

  /** `placeholder(start, end)`: the pattern in bold around the part of the
      example address `pubKey` it does not cover. */
  function Placeholder(pubKey: string, start: string, end: string): (r: Segments)
    ensures r.start == start && r.end == end
    ensures |start| + |end| <= |pubKey| ==>
              r.middle == pubKey[|start|..|pubKey| - |end|] && |Join(r)| == |pubKey|
    ensures |end| <= |pubKey| < |start| + |end| ==> r.middle == []
  {
    Segments(start, Slice(pubKey, |start|, |pubKey| - |end|), end)
  }

  /** The split of a found address into the matched prefix, the middle and
      the matched suffix. */
  function SplitResult(address: string, prefix: string, suffix: string): (r: Segments)
    ensures |prefix| + |suffix| <= |address| ==>
              Join(r) == address && |r.start| == |prefix| && |r.end| == |suffix|
    ensures suffix == [] ==> r.end == [] && (|prefix| <= |address| ==> r.middle == address[|prefix|..])
  {
    var n := |address|;
    var matchedPrefix := Slice(address, 0, |prefix|);
    var matchedSuffix := if |suffix| > 0 then Slice(address, -|suffix|, n) else [];
    var middle := Slice(address, |prefix|, if |suffix| > 0 then -|suffix| else n);
    var r := Segments(matchedPrefix, middle, matchedSuffix);
    assert |prefix| + |suffix| <= n ==> Join(r) == address[..|prefix|] + address[|prefix|..n - |suffix|] + address[n - |suffix|..];
    r
  }

  /** On a case-sensitive match the bold parts are the pattern itself; on a
      case-insensitive one they differ from it only in case. */
  lemma SplitShowsPattern(address: string, prefix: string, suffix: string, caseSensitive: bool)
    requires Worker.Matches(address, prefix, suffix, caseSensitive)
    ensures var r := SplitResult(address, prefix, suffix);
            Worker.Normalize(r.start, caseSensitive) == Worker.Normalize(prefix, caseSensitive) &&
            Worker.Normalize(r.end, caseSensitive) == Worker.Normalize(suffix, caseSensitive)
  {
    var r := SplitResult(address, prefix, suffix);
    var a := Worker.Normalize(address, caseSensitive);
    assert |a| == |address|;
    if prefix != [] {
      if !caseSensitive {
        Worker.LowerSlice(address, 0, |prefix|);
      }
      assert Worker.Normalize(prefix, caseSensitive) != [];
      assert r.start == address[..|prefix|];
    } else {
      assert Worker.Normalize(prefix, caseSensitive) == [];
    }
    if suffix != [] {
      if !caseSensitive {
        Worker.LowerSlice(address, |address| - |suffix|, |address|);
      }
      assert Worker.Normalize(suffix, caseSensitive) != [];
      assert r.end == address[|address| - |suffix|..];
    } else {
      assert Worker.Normalize(suffix, caseSensitive) == [];
    }
  }

  /** A formatted amount: either a scaled figure with its unit, or a fixed
      glyph. */
  datatype Shown = Figure(value: real, unit: string) | Glyph(text: string)

  /** `formatAmount(num, simple)`; the unit "" stands for the plain
      localised integer. */
  function FormatAmount(num: real, simple: bool): (r: Shown)
    ensures r.Figure?
    ensures r.unit == "B" <==> num >= 1000000000.0
    ensures r.unit == "M" <==> 1000000.0 <= num < 1000000000.0
    ensures r.unit == "k" <==> simple && 1000.0 <= num < 1000000.0
    ensures r.unit == "" <==> num < 1000000.0 && !(simple && num >= 1000.0)
    // the scaled figure times its unit gives the number back
    ensures r.unit == "B" ==> r.value * 1000000000.0 == num && r.value >= 1.0
    ensures r.unit == "M" ==> r.value * 1000000.0 == num && 1.0 <= r.value < 1000.0
    ensures r.unit == "k" ==> r.value * 1000.0 == num && 1.0 <= r.value < 1000.0
    ensures r.unit == "" ==> r.value == num.Floor as real
  {
    if num >= 1000000000.0 then Figure(num / 1000000000.0, "B")
    else if num >= 1000000.0 then Figure(num / 1000000.0, "M")
    else if simple && num >= 1000.0 then Figure(num / 1000.0, "k")
    else Figure(num.Floor as real, "")
  }

  /** A duration in seconds, which may be JavaScript's Infinity. */
  datatype Seconds = Finite(seconds: real) | Infinite

  /** The text the source returns for an infinite duration: the UTF-8 bytes
      of the infinity sign read as Windows-1252, as the file holds it. */
  const InfinityText: string := "\U{E2}\U{2C6}\U{17E}"

  /** `formatTime(seconds)`. */
  function FormatTime(t: Seconds): (r: Shown)
    ensures t.Infinite? <==> r == Glyph(InfinityText)
    ensures r.Figure? && r.unit == "s" <==> t.Finite? && t.seconds < 60.0
    ensures r.Figure? && r.unit == "m" <==> t.Finite? && 60.0 <= t.seconds < 3600.0
    ensures r.Figure? && r.unit == "h" <==> t.Finite? && 3600.0 <= t.seconds < 86400.0
    ensures r.Figure? && r.unit == "d" <==> t.Finite? && t.seconds >= 86400.0
    ensures r.Figure? && r.unit == "s" ==> r.value == t.seconds
    ensures r.Figure? && r.unit == "m" ==> r.value * 60.0 == t.seconds && 1.0 <= r.value < 60.0
    ensures r.Figure? && r.unit == "h" ==> r.value * 3600.0 == t.seconds && 1.0 <= r.value < 24.0
    ensures r.Figure? && r.unit == "d" ==> r.value * 86400.0 == t.seconds && r.value >= 1.0
  {
    match t
    case Infinite => Glyph(InfinityText)
    case Finite(s) =>
      if s < 60.0 then Figure(s, "s")
      else if s < 3600.0 then Figure(s / 60.0, "m")
      else if s < 86400.0 then Figure(s / 3600.0, "h")
      else Figure(s / 86400.0, "d")
  }

  /** `est.difficulty || 1`. */
  function CurrentDifficulty(difficulty: nat): (r: nat)
    ensures r >= 1
    ensures difficulty >= 1 ==> r == difficulty
    ensures difficulty == 0 ==> r == 1
  {
    if difficulty == 0 then 1 else difficulty
  }

  /** Scaling by a factor in [0, 1] never enlarges a non-negative value. */
  lemma ScaleDown(x: real, y: real)
    requires 0.0 <= x <= 1.0 && 0.0 <= y
    ensures 0.0 <= x * y <= y
  {
    assert y - x * y == (1.0 - x) * y;
  }

  function RealPow(x: real, n: nat): real {
    if n == 0 then 1.0 else x * RealPow(x, n - 1)
  }

  lemma {:induction false} RealPowStep(x: real, n: nat)
    requires 0.0 <= x <= 1.0
    ensures 0.0 <= RealPow(x, n + 1) <= RealPow(x, n) <= 1.0
  {
    if n > 0 {
      RealPowStep(x, n - 1);
    }
    var p := RealPow(x, n);
    assert RealPow(x, n + 1) == x * p;
    ScaleDown(x, p);
  }

  /** A power of a factor in [0, 1] stays in [0, 1], and never grows with
      the exponent. */
  lemma {:induction false} RealPowBounds(x: real, m: nat, n: nat)
    requires 0.0 <= x <= 1.0 && m <= n
    ensures 0.0 <= RealPow(x, n) <= RealPow(x, m) <= 1.0
  {
    RealPowStep(x, m);
    if m < n {
      RealPowBounds(x, m, n - 1);
      RealPowStep(x, n - 1);
    }
  }

  /** The chance, in percent, that `attempts` attempts found a match of a
      pattern of difficulty `d`: 1 - (1 - 1/d)^attempts, or 100 outright
      when d <= 1. */
  function MatchChance(d: nat, attempts: nat): (p: real)
    ensures d <= 1 ==> p == 100.0
    ensures 0.0 <= p <= 100.0
    ensures d > 1 && attempts == 0 ==> p == 0.0
  {
    if d <= 1 then 100.0
    else
      var miss := 1.0 - 1.0 / d as real;
      RealPowBounds(miss, attempts, attempts);
      (1.0 - RealPow(miss, attempts)) * 100.0
  }

  /** More attempts never lower the displayed chance. */
  lemma MatchChanceMonotone(d: nat, a: nat, b: nat)
    requires a <= b
    ensures MatchChance(d, a) <= MatchChance(d, b)
  {
    if d > 1 {
      var miss := 1.0 - 1.0 / d as real;
      RealPowBounds(miss, a, b);
    }
  }

  /** The progress shown while searching, capped at 99.99 percent. */
  function ShownProgress(d: nat, attempts: nat): (p: real)
    ensures 0.0 <= p <= 99.99 && p <= MatchChance(d, attempts)
    ensures p == MatchChance(d, attempts) || p == 99.99
    ensures MatchChance(d, attempts) < 99.99 ==> p == MatchChance(d, attempts)
  {
    var chance := MatchChance(d, attempts);
    if chance < 99.99 then chance else 99.99
  }
}
