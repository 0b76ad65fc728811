/** The code each search worker runs: the pattern test applied to every
    generated address, and the loop that counts attempts into batches and
    reports them to the coordinator. */
module Worker {

  /** Lower-casing of one character as String.prototype.toLowerCase does it
      for ASCII text (addresses and patterns are base58, hence ASCII). */
  function LowerChar(c: char): (r: char)
    ensures !('A' <= r <= 'Z')
    ensures r != c ==> 'A' <= c <= 'Z' && 'a' <= r <= 'z'
  {
    if 'A' <= c <= 'Z' then (c as int + 32) as char else c
  }

  function Lower(s: string): (r: string)
    ensures |r| == |s|
  {
    seq(|s|, i requires 0 <= i < |s| => LowerChar(s[i]))
  }

  /** Lower-casing keeps the length and every character other than 'A'..'Z',
      and maps each of 'A'..'Z' to its lower-case letter, so the result
      holds no upper-case letter. */
  lemma LowerChars(s: string)
    ensures |Lower(s)| == |s|
    ensures forall i :: 0 <= i < |s| && 'A' <= s[i] <= 'Z' ==>
              'a' <= Lower(s)[i] <= 'z' && Lower(s)[i] as int == s[i] as int + 32
    ensures forall i :: 0 <= i < |s| && !('A' <= s[i] <= 'Z') ==> Lower(s)[i] == s[i]
    ensures forall i :: 0 <= i < |s| ==> !('A' <= Lower(s)[i] <= 'Z')
  {
  }

  /** Lower-casing twice is lower-casing once. */
  lemma LowerIdempotent(s: string)
    ensures Lower(Lower(s)) == Lower(s)
  {
    assert forall i :: 0 <= i < |s| ==> Lower(Lower(s))[i] == Lower(s)[i];
  }

  /** The comparison form of a string: itself when the search is
      case-sensitive, lower-cased otherwise. */
  function Normalize(s: string, caseSensitive: bool): string {
    if caseSensitive then s else Lower(s)
  }

  /** The comparison forms: the same length as the text; the text itself
      when case-sensitive; otherwise free of upper-case letters, and equal
      for two texts that differ only in the case of their letters. */
  lemma NormalizeChars(s: string, t: string, caseSensitive: bool)
    ensures |Normalize(s, caseSensitive)| == |s|
    ensures caseSensitive ==> Normalize(s, caseSensitive) == s
    ensures !caseSensitive ==> forall i :: 0 <= i < |s| ==> !('A' <= Normalize(s, caseSensitive)[i] <= 'Z')
    ensures !caseSensitive && |s| == |t| && (forall i :: 0 <= i < |s| ==> LowerChar(s[i]) == LowerChar(t[i])) ==>
              Normalize(s, caseSensitive) == Normalize(t, caseSensitive)
  {
    LowerChars(s);
  }

  predicate StartsWith(s: string, p: string) {
    |p| <= |s| && s[..|p|] == p
  }

  predicate EndsWith(s: string, q: string) {
    |q| <= |s| && s[|s| - |q|..] == q
  }

  /** The test applied to one already normalised address: an empty prefix or
      suffix (a falsy string) always passes. */
  predicate Hit(compareAddr: string, normPrefix: string, normSuffix: string) {
    (normPrefix == [] || StartsWith(compareAddr, normPrefix)) &&
    (normSuffix == [] || EndsWith(compareAddr, normSuffix))
  }

  /** Whether address `addr` satisfies the pattern. */
  predicate Matches(addr: string, prefix: string, suffix: string, caseSensitive: bool) {
    if caseSensitive then Hit(addr, prefix, suffix) else Hit(Lower(addr), Lower(prefix), Lower(suffix))
  }

  lemma LowerSlice(s: string, i: nat, j: nat)
    requires i <= j <= |s|
    ensures Lower(s[i..j]) == Lower(s)[i..j]
  {
    assert forall k :: 0 <= k < j - i ==> Lower(s[i..j])[k] == Lower(s)[i..j][k];
  }

  lemma EmptyPatternMatchesAll(addr: string, caseSensitive: bool)
    ensures Matches(addr, "", "", caseSensitive)
  {
  }

  lemma CaseSensitiveMatch(addr: string, prefix: string, suffix: string)
    ensures Matches(addr, prefix, suffix, true) <==> StartsWith(addr, prefix) && EndsWith(addr, suffix)
  {
  }

  lemma CaseInsensitiveMatch(addr: string, prefix: string, suffix: string)
    ensures Matches(addr, prefix, suffix, false) <==>
            StartsWith(Lower(addr), Lower(prefix)) && EndsWith(Lower(addr), Lower(suffix))
  {
  }

  /** A case-sensitive match is always a case-insensitive match as well. */
  lemma SensitiveImpliesInsensitive(addr: string, prefix: string, suffix: string)
    requires Matches(addr, prefix, suffix, true)
    ensures Matches(addr, prefix, suffix, false)
  {
    CaseSensitiveMatch(addr, prefix, suffix);
    LowerSlice(addr, 0, |prefix|);
    LowerSlice(addr, |addr| - |suffix|, |addr|);
  }

  /** "AbCxYz" has the prefix "abc" only up to case. */
  lemma MixedCaseExample()
    ensures Matches("AbCxYz", "abc", "", false)
    ensures !Matches("AbCxYz", "abc", "", true)
  {
    var a := "AbCxYz";
    assert Lower(a)[..3] == "abc";
    assert a[..3] != "abc" by { assert a[..3][0] == 'A'; }
  }

  /** One key pair returned by the generator: its base58 address and its
      base58-encoded secret key, both as text. */
  datatype Candidate = Candidate(address: string, privateKey: string)

  /** One call of the key-pair generator: a key pair, or an exception. */
  datatype Draw = Generated(keypair: Candidate) | Fault

  /** What a worker sends to the coordinator: a progress message `{n}`, the
      final message `{f:1, a, p, n}`, or its error event. */
  datatype Event = Progress(n: nat) | Found(address: string, privateKey: string, n: nat) | Error

  /** The number of attempts the events of one worker account for. */
  function Total(events: seq<Event>): nat {
    if events == [] then 0
    else
      var e := events[|events| - 1];
      Total(events[..|events| - 1]) + (if e.Error? then 0 else e.n)
  }

  lemma TotalAppend(events: seq<Event>, e: Event)
    ensures Total(events + [e]) == Total(events) + (if e.Error? then 0 else e.n)
  {
    assert (events + [e])[..|events|] == events;
  }

  /** Whether a draw ends the worker: a generator exception, or a match. */
  predicate Stops(d: Draw, prefix: string, suffix: string, caseSensitive: bool) {
    d.Fault? || Matches(d.keypair.address, prefix, suffix, caseSensitive)
  }

  /** Only progress reports of 400 to 600 attempts. */
  predicate Reports(events: seq<Event>) {
    forall i :: 0 <= i < |events| ==> events[i].Progress? && 400 <= events[i].n <= 600
  }

  /** The worker has sent its final message: a match or an error. */
  predicate Ended(events: seq<Event>) {
    events != [] && !events[|events| - 1].Progress?
  }

  /** The attempts covered by the progress reports, which all come before
      a final message. */
  function Reported(events: seq<Event>): nat {
    if Ended(events) then Total(events[..|events| - 1]) else Total(events)
  }

  /** The reporting threshold 400 + r of one check, with r = Math.random() * 200
      in [0, 200), rounded up to a whole number. */
  function Threshold(r: real): (t: nat)
    requires 0.0 <= r < 200.0
    ensures 400 <= t <= 600
    ensures t as real - 1.0 < 400.0 + r <= t as real
  {
    var x := 400.0 + r;
    if x.Floor as real == x then x.Floor else x.Floor + 1
  }

  /** A batch count, being whole, reaches the threshold 400 + r exactly when
      it reaches `Threshold(r)`: comparing with the whole-number threshold
      makes the same decision as the code's comparison with a real one. */
  lemma ThresholdAgrees(batch: nat, r: real)
    requires 0.0 <= r < 200.0
    ensures batch as real >= 400.0 + r <==> batch >= Threshold(r)
  {
    var t := Threshold(r);
    if batch < t {
      assert batch as real <= t as real - 1.0;
    }
  }

  /** No attempt among `start .. upto - 1` (0-based) reached its reporting
      threshold: attempt `j` is number `j + 1 - start` of its batch, and
      `limits[j]` is the threshold drawn for it, as a whole number. */
  ghost predicate Quiet(limits: seq<nat>, start: nat, upto: nat) {
    start <= upto <= |limits| &&
    forall j :: start <= j < upto ==> j + 1 - start < limits[j]
  }

  /** The bound that follows: a quiet stretch is shorter than 600 attempts. */
  lemma QuietBound(limits: seq<nat>, start: nat, upto: nat)
    requires Quiet(limits, start, upto)
    requires forall i :: 0 <= i < |limits| ==> limits[i] <= 600
    ensures upto - start < 600
  {
    if start < upto {
      assert upto - 1 + 1 - start < limits[upto - 1];
    }
  }

  /** An attempt that stays under its threshold extends a quiet stretch. */
  lemma QuietExtend(limits: seq<nat>, start: nat, upto: nat)
    requires Quiet(limits, start, upto) && upto < |limits|
    requires upto + 1 - start < limits[upto]
    ensures Quiet(limits, start, upto + 1)
  {
  }

  /** The reporting rule for a message `e` sent after `a` attempts had
      been reported: a progress report covers the attempts since, the last
      of them is the first whose count reached its threshold, and no earlier
      attempt of the batch did. */
  ghost predicate Rule(a: nat, e: Event, limits: seq<nat>) {
    e.Progress? ==>
      && 1 <= e.n && a + e.n <= |limits|
      && e.n >= limits[a + e.n - 1]
      && Quiet(limits, a, a + e.n - 1)
  }

  /** Every message follows the reporting rule, counting the attempts
      the messages before it account for. */
  ghost predicate FollowsRule(events: seq<Event>, limits: seq<nat>) {
    events == [] ||
    (FollowsRule(events[..|events| - 1], limits) &&
     Rule(Total(events[..|events| - 1]), events[|events| - 1], limits))
  }

  /** Message `i` in particular follows the rule. */
  lemma {:induction false} FollowsRuleAt(events: seq<Event>, limits: seq<nat>, i: nat)
    requires FollowsRule(events, limits) && i < |events|
    ensures Rule(Total(events[..i]), events[i], limits)
    decreases |events|
  {
    var init := events[..|events| - 1];
    if i < |events| - 1 {
      FollowsRuleAt(init, limits, i);
      assert init[..i] == events[..i] && init[i] == events[i];
    }
  }

  /** Proof step of `Run`: appending a message that follows the rule. */
  lemma AppendFollows(events: seq<Event>, e: Event, limits: seq<nat>)
    requires FollowsRule(events, limits) && Rule(Total(events), e, limits)
    ensures FollowsRule(events + [e], limits)
  {
    assert (events + [e])[..|events|] == events;
  }

  /** What the worker's messages promise once its loop is over, after
      `used` draws: every message but the last is a progress report of 400 to
      600 attempts, sent exactly when its batch reached the threshold; no
      attempt after the last report reached its threshold before the worker
      stopped, so at most 600 attempts go unreported; the messages never
      account for more attempts than were made; a final match carries the
      last draw's key pair and brings the count to exactly the number of
      attempts; an error message means the last draw threw. */
  ghost predicate Told(draws: seq<Draw>, limits: seq<nat>, events: seq<Event>, used: nat) {
    && (Ended(events) ==> 0 < used <= |draws|)
    && (forall i :: 0 <= i < |events| - 1 ==> events[i].Progress?)
    && (forall i :: 0 <= i < |events| && events[i].Progress? ==> 400 <= events[i].n <= 600)
    && FollowsRule(events, limits)
    && Quiet(limits, Reported(events), if Ended(events) then used - 1 else used)
    && used - Reported(events) <= 600
    && Total(events) <= used
    && (events != [] && events[|events| - 1].Found? ==>
          0 < used <= |draws| &&
          var d := draws[used - 1];
          d.Generated? && events[|events| - 1].address == d.keypair.address &&
          events[|events| - 1].privateKey == d.keypair.privateKey &&
          1 <= events[|events| - 1].n <= 600 && Total(events) == used)
    && (events != [] && events[|events| - 1].Error? ==> 0 < used <= |draws| && draws[used - 1].Fault?)
  }

  /** Everything the worker promises once its loop is over, with `used`
      draws taken and `events` sent: it stopped at the first draw that
      matches or throws, and sent its final message exactly then, and its
      messages keep the promises of `Told`. */
  ghost predicate Done(prefix: string, suffix: string, caseSensitive: bool, draws: seq<Draw>, limits: seq<nat>,
                       events: seq<Event>, used: nat) {
    && used <= |draws|
    && (forall i :: 0 <= i < used - 1 ==> !Stops(draws[i], prefix, suffix, caseSensitive))
    && (used < |draws| ==> 0 < used && Stops(draws[used - 1], prefix, suffix, caseSensitive))
    && ((0 < used && Stops(draws[used - 1], prefix, suffix, caseSensitive)) <==> Ended(events))
    && Told(draws, limits, events, used)
  }

  /** What holds between two attempts of the worker loop, after `used`
      attempts: `batch` counts the attempts since the last report, every
      message sent is a report that followed the reporting rule, and no
      attempt since the last report reached its threshold. */
  ghost predicate Looping(limits: seq<nat>, events: seq<Event>, used: nat, batch: nat) {
    && used <= |limits|
    && batch + Total(events) == used
    && Reports(events)
    && FollowsRule(events, limits)
    && Quiet(limits, Total(events), used)
  }

  /** Proof step of `Attempt`: draw `used` stops the worker, which sends
      `e` after its reports. */
  lemma StopStep(draws: seq<Draw>, limits: seq<nat>, events: seq<Event>, used: nat, batch: nat, e: Event)
    requires used < |draws| && |limits| == |draws|
    requires forall i :: 0 <= i < |limits| ==> 400 <= limits[i] <= 600
    requires Looping(limits, events, used, batch)
    requires e.Error? ==> draws[used].Fault?
    requires e.Found? ==> draws[used].Generated? && e.address == draws[used].keypair.address &&
                          e.privateKey == draws[used].keypair.privateKey && e.n == batch + 1
    requires !e.Progress?
    ensures Ended(events + [e]) && Told(draws, limits, events + [e], used + 1)
  {
    var es := events + [e];
    assert es[..|es| - 1] == events;
    assert forall i :: 0 <= i < |es| - 1 ==> es[i] == events[i];
    AppendFollows(events, e, limits);
    TotalAppend(events, e);
    QuietBound(limits, Total(events), used);
    assert Ended(es) && Reported(es) == Total(events);
    assert Quiet(limits, Reported(es), used);
    assert forall i :: 0 <= i < |es| && es[i].Progress? ==> 400 <= es[i].n <= 600;
  }

  /** Proof step of `Attempt`: attempt `used` brings the batch to its
      threshold, so the batch is reported. */
  lemma ReportStep(limits: seq<nat>, events: seq<Event>, used: nat, batch: nat)
    requires used < |limits|
    requires forall i :: 0 <= i < |limits| ==> 400 <= limits[i] <= 600
    requires Looping(limits, events, used, batch) && batch + 1 >= limits[used]
    ensures Looping(limits, events + [Progress(batch + 1)], used + 1, 0)
  {
    var e := Progress(batch + 1);
    QuietBound(limits, Total(events), used);
    TotalAppend(events, e);
    AppendFollows(events, e, limits);
    assert Reports(events + [e]) by {
      forall i | 0 <= i < |events| + 1
        ensures (events + [e])[i].Progress? && 400 <= (events + [e])[i].n <= 600
      {
        if i < |events| { assert (events + [e])[i] == events[i]; }
      }
    }
  }

  /** Proof step of `Attempt`: attempt `used` stays under its threshold. */
  lemma QuietStep(limits: seq<nat>, events: seq<Event>, used: nat, batch: nat)
    requires used < |limits|
    requires Looping(limits, events, used, batch) && batch + 1 < limits[used]
    ensures Looping(limits, events, used + 1, batch + 1)
  {
    QuietExtend(limits, Total(events), used);
  }

  /** Proof step of `Run`: the draws ran out before any of them stopped the
      worker, so every message sent is a report. */
  lemma ExhaustDone(prefix: string, suffix: string, caseSensitive: bool, draws: seq<Draw>, limits: seq<nat>,
                    events: seq<Event>, batch: nat)
    requires |limits| == |draws|
    requires forall i :: 0 <= i < |limits| ==> 400 <= limits[i] <= 600
    requires forall i :: 0 <= i < |draws| ==> !Stops(draws[i], prefix, suffix, caseSensitive)
    requires Looping(limits, events, |draws|, batch)
    ensures Done(prefix, suffix, caseSensitive, draws, limits, events, |draws|)
  {
    QuietBound(limits, Total(events), |draws|);
  }

  /** The test the worker applies to one generated key pair, given the
      pattern already normalised: its address normalised the same way must
      start with the prefix and end with the suffix, an empty one passing
      always. It stops the worker exactly when the address matches. */
  method Test(d: Draw, normPrefix: string, normSuffix: string, caseSensitive: bool,
              ghost prefix: string, ghost suffix: string) returns (hit: bool)
    requires d.Generated?
    requires normPrefix == Normalize(prefix, caseSensitive) && normSuffix == Normalize(suffix, caseSensitive)
    ensures hit == Stops(d, prefix, suffix, caseSensitive)
  {
    var addr := d.keypair.address;
    var compareAddr := Normalize(addr, caseSensitive);
    var prefixMatch := normPrefix == [] || StartsWith(compareAddr, normPrefix);
    var suffixMatch := normSuffix == [] || EndsWith(compareAddr, normSuffix);
    hit := prefixMatch && suffixMatch;
  }

  /** The state after an attempt: the final message and the promises of
      `Told` if the worker stopped, the loop's facts if it goes on. */
  ghost predicate Next(draws: seq<Draw>, limits: seq<nat>, events: seq<Event>, used: nat, batch: nat, stop: bool) {
    if stop then Ended(events) && Told(draws, limits, events, used)
    else Looping(limits, events, used, batch)
  }

  /** One turn of the worker loop, on draw `used` with threshold
      `limits[used]`: count the attempt, stop with a final message on an
      exception or a match, otherwise report the batch when it reaches the
      threshold. `limits[used]` is `Threshold(r)` for the value r of
      Math.random() * 200 drawn at this check, so `batch >= limits[used]`
      is the code's test (`ThresholdAgrees`). */
  method Attempt(prefix: string, suffix: string, caseSensitive: bool, normPrefix: string, normSuffix: string,
                 draws: seq<Draw>, limits: seq<nat>, events: seq<Event>, used: nat, batch: nat)
    returns (events': seq<Event>, batch': nat, stop: bool)
    requires |limits| == |draws| && used < |draws|
    requires forall i :: 0 <= i < |limits| ==> 400 <= limits[i] <= 600
    requires normPrefix == Normalize(prefix, caseSensitive) && normSuffix == Normalize(suffix, caseSensitive)
    requires Looping(limits, events, used, batch)
    ensures stop <==> Stops(draws[used], prefix, suffix, caseSensitive)
    ensures Next(draws, limits, events', used + 1, batch', stop)
  {
    batch' := batch + 1;
    var d := draws[used];
    if d.Fault? {
      StopStep(draws, limits, events, used, batch, Error);
      return events + [Error], batch', true;
    }
    var hit := Test(d, normPrefix, normSuffix, caseSensitive, prefix, suffix);
    if hit {
      var found := Found(d.keypair.address, d.keypair.privateKey, batch');
      StopStep(draws, limits, events, used, batch, found);
      return events + [found], batch', true;
    }
    if batch' >= limits[used] {
      ReportStep(limits, events, used, batch);
      return events + [Progress(batch')], 0, false;
    }
    QuietStep(limits, events, used, batch);
    return events, batch', false;
  }

  /** The worker loop, run over a finite stretch `draws` of the generator's
      output, with `limits[i]` the reporting threshold drawn at attempt i;
      `used` is the number of generator calls made. */
  method Run(prefix: string, suffix: string, caseSensitive: bool, draws: seq<Draw>, limits: seq<nat>)
    returns (events: seq<Event>, used: nat)
    requires |limits| == |draws|
    requires forall i :: 0 <= i < |limits| ==> 400 <= limits[i] <= 600
    ensures Done(prefix, suffix, caseSensitive, draws, limits, events, used)
  {
    var normPrefix := Normalize(prefix, caseSensitive);
    var normSuffix := Normalize(suffix, caseSensitive);
    var batch: nat := 0;
    events, used := [], 0;
    while used < |draws|
      invariant Looping(limits, events, used, batch)
      invariant forall i :: 0 <= i < used ==> !Stops(draws[i], prefix, suffix, caseSensitive)
    {
      var stop;
      events, batch, stop := Attempt(prefix, suffix, caseSensitive, normPrefix, normSuffix,
                                     draws, limits, events, used, batch);
      used := used + 1;
      if stop {
        return;
      }
    }
    ExhaustDone(prefix, suffix, caseSensitive, draws, limits, events, batch);
  }
}
