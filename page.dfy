/** The page script: the module-level state of the form (the input values,
    the thread counter, the `isGenerating` flag, the disabled flags of the
    controls, the preview, the estimate and the result shown) and the event
    handlers that update it. DOM text rendering is not modelled; each
    displayed element is a field holding the value it shows. */
module Page {
  import Vanity
  import Estimate
  import Display

  /** The element an `input`/`change` event came from, if any. */
  datatype Target = PrefixInput | SuffixInput | OtherControl

  /** The legend left of the estimate: "Estimated :", "Progress :",
      "Completed :" or "Error :". */
  datatype Legend = Estimated | InProgress | Completed | Failed

  /** What the filter of `updateAll` does to one field: it cleans the field
      the event came from and leaves the other alone. The cleaned field is
      base58, and a field that already was base58 is left as it is in
      either case, which is why the code writes the field back only when
      cleaning changed it. */
  function Edited(value: string, isTarget: bool): (r: string)
    ensures isTarget ==> Display.IsBase58(r) && |r| <= |value|
    ensures Display.IsBase58(value) ==> r == value
  {
    Display.SanitizeFixpoint(value);
    if isTarget then Display.Sanitize(value) else value
  }

  lemma Base58Prefix(s: string, k: nat)
    requires Display.IsBase58(s) && k <= |s|
    ensures Display.IsBase58(s[..k])
  {
  }

  class Form {
    const pubKey: string
    const maxThreads: nat
    const speedPerThread: real
    var prefixValue: string
    var suffixValue: string
    var caseSensitive: bool
    var threads: int
    var currentDifficulty: nat
    var isGenerating: bool
    /** Generate button, both inputs and both switches. */
    var controlsDisabled: bool
    var minusDisabled: bool
    var plusDisabled: bool
    var preview: Display.Segments
    var estimate: Estimate.Estimate
    var legend: Legend
    /** The percentage shown in the progress text. The progress bar is not
        reset when a run starts; the first progress callback, which the
        search makes before the page renders again, sets it. */
    var progress: real
    /** The attempt count shown in the speed slot during and after a run. */
    var attemptsShown: nat
    /** The pattern read when the run started. */
    var runPrefix: string
    var runSuffix: string
    var resultVisible: bool
    var resultSplit: Display.Segments
    var resultAttempts: nat

    /** The thread counter and the disabled flags, which every handler
        keeps. */
    ghost predicate Controls()
      reads this
    {
      && Counter()
      && (!isGenerating ==> minusDisabled == (threads <= 1) && plusDisabled == (threads >= maxThreads))
    }

    /** What holds even between a counter change and the `updateAll` that
        brings the button flags up to date. */
    ghost predicate Counter()
      reads this
    {
      && maxThreads >= 1 && 1 <= threads <= maxThreads
      && controlsDisabled == isGenerating
      && (isGenerating ==> minusDisabled && plusDisabled)
    }

    ghost predicate FieldOk(s: string)
      reads this
    {
      Display.IsBase58(s) && |s| <= |pubKey|
    }

    /** Between events: both fields hold base58 text that fits the example
        address together, and a running search uses the fields' pattern. */
    ghost predicate Valid()
      reads this
    {
      && Controls()
      && FieldOk(prefixValue) && FieldOk(suffixValue)
      && |prefixValue| + |suffixValue| <= |pubKey|
      && (isGenerating ==> runPrefix == prefixValue && runSuffix == suffixValue)
    }

    /** What `updateAll` leaves on screen outside a run: the preview and the
        estimate of the fields as they are, the legend "Estimated :" with
        0% progress, and the thread buttons enabled where the counter can
        still move. */
    ghost predicate Shows()
      reads this
    {
      && preview == Display.Placeholder(pubKey, prefixValue, suffixValue)
      && estimate.difficulty == Estimate.Difficulty(prefixValue + suffixValue, caseSensitive)
      && estimate.attemptsPerSecond == Estimate.Rate(speedPerThread, threads).Floor
      && estimate.expectedTimeSeconds == Estimate.ExpectedTime(estimate.difficulty, Estimate.Rate(speedPerThread, threads))
      && currentDifficulty == Display.CurrentDifficulty(estimate.difficulty)
      && legend == Estimated && progress == 0.0
      && minusDisabled == (threads <= 1) && plusDisabled == (threads >= maxThreads)
    }

    /** The state in which `updateAll` may run for an event from `target`:
        the field the event came from may hold any text. */
    ghost predicate ReadyFor(target: Target)
      reads this
    {
      && Counter()
      && (isGenerating ==> Valid())
      && (target != PrefixInput ==> FieldOk(prefixValue))
      && (target != SuffixInput ==> FieldOk(suffixValue))
      && (target == OtherControl ==> |prefixValue| + |suffixValue| <= |pubKey|)
    }

    /** The module's top level: the thread counter starts at the hardware
        concurrency (4 when unknown) and the page renders once. */
    constructor (pubKey: string, hardwareConcurrency: nat, speedPerThread: real)
      ensures Valid() && Shows() && !isGenerating
      ensures this.pubKey == pubKey && this.speedPerThread == speedPerThread
      ensures maxThreads == (if hardwareConcurrency == 0 then 4 else hardwareConcurrency)
      ensures threads == maxThreads && prefixValue == "" && suffixValue == ""
      ensures preview == Display.Segments("", pubKey, "")
      ensures currentDifficulty == 1 && estimate.difficulty == 1
    {
      this.pubKey := pubKey;
      this.speedPerThread := speedPerThread;
      maxThreads := if hardwareConcurrency == 0 then 4 else hardwareConcurrency;
      threads := if hardwareConcurrency == 0 then 4 else hardwareConcurrency;
      currentDifficulty := 1;
      isGenerating := false;
      prefixValue, suffixValue, caseSensitive := "", "", false;
      controlsDisabled, minusDisabled, plusDisabled := false, false, false;
      preview := Display.Segments("", "", "");
      estimate := Estimate.Estimate(1, 0, 0.0);
      legend, progress, attemptsShown := Estimated, 0.0, 0;
      runPrefix, runSuffix := "", "";
      resultVisible, resultSplit, resultAttempts := false, Display.Segments("", "", ""), 0;
      new;
      UpdateAll(OtherControl);
      assert pubKey[0..|pubKey|] == pubKey;
    }

    lemma TruncateKeepsFieldsOk(cleanPrefix: string, cleanSuffix: string, target: Target)
      requires Display.IsBase58(cleanPrefix) && Display.IsBase58(cleanSuffix)
      requires target != PrefixInput ==> |cleanPrefix| <= |pubKey|
      requires target != SuffixInput ==> |cleanSuffix| <= |pubKey|
      requires target == OtherControl ==> |cleanPrefix| + |cleanSuffix| <= |pubKey|
      ensures var r := Display.Truncate(cleanPrefix, cleanSuffix, target == SuffixInput, |pubKey|);
              FieldOk(r.prefix) && FieldOk(r.suffix) && |r.prefix| + |r.suffix| <= |pubKey|
    {
      var r := Display.Truncate(cleanPrefix, cleanSuffix, target == SuffixInput, |pubKey|);
      Base58Prefix(cleanPrefix, |r.prefix|);
      Base58Prefix(cleanSuffix, |r.suffix|);
    }

    /** `updateAll(e)`: nothing while a run is going; otherwise clean and
        limit the fields, then render the preview, the estimate and the
        thread buttons. */
    method UpdateAll(target: Target)
      requires ReadyFor(target)
      modifies this`prefixValue, this`suffixValue, this`preview, this`estimate, this`currentDifficulty,
               this`legend, this`progress, this`minusDisabled, this`plusDisabled
      ensures Valid()
      ensures old(isGenerating) ==> unchanged(this)
      ensures !old(isGenerating) ==>
                var r := Display.Truncate(Edited(old(prefixValue), target == PrefixInput),
                                          Edited(old(suffixValue), target == SuffixInput),
                                          target == SuffixInput, |pubKey|);
                prefixValue == r.prefix && suffixValue == r.suffix && Shows()
    {
      if isGenerating {
        return;
      }
      LimitFields(target);
      var est := Estimate.Compute(prefixValue, suffixValue, threads, caseSensitive, speedPerThread);
      Render(est);
    }

    /** Steps 1 and 2 of `updateAll`. */
    method LimitFields(target: Target)
      requires ReadyFor(target) && !isGenerating
      modifies this`prefixValue, this`suffixValue
      ensures var r := Display.Truncate(Edited(old(prefixValue), target == PrefixInput),
                                        Edited(old(suffixValue), target == SuffixInput),
                                        target == SuffixInput, |pubKey|);
              prefixValue == r.prefix && suffixValue == r.suffix
      ensures FieldOk(prefixValue) && FieldOk(suffixValue) && |prefixValue| + |suffixValue| <= |pubKey|
    {
      ghost var cleanPrefix := Edited(prefixValue, target == PrefixInput);
      ghost var cleanSuffix := Edited(suffixValue, target == SuffixInput);
      ghost var r := Display.Truncate(cleanPrefix, cleanSuffix, target == SuffixInput, |pubKey|);
      TruncateKeepsFieldsOk(cleanPrefix, cleanSuffix, target);
      // 1. only base58 characters in the field that was edited
      if target == PrefixInput {
        prefixValue := Display.Sanitize(prefixValue);
      } else if target == SuffixInput {
        suffixValue := Display.Sanitize(suffixValue);
      }
      var prefix := prefixValue;
      var suffix := suffixValue;
      // 2. prefix and suffix together no longer than the example address
      if |prefix| + |suffix| > |pubKey| {
        if target == SuffixInput {
          suffix := Display.Slice(suffix, 0, |pubKey| - |prefix|);
          suffixValue := suffix;
        } else {
          prefix := Display.Slice(prefix, 0, |pubKey| - |suffix|);
          prefixValue := prefix;
        }
      }
    }

    /** The rest of `updateAll`, for the fields as they now are and their
        estimate `est`. */
    method Render(est: Estimate.Estimate)
      requires Counter() && !isGenerating
      requires est.difficulty == Estimate.Difficulty(prefixValue + suffixValue, caseSensitive)
      requires est.attemptsPerSecond == Estimate.Rate(speedPerThread, threads).Floor
      requires est.expectedTimeSeconds == Estimate.ExpectedTime(est.difficulty, Estimate.Rate(speedPerThread, threads))
      modifies this`preview, this`estimate, this`currentDifficulty, this`legend, this`progress,
               this`minusDisabled, this`plusDisabled
      ensures Controls() && Shows() && estimate == est
    {
      // preview, estimate, legend and progress, then the button states
      preview, estimate, currentDifficulty := Display.Placeholder(pubKey, prefixValue, suffixValue), est,
                                              Display.CurrentDifficulty(est.difficulty);
      legend, progress := Estimated, 0.0;
      minusDisabled, plusDisabled := threads <= 1, threads >= maxThreads;
    }

    /** Typing into the prefix or suffix field. A disabled input receives no
        input events, so nothing happens during a run. */
    method OnInput(target: Target, text: string)
      requires Valid() && target != OtherControl
      modifies this`prefixValue, this`suffixValue, this`preview, this`estimate, this`currentDifficulty,
               this`legend, this`progress, this`minusDisabled, this`plusDisabled
      ensures Valid()
      ensures old(isGenerating) ==> unchanged(this)
      ensures !old(isGenerating) ==>
                var r := Display.Truncate(if target == PrefixInput then Display.Sanitize(text) else old(prefixValue),
                                          if target == SuffixInput then Display.Sanitize(text) else old(suffixValue),
                                          target == SuffixInput, |pubKey|);
                prefixValue == r.prefix && suffixValue == r.suffix && Shows()
    {
      if controlsDisabled {
        return;
      }
      if target == PrefixInput {
        prefixValue := text;
      } else {
        suffixValue := text;
      }
      UpdateAll(target);
    }

    /** Flipping the case-sensitivity switch (disabled during a run). */
    method OnCaseSwitch(selected: bool)
      requires Valid()
      modifies this`caseSensitive, this`prefixValue, this`suffixValue, this`preview, this`estimate,
               this`currentDifficulty, this`legend, this`progress, this`minusDisabled, this`plusDisabled
      ensures Valid()
      ensures old(isGenerating) ==> unchanged(this)
      ensures !old(isGenerating) ==>
                caseSensitive == selected && prefixValue == old(prefixValue) && suffixValue == old(suffixValue)
                && Shows()
    {
      if controlsDisabled {
        return;
      }
      caseSensitive := selected;
      UpdateAll(OtherControl);
    }

    /** The minus button's click handler. A disabled button receives no
        clicks: during a run, or with the counter at 1. */
    method OnThreadsMinus()
      requires Valid()
      modifies this`threads, this`prefixValue, this`suffixValue, this`preview, this`estimate,
               this`currentDifficulty, this`legend, this`progress, this`minusDisabled, this`plusDisabled
      ensures Valid()
      ensures old(minusDisabled) ==> unchanged(this)
      ensures !old(minusDisabled) ==>
                && threads == old(threads) - 1 && !isGenerating
                && prefixValue == old(prefixValue) && suffixValue == old(suffixValue) && Shows()
    {
      if minusDisabled {
        return;
      }
      if threads > 1 {
        threads := threads - 1;
        UpdateAll(OtherControl);
      }
    }

    /** The plus button's click handler. A disabled button receives no
        clicks: during a run, or with the counter at `maxThreads`. */
    method OnThreadsPlus()
      requires Valid()
      modifies this`threads, this`prefixValue, this`suffixValue, this`preview, this`estimate,
               this`currentDifficulty, this`legend, this`progress, this`minusDisabled, this`plusDisabled
      ensures Valid()
      ensures old(plusDisabled) ==> unchanged(this)
      ensures !old(plusDisabled) ==>
                && threads == old(threads) + 1 && !isGenerating
                && prefixValue == old(prefixValue) && suffixValue == old(suffixValue) && Shows()
    {
      if plusDisabled {
        return;
      }
      if threads < maxThreads {
        threads := threads + 1;
        UpdateAll(OtherControl);
      }
    }

    /** The synchronous start of the generate button's click handler, up to
        the call of `vanity`. A disabled button receives no clicks, so a
        second run cannot start while one is going. */
    method BeginGenerate() returns (started: bool)
      requires Valid()
      modifies this`runPrefix, this`runSuffix, this`isGenerating, this`controlsDisabled, this`minusDisabled,
               this`plusDisabled, this`legend, this`progress, this`resultVisible
      ensures Valid()
      ensures started == !old(isGenerating)
      ensures !started ==> unchanged(this)
      ensures started ==>
                && isGenerating && controlsDisabled && minusDisabled && plusDisabled
                && runPrefix == prefixValue && runSuffix == suffixValue
                && legend == InProgress && progress == 0.0 && !resultVisible
      ensures prefixValue == old(prefixValue) && suffixValue == old(suffixValue)
      ensures threads == old(threads) && caseSensitive == old(caseSensitive)
      ensures currentDifficulty == old(currentDifficulty)
    {
      if controlsDisabled {
        return false;
      }
      runPrefix, runSuffix := prefixValue, suffixValue;
      isGenerating := true;
      controlsDisabled := true;
      minusDisabled, plusDisabled := true, true;
      legend := InProgress;
      progress := 0.0;
      resultVisible := false;
      started := true;
    }

    /** The progress callback handed to `vanity`. */
    method OnSearchProgress(attempts: nat)
      requires Valid()
      modifies this`progress, this`attemptsShown
      ensures Valid()
      ensures progress == Display.ShownProgress(currentDifficulty, attempts)
      ensures currentDifficulty <= 1 ==> progress == 99.99
      ensures attemptsShown == attempts
      ensures isGenerating == old(isGenerating) && threads == old(threads)
      ensures prefixValue == old(prefixValue) && suffixValue == old(suffixValue)
      ensures currentDifficulty == old(currentDifficulty)
    {
      progress := Display.ShownProgress(currentDifficulty, attempts);
      attemptsShown := attempts;
    }

    /** The rest of the click handler, after the search promise settled:
        show the result or the error, then (the `finally` block) end the run
        on either path. */
    method FinishGenerate(outcome: Vanity.Outcome)
      requires Valid() && outcome != Vanity.Pending
      modifies this`resultSplit, this`resultAttempts, this`resultVisible, this`progress, this`attemptsShown,
               this`legend, this`isGenerating, this`controlsDisabled, this`minusDisabled, this`plusDisabled
      ensures Valid()
      ensures !isGenerating && !controlsDisabled
      ensures minusDisabled == (threads <= 1) && plusDisabled == (threads >= maxThreads)
      ensures outcome.Resolved? ==>
                && resultVisible && legend == Completed && progress == 100.0
                && resultSplit == Display.SplitResult(outcome.result.address, runPrefix, runSuffix)
                && resultAttempts == outcome.result.attempts && attemptsShown == outcome.result.attempts
      ensures outcome.Resolved? && |runPrefix| + |runSuffix| <= |outcome.result.address| ==>
                Display.Join(resultSplit) == outcome.result.address
      ensures outcome.Rejected? ==>
                && legend == Failed && resultVisible == old(resultVisible)
                && progress == old(progress) && attemptsShown == old(attemptsShown)
                && resultSplit == old(resultSplit) && resultAttempts == old(resultAttempts)
      ensures prefixValue == old(prefixValue) && suffixValue == old(suffixValue)
      ensures threads == old(threads) && runPrefix == old(runPrefix) && runSuffix == old(runSuffix)
    {
      if outcome.Resolved? {
        var r := outcome.result;
        resultSplit := Display.SplitResult(r.address, runPrefix, runSuffix);
        resultAttempts := r.attempts;
        resultVisible := true;
        progress := 100.0;
        attemptsShown := r.attempts;
        legend := Completed;
      } else {
        legend := Failed;
      }
      isGenerating := false;
      controlsDisabled := false;
      minusDisabled := threads <= 1;
      plusDisabled := threads >= maxThreads;
    }
  }

  /** Any sequence of thread button clicks (true for plus) keeps the counter
      within 1 .. maxThreads and the buttons' flags in step with it. */
  method ClickThreads(form: Form, clicks: seq<bool>)
    requires form.Valid()
    modifies form
    ensures form.Valid() && 1 <= form.threads <= form.maxThreads
    ensures !form.isGenerating ==>
              form.minusDisabled == (form.threads <= 1) && form.plusDisabled == (form.threads >= form.maxThreads)
  {
    for i := 0 to |clicks|
      invariant form.Valid()
    {
      if clicks[i] {
        form.OnThreadsPlus();
      } else {
        form.OnThreadsMinus();
      }
    }
  }
}
