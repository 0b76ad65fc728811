/** The coordinator of a search: it starts the workers, adds up their
    progress reports into a running total, forwards that total to the
    progress callback on every timer tick, and settles the search promise
    at the first match or worker error. The JavaScript event loop delivers
    ticks and worker events one at a time, so the coordinator is a state
    machine over a sequence of inputs. */
module Vanity {
  import Worker

  /** The value the promise resolves with (the elapsed time is left out). */
  datatype SearchResult = SearchResult(address: string, privateKey: string, attempts: nat)

  /** The promise: still pending, resolved with a result, or rejected. */
  datatype Outcome = Pending | Resolved(result: SearchResult) | Rejected

  /** What the event loop hands the coordinator: a tick of the 20 ms
      progress interval, or an event from one of the workers. */
  datatype Input = Tick | Deliver(e: Worker.Event)

  /** `running` holds the indices of the workers not yet terminated;
      `reported` lists every value passed to the progress callback. */
  datatype Coord = Coord(total: nat, intervalActive: bool, outcome: Outcome,
                         reported: seq<nat>, running: set<nat>)

  /** The indices 0 .. cpu - 1 of the workers started by the loop. */
  function Range(cpu: int): (r: set<nat>)
    ensures forall i: int :: i in r <==> 0 <= i < cpu
  {
    if cpu <= 0 then {} else Range(cpu - 1) + {(cpu - 1) as nat}
  }

  /** The state right after the promise executor ran: the callback has been
      called with 0 and the interval armed. */
  function Start(cpu: int, hasCallback: bool): (s: Coord)
    ensures s.total == 0 && s.intervalActive && s.outcome == Pending
    ensures forall i: int :: i in s.running <==> 0 <= i < cpu
    ensures s.reported == (if hasCallback then [0] else [])
  {
    Coord(0, true, Pending, if hasCallback then [0] else [], Range(cpu))
  }

  /** A promise settles only once: later resolve/reject calls are ignored. */
  function Settle(o: Outcome, next: Outcome): (r: Outcome)
    ensures r == o || r == next
    ensures r == Pending <==> o == Pending && next == Pending
  {
    if o.Pending? then next else o
  }

  /** One input handled by the coordinator. A settled promise keeps its
      outcome, the total only grows and grows only by a progress report,
      and only a tick calls the callback. */
  function Step(s: Coord, x: Input, hasCallback: bool): (r: Coord)
    ensures s.outcome != Pending ==> r.outcome == s.outcome
    ensures s.total <= r.total
    ensures r.total != s.total ==> x.Deliver? && x.e.Progress? && r.total == s.total + x.e.n
    ensures r.reported != s.reported ==> x.Tick? && r.reported == s.reported + [s.total]
    ensures r.running <= s.running
  {
    match x
    case Tick =>
      if s.intervalActive && hasCallback then s.(reported := s.reported + [s.total]) else s
    case Deliver(Found(a, p, n)) =>
      s.(intervalActive := false, running := {},
         outcome := Settle(s.outcome, Resolved(SearchResult(a, p, s.total + n))))
    case Deliver(Progress(n)) =>
      if n != 0 then s.(total := s.total + n) else s
    case Deliver(Error) =>
      s.(intervalActive := false, outcome := Settle(s.outcome, Rejected))
  }

  /** The state after the inputs `xs`, in order. */
  function Run(cpu: int, hasCallback: bool, xs: seq<Input>): Coord {
    if xs == [] then Start(cpu, hasCallback)
    else Step(Run(cpu, hasCallback, xs[..|xs| - 1]), xs[|xs| - 1], hasCallback)
  }

  /** Reference definition of the total: the sum of all progress reports. */
  function ProgressSum(xs: seq<Input>): nat {
    if xs == [] then 0
    else
      var x := xs[|xs| - 1];
      ProgressSum(xs[..|xs| - 1]) + (if x.Deliver? && x.e.Progress? then x.e.n else 0)
  }

  lemma RunAppend(cpu: int, hasCallback: bool, xs: seq<Input>, x: Input)
    ensures Run(cpu, hasCallback, xs + [x]) == Step(Run(cpu, hasCallback, xs), x, hasCallback)
    ensures ProgressSum(xs + [x]) == ProgressSum(xs) + (if x.Deliver? && x.e.Progress? then x.e.n else 0)
  {
    assert (xs + [x])[..|xs|] == xs;
  }

  /** Settling is once and for all: after a resolve or reject, every later
      resolve or reject is ignored, and on a pending promise the first one
      takes effect. */
  lemma SettleOnce(o: Outcome, first: Outcome, later: Outcome)
    requires first != Pending
    ensures Settle(Settle(o, first), later) == Settle(o, first)
    ensures Settle(o, first) != Pending
    ensures o == Pending ==> Settle(o, first) == first
  {
  }

  /** The interval callback passes the current total, the sum of the
      progress reports so far, while the interval is armed and a callback
      was given; otherwise a tick changes nothing. */
  lemma TickReports(cpu: int, hasCallback: bool, xs: seq<Input>)
    ensures var s := Run(cpu, hasCallback, xs);
            Run(cpu, hasCallback, xs + [Tick]) ==
              if s.intervalActive && hasCallback then s.(reported := s.reported + [ProgressSum(xs)]) else s
  {
    RunAppend(cpu, hasCallback, xs, Tick);
    RunTotal(cpu, hasCallback, xs);
  }

  /** The total is exactly the sum of the progress reports received. */
  lemma {:induction false} RunTotal(cpu: int, hasCallback: bool, xs: seq<Input>)
    ensures Run(cpu, hasCallback, xs).total == ProgressSum(xs)
  {
    if xs != [] {
      RunTotal(cpu, hasCallback, xs[..|xs| - 1]);
    }
  }

  /** The total never decreases. */
  lemma {:induction false} TotalMonotone(cpu: int, hasCallback: bool, xs: seq<Input>, ys: seq<Input>)
    ensures Run(cpu, hasCallback, xs).total <= Run(cpu, hasCallback, xs + ys).total
  {
    if ys != [] {
      var init := ys[..|ys| - 1];
      TotalMonotone(cpu, hasCallback, xs, init);
      assert xs + ys == (xs + init) + [ys[|ys| - 1]];
      RunAppend(cpu, hasCallback, xs + init, ys[|ys| - 1]);
    } else {
      assert xs + ys == xs;
    }
  }

  /** What every reachable state satisfies: the reported values are
      non-decreasing, start with 0 and never exceed the total; a settled
      promise has its interval cleared. */
  ghost predicate Inv(s: Coord, hasCallback: bool) {
    && (forall i, j :: 0 <= i < j < |s.reported| ==> s.reported[i] <= s.reported[j])
    && (forall i :: 0 <= i < |s.reported| ==> s.reported[i] <= s.total)
    && (hasCallback <==> s.reported != [])
    && (hasCallback ==> s.reported[0] == 0)
    && (s.outcome != Pending ==> !s.intervalActive)
  }

  lemma {:induction false} RunInv(cpu: int, hasCallback: bool, xs: seq<Input>)
    ensures Inv(Run(cpu, hasCallback, xs), hasCallback)
  {
    if xs != [] {
      RunInv(cpu, hasCallback, xs[..|xs| - 1]);
    }
  }

  /** The first value passed to the callback is 0, and every later value is
      at least the one before. */
  lemma ReportedNonDecreasing(cpu: int, hasCallback: bool, xs: seq<Input>)
    ensures var r := Run(cpu, hasCallback, xs).reported;
            (hasCallback ==> r != [] && r[0] == 0) &&
            (forall i, j :: 0 <= i < j < |r| ==> r[i] <= r[j])
  {
    RunInv(cpu, hasCallback, xs);
  }

  /** Once resolved or rejected, the outcome never changes and the callback
      is never called again. */
  lemma {:induction false} SettledIsFinal(cpu: int, hasCallback: bool, xs: seq<Input>, ys: seq<Input>)
    requires Run(cpu, hasCallback, xs).outcome != Pending
    ensures Run(cpu, hasCallback, xs + ys).outcome == Run(cpu, hasCallback, xs).outcome
    ensures Run(cpu, hasCallback, xs + ys).reported == Run(cpu, hasCallback, xs).reported
    ensures !Run(cpu, hasCallback, xs + ys).intervalActive
  {
    RunInv(cpu, hasCallback, xs);
    if ys != [] {
      var init := ys[..|ys| - 1];
      SettledIsFinal(cpu, hasCallback, xs, init);
      assert xs + ys == (xs + init) + [ys[|ys| - 1]];
      RunAppend(cpu, hasCallback, xs + init, ys[|ys| - 1]);
    } else {
      assert xs + ys == xs;
    }
  }

  /** The first match resolves the search with the total plus the matching
      worker's unreported batch, which is at least every value reported so
      far; the interval is cleared and every worker terminated. */
  lemma FirstMatchResolves(cpu: int, hasCallback: bool, xs: seq<Input>, a: string, p: string, n: nat)
    requires Run(cpu, hasCallback, xs).outcome == Pending
    ensures var s := Run(cpu, hasCallback, xs + [Deliver(Worker.Found(a, p, n))]);
            && s.outcome == Resolved(SearchResult(a, p, ProgressSum(xs) + n))
            && !s.intervalActive && s.running == {}
            && (forall i :: 0 <= i < |s.reported| ==> s.reported[i] <= s.outcome.result.attempts)
  {
    RunAppend(cpu, hasCallback, xs, Deliver(Worker.Found(a, p, n)));
    RunTotal(cpu, hasCallback, xs);
    RunInv(cpu, hasCallback, xs);
  }

  /** A worker error on a pending search rejects it and stops the interval;
      the workers are not terminated. */
  lemma ErrorRejects(cpu: int, hasCallback: bool, xs: seq<Input>)
    requires Run(cpu, hasCallback, xs).outcome == Pending
    ensures var s := Run(cpu, hasCallback, xs + [Deliver(Worker.Error)]);
            s.outcome == Rejected && !s.intervalActive &&
            s.running == Run(cpu, hasCallback, xs).running
  {
    RunAppend(cpu, hasCallback, xs, Deliver(Worker.Error));
  }

  /** The inputs produced by delivering a worker's events in order. */
  function Deliveries(events: seq<Worker.Event>): seq<Input> {
    seq(|events|, i requires 0 <= i < |events| => Deliver(events[i]))
  }

  /** Delivering two runs of events one after the other is delivering
      their concatenation. */
  lemma DeliveriesAppend(a: seq<Worker.Event>, b: seq<Worker.Event>)
    ensures Deliveries(a + b) == Deliveries(a) + Deliveries(b)
  {
  }

  lemma {:induction false} DeliveredProgress(cpu: int, hasCallback: bool, events: seq<Worker.Event>)
    requires forall i :: 0 <= i < |events| ==> events[i].Progress?
    ensures Run(cpu, hasCallback, Deliveries(events)).outcome == Pending
    ensures ProgressSum(Deliveries(events)) == Worker.Total(events)
  {
    if events != [] {
      var init := events[..|events| - 1];
      DeliveredProgress(cpu, hasCallback, init);
      DeliveriesAppend(init, [events[|events| - 1]]);
      assert events == init + [events[|events| - 1]];
      RunAppend(cpu, hasCallback, Deliveries(init), Deliver(events[|events| - 1]));
    }
  }

  /** A search with one worker whose events all reach the coordinator in
      order resolves with exactly as many attempts as the worker accounted
      for. */
  lemma SingleWorkerAttempts(cpu: int, hasCallback: bool, events: seq<Worker.Event>)
    requires events != [] && events[|events| - 1].Found?
    requires forall i :: 0 <= i < |events| - 1 ==> events[i].Progress?
    ensures var f := events[|events| - 1];
            Run(cpu, hasCallback, Deliveries(events)).outcome ==
              Resolved(SearchResult(f.address, f.privateKey, Worker.Total(events)))
  {
    var init := events[..|events| - 1];
    var f := events[|events| - 1];
    DeliveredProgress(cpu, hasCallback, init);
    DeliveriesAppend(init, [f]);
    assert events == init + [f];
    FirstMatchResolves(cpu, hasCallback, Deliveries(init), f.address, f.privateKey, f.n);
    Worker.TotalAppend(init, f);
    assert events == init + [f];
  }

  /** The pieces of `vanity` that hold state: the closure variables `total`,
      `workers`, the interval and the promise. */
  class Search {
    const hasCallback: bool
    const workers: seq<nat>
    var total: nat
    var intervalActive: bool
    var outcome: Outcome
    var reported: seq<nat>
    var running: set<nat>

    /** Only started workers can be running. */
    ghost predicate Valid()
      reads this
    {
      forall w :: w in running ==> w in workers
    }

    function State(): Coord
      reads this
    {
      Coord(total, intervalActive, outcome, reported, running)
    }

    /** The promise executor: report 0, arm the interval and start `cpu`
        workers (each one is pushed to `workers` and sent the pattern). */
    constructor (cpu: int, hasCallback: bool)
      ensures Valid() && State() == Start(cpu, hasCallback) && this.hasCallback == hasCallback
      ensures |workers| == if cpu <= 0 then 0 else cpu
      ensures forall i :: 0 <= i < |workers| ==> workers[i] == i
    {
      this.hasCallback := hasCallback;
      var ws: seq<nat> := [];
      var live: set<nat> := {};
      var i := 0;
      while i < cpu
        invariant 0 <= i <= if cpu <= 0 then 0 else cpu
        invariant |ws| == i && forall j :: 0 <= j < i ==> ws[j] == j
        invariant live == Range(i)
        invariant forall w :: w in live ==> w in ws
      {
        ws := ws + [i];
        live := live + {i};
        i := i + 1;
      }
      workers := ws;
      total := 0;
      intervalActive := true;
      outcome := Pending;
      reported := if hasCallback then [0] else [];
      running := live;
    }

    /** The interval callback. */
    method OnTick()
      requires Valid()
      modifies this
      ensures Valid() && State() == Step(old(State()), Tick, hasCallback)
    {
      if intervalActive && hasCallback {
        reported := reported + [total];
      }
    }

    /** The worker's `onmessage` handler. */
    method OnMessage(e: Worker.Event)
      requires Valid() && !e.Error?
      modifies this
      ensures Valid() && State() == Step(old(State()), Deliver(e), hasCallback)
    {
      if e.Found? {
        intervalActive := false;
        var live := running;
        var j := 0;
        while j < |workers|
          invariant 0 <= j <= |workers|
          invariant live == running - set k | 0 <= k < j :: workers[k]
        {
          live := live - {workers[j]};
          j := j + 1;
        }
        assert forall w :: w in running ==> w in set k | 0 <= k < |workers| :: workers[k];
        running := live;
        if outcome.Pending? {
          outcome := Resolved(SearchResult(e.address, e.privateKey, total + e.n));
        }
      } else if e.n != 0 {
        total := total + e.n;
      }
    }

    /** The worker's `onerror` handler. */
    method OnError()
      requires Valid()
      modifies this
      ensures Valid() && State() == Step(old(State()), Deliver(Worker.Error), hasCallback)
    {
      intervalActive := false;
      if outcome.Pending? {
        outcome := Rejected;
      }
    }
  }
}
