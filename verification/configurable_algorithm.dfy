/** The engine hot-swap stream of the configurable Game of Life algorithm.

    The persisted algorithm choice picks an engine. The stream of generations
    is a loop that waits for either a new algorithm choice or the next
    generation of the engine currently producing. A new choice cancels the
    current producer and starts a new one from the last emitted state; a
    delivered generation is emitted and becomes that restart point.

    The loop is modelled as a state machine folded over a trace of events.
    Producers are numbered; an event names the producer that delivered. The
    engines are a parameter `compute`: a producer started from `s` yields
    `compute(engine, s, step)`, then the same function of that, and so on. */
module ConfigurableAlgorithm {
  import opened Wrappers
  import opened Cells

  /** The persisted algorithm preference. */
  datatype AlgorithmChoice = Unknown | Default | HashLife | Naive | Unrecognized

  datatype Engine = NaiveEngine | HashLifeEngine

  /** One step of an engine: the generation `step` generations after a state. */
  type Compute = (Engine, CellState, int) -> CellState

  /** The engine a choice selects: only `Naive` picks the naive engine; the
      unknown, default and unrecognised values fall back to HashLife. */
  function CurrentAlgorithm(choice: AlgorithmChoice): (e: Engine)
    ensures e == NaiveEngine <==> choice == Naive
    ensures e == HashLifeEngine <==> choice in {Unknown, Default, HashLife, Unrecognized}
  {
    match choice
    case Unknown | Default | HashLife | Unrecognized => HashLifeEngine
    case Naive => NaiveEngine
  }

  /** The single-shot computation delegates to the engine of the current choice. */
  function ComputeGenerationWithStep(choice: AlgorithmChoice, compute: Compute, cellState: CellState, step: int): (r: CellState)
    ensures choice == Naive ==> r == compute(NaiveEngine, cellState, step)
    ensures choice != Naive ==> r == compute(HashLifeEngine, cellState, step)
  {
    compute(CurrentAlgorithm(choice), cellState, step)
  }

  /** A running producer: its number, its engine and the state it last produced
      (or started from). */
  datatype Producer = Producer(id: nat, engine: Engine, cursor: CellState)

  /** The loop's variables: the last emitted (or the original) state, the
      current producer if any, and the number the next producer will get. */
  datatype Switcher = Switcher(cellState: CellState, producer: Option<Producer>, nextId: nat)

  /** Every producer number handed out is below `nextId`, and the current
      producer continues from exactly the restart state. */
  predicate Valid(s: Switcher) {
    s.producer.Some? ==> s.producer.value.id < s.nextId && s.producer.value.cursor == s.cellState
  }

  /** Before any algorithm value arrives there is no producer. */
  function Start(original: CellState): (s: Switcher)
    ensures Valid(s) && s.producer.None? && s.cellState == original
  {
    Switcher(original, None, 0)
  }

  datatype Event =
    | AlgorithmUpdate(choice: AlgorithmChoice)
    | Deliver(producerId: nat)

  /** What the stream sends: the state, and which producer and engine made it. */
  datatype Emission = Emission(producerId: nat, engine: Engine, state: CellState)

  datatype Outcome = Switched | Sent(emission: Emission) | Ignored

  /** One turn of the loop. An update cancels the current producer and starts
      a fresh one from the restart state; a delivery from the current producer
      is emitted and becomes the restart state; a delivery from any other
      producer (a cancelled one) changes nothing. */
  function Step(s: Switcher, e: Event, compute: Compute, step: int): (r: (Switcher, Outcome))
    ensures Valid(s) ==> Valid(r.0)
    ensures r.0.nextId >= s.nextId
    ensures r.1.Switched? <==> e.AlgorithmUpdate?
    ensures r.1.Switched? ==>
      && r.0.cellState == s.cellState
      && r.0.producer.Some?
      && r.0.producer.value.engine == CurrentAlgorithm(e.choice)
      && r.0.producer.value.cursor == s.cellState
      && r.0.producer.value.id == s.nextId
    ensures r.1.Sent? <==> s.producer.Some? && e == Deliver(s.producer.value.id)
    ensures r.1.Sent? ==>
      && r.1.emission.producerId == s.producer.value.id
      && r.1.emission.engine == s.producer.value.engine
      && r.1.emission.state == compute(s.producer.value.engine, s.producer.value.cursor, step)
      && r.0.cellState == r.1.emission.state
      && r.0.producer.Some? && r.0.producer.value.id == s.producer.value.id
      && r.0.producer.value.engine == s.producer.value.engine
    ensures r.1.Ignored? ==> r.0 == s
  {
    match e
    case AlgorithmUpdate(choice) =>
      (Switcher(s.cellState, Some(Producer(s.nextId, CurrentAlgorithm(choice), s.cellState)), s.nextId + 1), Switched)
    case Deliver(id) =>
      if s.producer.Some? && s.producer.value.id == id then
        var p := s.producer.value;
        var next := compute(p.engine, p.cursor, step);
        (Switcher(next, Some(p.(cursor := next)), s.nextId), Sent(Emission(id, p.engine, next)))
      else
        (s, Ignored)
  }

  /** Folds the loop over a trace: the final variables and everything sent. */
  function Run(s: Switcher, events: seq<Event>, compute: Compute, step: int): (r: (Switcher, seq<Emission>))
    ensures |r.1| <= |events|
    decreases |events|
  {
    if |events| == 0 then (s, [])
    else
      var (next, outcome) := Step(s, events[0], compute, step);
      var (last, rest) := Run(next, events[1..], compute, step);
      (last, (if outcome.Sent? then [outcome.emission] else []) + rest)
  }

  /** The stream's output: the states sent, in order. */
  function States(emissions: seq<Emission>): (r: seq<CellState>)
    ensures |r| == |emissions|
    ensures forall i :: 0 <= i < |r| ==> r[i] == emissions[i].state
  {
    if |emissions| == 0 then [] else [emissions[0].state] + States(emissions[1..])
  }

  /** The state a new producer would start from: the last one sent, or the
      original when nothing has been sent. */
  function RestartState(original: CellState, emissions: seq<Emission>): CellState {
    if |emissions| == 0 then original else emissions[|emissions| - 1].state
  }

  /** Each emission is one engine step from the state before it (the
      previous emission, or the starting state for the first). */
  predicate Chained(previous: CellState, emissions: seq<Emission>, compute: Compute, step: int)
    decreases |emissions|
  {
    |emissions| == 0 ||
    (emissions[0].state == compute(emissions[0].engine, previous, step)
     && Chained(emissions[0].state, emissions[1..], compute, step))
  }

  /** The most recent algorithm choice in a trace, if any. */
  function LastChoice(events: seq<Event>): Option<AlgorithmChoice>
    decreases |events|
  {
    if |events| == 0 then None
    else if events[|events| - 1].AlgorithmUpdate? then Some(events[|events| - 1].choice)
    else LastChoice(events[..|events| - 1])
  }

  // ----- properties of the loop -----------------------------------------------

  /** With no producer and no algorithm update, nothing is sent and nothing changes. */
  lemma {:induction false} NothingBeforeFirstUpdate(s: Switcher, events: seq<Event>, compute: Compute, step: int)
    requires s.producer.None?
    requires forall i :: 0 <= i < |events| ==> events[i].Deliver?
    ensures Run(s, events, compute, step) == (s, [])
    decreases |events|
  {
    if |events| > 0 {
      NothingBeforeFirstUpdate(s, events[1..], compute, step);
    }
  }

  /** Validity holds throughout a run. */
  lemma {:induction false} RunKeepsValid(s: Switcher, events: seq<Event>, compute: Compute, step: int)
    requires Valid(s)
    ensures Valid(Run(s, events, compute, step).0)
    decreases |events|
  {
    if |events| > 0 {
      RunKeepsValid(Step(s, events[0], compute, step).0, events[1..], compute, step);
    }
  }

  /** After a run, the loop restarts from the last state it sent, or from the
      state it started from if it sent nothing. */
  lemma {:induction false} RestartFromLastEmitted(s: Switcher, events: seq<Event>, compute: Compute, step: int)
    ensures Run(s, events, compute, step).0.cellState == RestartState(s.cellState, Run(s, events, compute, step).1)
    decreases |events|
  {
    if |events| > 0 {
      var (next, outcome) := Step(s, events[0], compute, step);
      RestartFromLastEmitted(next, events[1..], compute, step);
    }
  }

  /** An algorithm update after any history starts the new producer from the
      last state sent, or from the original state if none was sent. */
  lemma UpdateRestartsFromLastEmitted(original: CellState, events: seq<Event>, choice: AlgorithmChoice, compute: Compute, step: int)
    ensures var (s, sent) := Run(Start(original), events, compute, step);
            var p := Step(s, AlgorithmUpdate(choice), compute, step).0.producer;
            p.Some? && p.value.cursor == RestartState(original, sent) && p.value.engine == CurrentAlgorithm(choice)
  {
    RestartFromLastEmitted(Start(original), events, compute, step);
  }

  /** Every emission of a run continues from the one before it: switching
      engines never skips or repeats a generation. */
  lemma {:induction false} EmissionsAreChained(s: Switcher, events: seq<Event>, compute: Compute, step: int)
    requires Valid(s)
    ensures Chained(s.cellState, Run(s, events, compute, step).1, compute, step)
    decreases |events|
  {
    if |events| > 0 {
      var (next, outcome) := Step(s, events[0], compute, step);
      EmissionsAreChained(next, events[1..], compute, step);
      var rest := Run(next, events[1..], compute, step).1;
      if outcome.Sent? {
        assert ([outcome.emission] + rest)[1..] == rest;
      } else {
        assert [] + rest == rest;
      }
    }
  }

  /** Producers numbered below `bound` never send anything, provided the
      current producer (if any) and every future one are numbered from `bound`. */
  lemma {:induction false} OnlyLaterProducersSend(s: Switcher, events: seq<Event>, compute: Compute, step: int, bound: nat)
    requires bound <= s.nextId
    requires s.producer.Some? ==> s.producer.value.id >= bound
    ensures forall em :: em in Run(s, events, compute, step).1 ==> em.producerId >= bound
    decreases |events|
  {
    if |events| > 0 {
      var (next, outcome) := Step(s, events[0], compute, step);
      OnlyLaterProducersSend(next, events[1..], compute, step, bound);
    }
  }

  /** Once an update cancels a producer, nothing that producer delivers
      afterwards is ever sent. */
  lemma CancelledProducerNeverSends(s: Switcher, choice: AlgorithmChoice, events: seq<Event>, compute: Compute, step: int)
    requires Valid(s) && s.producer.Some?
    ensures var after := Step(s, AlgorithmUpdate(choice), compute, step).0;
            forall em :: em in Run(after, events, compute, step).1 ==> em.producerId != s.producer.value.id
  {
    var after := Step(s, AlgorithmUpdate(choice), compute, step).0;
    OnlyLaterProducersSend(after, events, compute, step, s.nextId);
  }

  /** Each turn either sends a state or switches engines, never both; a
      switch keeps the restart state, a send changes nothing but it and the
      producer's position. */
  lemma SendOrSwitch(s: Switcher, e: Event, compute: Compute, step: int)
    requires Valid(s)
    ensures var (next, outcome) := Step(s, e, compute, step);
            && (outcome.Switched? ==> next.cellState == s.cellState)
            && (outcome.Sent? ==> next.producer.value == s.producer.value.(cursor := outcome.emission.state))
  {
  }

  /** The current producer always runs the engine of the latest choice, and
      exists exactly when some choice has arrived. */
  lemma {:induction false} ProducerFollowsLatestChoice(original: CellState, events: seq<Event>, compute: Compute, step: int)
    ensures var s := Run(Start(original), events, compute, step).0;
            (s.producer.Some? <==> LastChoice(events).Some?)
            && (s.producer.Some? ==> s.producer.value.engine == CurrentAlgorithm(LastChoice(events).value))
    decreases |events|
  {
    if |events| > 0 {
      var init := events[..|events| - 1];
      var e := events[|events| - 1];
      ProducerFollowsLatestChoice(original, init, compute, step);
      RunSnoc(Start(original), init, e, compute, step);
      assert events == init + [e];
    }
  }

  /** Running a trace extended by one event is running the trace, then one step. */
  lemma {:induction false} RunSnoc(s: Switcher, events: seq<Event>, e: Event, compute: Compute, step: int)
    ensures var (mid, sent) := Run(s, events, compute, step);
            var (last, outcome) := Step(mid, e, compute, step);
            Run(s, events + [e], compute, step) == (last, sent + (if outcome.Sent? then [outcome.emission] else []))
    decreases |events|
  {
    if |events| == 0 {
      assert events + [e] == [e];
      var (last, outcome) := Step(s, e, compute, step);
      var tail: seq<Emission> := if outcome.Sent? then [outcome.emission] else [];
      assert [e][1..] == [];
      assert tail + [] == tail && [] + tail == tail;
    } else {
      var (next, outcome) := Step(s, events[0], compute, step);
      assert (events + [e])[0] == events[0];
      assert (events + [e])[1..] == events[1..] + [e];
      RunSnoc(next, events[1..], e, compute, step);
      var head: seq<Emission> := if outcome.Sent? then [outcome.emission] else [];
      var (mid, sent) := Run(next, events[1..], compute, step);
      var (last, final) := Step(mid, e, compute, step);
      var tail: seq<Emission> := if final.Sent? then [final.emission] else [];
      assert head + (sent + tail) == (head + sent) + tail;
    }
  }

  /** Updates are conflated: two updates in a row leave the loop as the last
      one alone would, apart from the producer's number. */
  lemma UpdatesConflate(s: Switcher, first: AlgorithmChoice, second: AlgorithmChoice, compute: Compute, step: int)
    ensures var (both, o1) := Step(Step(s, AlgorithmUpdate(first), compute, step).0, AlgorithmUpdate(second), compute, step);
            var (only, o2) := Step(s, AlgorithmUpdate(second), compute, step);
            && o1 == o2 == Switched
            && both.cellState == only.cellState
            && both.producer.Some? && only.producer.Some?
            && both.producer.value.engine == only.producer.value.engine
            && both.producer.value.cursor == only.producer.value.cursor
  {
  }

  /** The first generation the stream sends after the first choice is what
      the single-shot computation returns for that choice. */
  lemma SingleShotAgreesWithStream(original: CellState, choice: AlgorithmChoice, compute: Compute, step: int)
    ensures States(Run(Start(original), [AlgorithmUpdate(choice), Deliver(0)], compute, step).1)
            == [ComputeGenerationWithStep(choice, compute, original, step)]
  {
    var events := [AlgorithmUpdate(choice), Deliver(0)];
    var s1 := Step(Start(original), events[0], compute, step).0;
    var s2 := Step(s1, events[1], compute, step).0;
    assert events[1..][1..] == [];
    assert Run(s2, [], compute, step).1 == [];
  }
}
