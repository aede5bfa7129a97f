/** The `Counter` component: one integer `count`, seeded from the optional
    `initialCounter` property normalised by `initialCounter || 0`, and three
    button handlers that overwrite it (increment, decrement, reset to the seed).
    The model assumes the property stays fixed while the component is mounted,
    so it is a constant field; `count` is the one mutable field. Rendering is
    not modelled. */
module CounterComponent {
  import opened JsValues
  import JsParseInt

  /** `initialCounter || 0`: the value the count starts from and returns to. */
  function SeedOf(initialCounter: Optional<Num>): int
  {
    NumberOr(initialCounter, 0)
  }

  /** The three user actions, one per button. */
  datatype Action = Increment | Decrement | Reset

  /** The count after one action, from `count`, for a component seeded with `seed`. */
  function Next(seed: int, count: int, a: Action): int
  {
    match a
    case Increment => count + 1
    case Decrement => count - 1
    case Reset => seed
  }

  /** The count after the actions `acts`, in order, from `count`. */
  function Run(seed: int, count: int, acts: seq<Action>): int
    decreases |acts|
  {
    if acts == [] then count else Run(seed, Next(seed, count, acts[0]), acts[1..])
  }

  class Counter {
    /** The property as passed in at mounting, assumed fixed from then on. */
    const initialCounter: Optional<Num>
    /** The displayed count (the `useState` variable). */
    var count: int

    /** The normalised seed `initialCounter || 0`. */
    function Seed(): int
    {
      SeedOf(initialCounter)
    }

    /** Mounting the component: the count starts at the normalised seed. */
    constructor (initialCounter: Optional<Num>)
      ensures this.initialCounter == initialCounter
      ensures count == SeedOf(initialCounter)
    {
      this.initialCounter := initialCounter;
      count := SeedOf(initialCounter);
    }

    /** The Increment button: `setCount(count + 1)`. */
    method Increment()
      modifies this`count
      ensures count == old(count) + 1
      ensures count == Next(Seed(), old(count), Action.Increment)
    {
      count := count + 1;
    }

    /** The Decrement button: `setCount(count - 1)`, with no lower bound. */
    method Decrement()
      modifies this`count
      ensures count == old(count) - 1
      ensures count == Next(Seed(), old(count), Action.Decrement)
    {
      count := count - 1;
    }

    /** The Reset button: `setCount(initialCounter || 0)`, the same expression
        the constructor uses. */
    method Reset()
      modifies this`count
      ensures count == SeedOf(initialCounter)
      ensures count == Next(Seed(), old(count), Action.Reset)
    {
      count := SeedOf(initialCounter);
    }
  }

  // ---------------------------------------------------------------------------
  // Properties of the seed and of sequences of actions.

  /** The seed is 0 exactly when the property is absent, 0 or NaN, and is the
      property's value otherwise. */
  lemma SeedNormalisation(initialCounter: Optional<Num>)
    ensures SeedOf(initialCounter) == 0 <==>
      initialCounter == Undefined || initialCounter == Defined(NaN) || initialCounter == Defined(Int(0))
    ensures initialCounter.Defined? && initialCounter.value.Int? && initialCounter.value.value != 0 ==>
      SeedOf(initialCounter) == initialCounter.value.value
  {
    match initialCounter {
      case Undefined =>
      case Defined(v) =>
        match v {
          case NaN =>
          case Int(n) =>
        }
    }
  }

  /** Running `xs` then `ys` is running `ys` from where `xs` left the count. */
  lemma {:induction false} RunAppend(seed: int, count: int, xs: seq<Action>, ys: seq<Action>)
    ensures Run(seed, count, xs + ys) == Run(seed, Run(seed, count, xs), ys)
    decreases |xs|
  {
    if xs != [] {
      assert (xs + ys)[0] == xs[0];
      assert (xs + ys)[1..] == xs[1..] + ys;
      RunAppend(seed, Next(seed, count, xs[0]), xs[1..], ys);
    } else {
      assert xs + ys == ys;
    }
  }

  /** Reset returns the count to the seed whatever came before. */
  lemma ResetRestoresSeed(seed: int, count: int, acts: seq<Action>)
    ensures Run(seed, count, acts + [Reset]) == seed
  {
    RunAppend(seed, count, acts, [Reset]);
  }

  /** Everything before a Reset is forgotten: only what follows it matters,
      and it runs from the seed, as on a freshly mounted component. */
  lemma ResetForgetsHistory(seed: int, count: int, before: seq<Action>, after: seq<Action>)
    ensures Run(seed, count, before + [Reset] + after) == Run(seed, seed, after)
  {
    RunAppend(seed, count, before + [Reset], after);
    ResetRestoresSeed(seed, count, before);
  }

  /** Two Resets in a row leave the same count as one. */
  lemma ResetIdempotent(seed: int, count: int, acts: seq<Action>)
    ensures Run(seed, count, acts + [Reset, Reset]) == Run(seed, count, acts + [Reset])
  {
    RunAppend(seed, count, acts, [Reset, Reset]);
    RunAppend(seed, count, acts, [Reset]);
  }

  /** Increment then Decrement, or Decrement then Increment, leaves the count
      where it was, after any history. */
  lemma IncrementDecrementCancel(seed: int, count: int, acts: seq<Action>)
    ensures Run(seed, count, acts + [Increment, Decrement]) == Run(seed, count, acts)
    ensures Run(seed, count, acts + [Decrement, Increment]) == Run(seed, count, acts)
  {
    RunAppend(seed, count, acts, [Increment, Decrement]);
    RunAppend(seed, count, acts, [Decrement, Increment]);
  }

  /** Without a Reset, the count moves by the number of Increments minus the
      number of Decrements. */
  lemma {:induction false} RunWithoutReset(seed: int, count: int, acts: seq<Action>)
    requires Reset !in acts
    ensures Run(seed, count, acts) == count + multiset(acts)[Increment] - multiset(acts)[Decrement]
    decreases |acts|
  {
    if acts != [] {
      assert acts == [acts[0]] + acts[1..];
      assert multiset(acts) == multiset{acts[0]} + multiset(acts[1..]);
      RunWithoutReset(seed, Next(seed, count, acts[0]), acts[1..]);
    }
  }

  /** The count has no bounds: every integer, negative ones included, is
      reached from the seed by repeating one button. */
  lemma EveryCountReachable(seed: int, target: int)
    ensures var a := if target >= seed then Increment else Decrement;
            var n := if target >= seed then target - seed else seed - target;
            Run(seed, seed, seq(n, _ => a)) == target
  {
    var a := if target >= seed then Increment else Decrement;
    var n := if target >= seed then target - seed else seed - target;
    var acts := seq(n, _ => a);
    RepeatedCount(a, n);
    RunWithoutReset(seed, seed, acts);
  }

  /** Pressing one button n times holds that action n times and no other. */
  lemma {:induction false} RepeatedCount(a: Action, n: nat)
    ensures multiset(seq(n, _ => a)) == multiset{}[a := n]
  {
    if n > 0 {
      assert seq(n, _ => a) == seq(n - 1, _ => a) + [a];
      RepeatedCount(a, n - 1);
    }
  }

  // ---------------------------------------------------------------------------
  // Clients: the component driven through its methods.

  /** The counter page at `/counter/7`: the segment goes through `parseInt`,
      the count shows 7, two Increments show 9, Reset shows 7 again. */
  method ScenarioSevenTwiceReset() returns (shown: seq<int>)
    ensures shown == [7, 9, 7]
  {
    JsParseInt.ParseIntSeven();
    var c := new Counter(Defined(JsParseInt.ParseInt("7")));
    shown := [c.count];
    c.Increment();
    c.Increment();
    shown := shown + [c.count];
    c.Reset();
    shown := shown + [c.count];
  }

  /** Seed 5, three Increments show 8, Reset shows 5; a Decrement below zero
      after a zero seed shows -1. */
  method ScenarioResetAfterIncrements() returns (afterIncrements: int, afterReset: int, belowZero: int)
    ensures afterIncrements == 8 && afterReset == 5 && belowZero == -1
  {
    var c := new Counter(Defined(Int(5)));
    c.Increment();
    c.Increment();
    c.Increment();
    afterIncrements := c.count;
    c.Reset();
    afterReset := c.count;
    var z := new Counter(Undefined);
    z.Decrement();
    belowZero := z.count;
  }

  /** A property that `parseInt` turned into NaN seeds the counter with 0. */
  method ScenarioNaNSeed() returns (shown: int)
    ensures shown == 0
  {
    JsParseInt.ParseIntNaNExamples();
    var c := new Counter(Defined(JsParseInt.ParseInt("abc")));
    shown := c.count;
  }
}
