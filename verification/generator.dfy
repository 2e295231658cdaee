/**
  A generator instance as the GENERATOR ... GENERATOR_END macros build it:
  calling the construction block creates a fresh resume token (`__block int
  GENERATOR_where = -1`), a fresh cleanup list, and a main block that
  dispatches on the token each time it is called.
 */
module Generators {

  import opened Dispatch

  /** What one GENERATOR ... GENERATOR_END definition fixes: the body, and
      the GENERATOR_CLEANUP section if one was written. */
  datatype Definition<T, C> = Definition(body: Body<T>, cleanup: Option<C>)

  /** The cleanup list a construction leaves behind: the cleanup section if
      the definition has one, and nothing otherwise. */
  function Registered<T, C>(d: Definition<T, C>): (r: seq<C>)
    ensures |r| <= 1
    ensures |r| == 1 <==> d.cleanup.Some?
    ensures forall c :: c in r ==> d.cleanup == Some(c)
  {
    if d.cleanup.Some? then [d.cleanup.value] else []
  }

  class Generator<T, C> {
    const def: Definition<T, C>
    /** The resume token: -1 before the first call, then the line of the
        yield that returned last. */
    var where: int
    /** State captured by the main block (a `__block` variable of the
        construction call), bumped by the body's `Effect` steps. */
    var counter: int
    /** The instance's cleanup list, kept alive by the main block. */
    var cleanups: seq<C>

    ghost predicate Valid()
      reads this
    {
      && WellFormed(def.body)
      && ValidToken(def.body, where)
      && cleanups == Registered(def)
    }

    /** The token and captured state, as one value. */
    function Snapshot(): State
      reads this
    {
      State(where, counter)
    }

    /** One call of the construction block. `init` is the value the
        construction parameters give the captured state. */
    constructor (d: Definition<T, C>, init: int)
      requires WellFormed(d.body)
      ensures Valid()
      ensures def == d && where == Start && counter == init
      ensures |cleanups| <= 1
      ensures |cleanups| == 1 <==> d.cleanup.Some?
      ensures d.cleanup.Some? ==> cleanups == [d.cleanup.value]
    {
      def := d;
      counter := init;
      var cleanupBlock: Option<C> := None;
      if d.cleanup.Some? {
        cleanupBlock := d.cleanup;
      }
      where := Start;
      cleanups := [];
      if cleanupBlock.Some? {
        cleanups := cleanups + [cleanupBlock.value];
      }
    }

    /** One call of the main block: resume where the token says, run up to
        the next yield or the end of the body, and return what it gives.
        The cleanup list is only kept, never run or changed. */
    method Next() returns (r: T)
      requires Valid()
      modifies this`where, this`counter
      ensures Valid()
      ensures Outcome(Snapshot(), r) == Call(def.body, old(Snapshot()))
      ensures cleanups == old(cleanups)
    {
      ghost var s0 := Snapshot();
      CallSpec(def.body, s0);
      var steps := def.body.steps;
      var pc := Entry(steps, where);
      while pc < |steps|
        invariant pc <= |steps|
        invariant Run(def.body, pc, Snapshot()) == Call(def.body, s0)
        decreases |steps| - pc
      {
        match steps[pc]
        case Effect =>
          counter := counter + 1;
          pc := pc + 1;
        case Yield(line, v) =>
          where := line;
          r := v;
          return;
      }
      r := def.body.zero;
    }
  }

  /** Advancing one instance leaves every other instance as it was: its
      token, captured state and cleanup list, and so the value its next call
      returns. This follows from the frame of `Next`, which names only the
      advanced instance's own token and captured state. */
  method AdvanceLeavesOther<T, C>(a: Generator<T, C>, b: Generator<T, C>) returns (r: T)
    requires a != b && a.Valid() && b.Valid()
    modifies a`where, a`counter
    ensures b.Snapshot() == old(b.Snapshot()) && b.cleanups == old(b.cleanups)
    ensures Call(b.def.body, b.Snapshot()) == old(Call(b.def.body, b.Snapshot()))
    ensures Outcome(a.Snapshot(), r) == Call(a.def.body, old(a.Snapshot()))
  {
    r := a.Next();
  }

  /** Two instances built from one definition share nothing: however often
      the first is advanced, the second still starts at the top of the body
      with its own captured state. (The general fact, for any two distinct
      instances, is `AdvanceLeavesOther`.) */
  method IndependentInstances<T, C>(d: Definition<T, C>, init: int, k: nat)
    returns (first: T, other: T, otherCounter: int)
    requires WellFormed(d.body)
    ensures first == other
    ensures first == if Yields(d.body) == [] then d.body.zero else Yields(d.body)[0]
    ensures otherCounter == init + NextYield(d.body.steps, 0)
  {
    var a := new Generator(d, init);
    var b := new Generator(d, init);
    first := a.Next();
    var i := 0;
    while i < k
      invariant a.Valid() && b.Valid()
      invariant b.where == Start && b.counter == init
    {
      var _ := a.Next();
      i := i + 1;
    }
    other := b.Next();
    otherCounter := b.counter;
    CallSpec(d.body, State(Start, init));
    RunToNextYield(d.body, 0, State(Start, init));
  }
}
