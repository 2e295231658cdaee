/**
  The run-time behaviour of a generator body written with GENERATOR_BEGIN,
  GENERATOR_YIELD and GENERATOR_END: a `switch` on an integer resume token
  whose cases are the start of the body (token -1) and the point just after
  each yield (token = the yield's line number).

  A body is modelled as a straight-line sequence of steps. `Yield(line, v)`
  stores `line` in the token and returns `v`; `Effect` stands for ordinary
  code between yields and bumps a captured counter by one, so that
  re-executed code can be observed.
 */
module Dispatch {

  datatype Option<T> = None | Some(value: T)

  /** One statement of a straight-line generator body. */
  datatype Step<T> = Yield(line: nat, value: T) | Effect

  /** The statements of a body, and the zero-filled value of its return type. */
  datatype Body<T> = Body(steps: seq<Step<T>>, zero: T)

  /** The per-instance state that survives between calls: the resume token
      and the captured counter that `Effect` steps bump. */
  datatype State = State(where: int, counter: int)

  /** What one call leaves behind and returns. */
  datatype Outcome<T> = Outcome(state: State, value: T)

  /** The states and values of several successive calls. */
  datatype Trace<T> = Trace(state: State, outputs: seq<T>)

  /** The token of the `case -1:` label that opens every body. */
  const Start: int := -1

  /** Two yields on one line would give two equal `case` labels, which the
      compiler refuses; so every yield site has its own token. */
  predicate DistinctSites<T>(steps: seq<Step<T>>)
  {
    forall i, j :: 0 <= i < j < |steps| && steps[i].Yield? && steps[j].Yield? ==>
      steps[i].line != steps[j].line
  }

  predicate WellFormed<T>(b: Body<T>)
  {
    DistinctSites(b.steps)
  }

  /** The `case` label that matches `token`, searched from position `p`. */
  function FindSite<T>(steps: seq<Step<T>>, token: int, p: nat): (r: Option<nat>)
    requires p <= |steps|
    ensures r.Some? ==> p <= r.value < |steps| && steps[r.value].Yield? && steps[r.value].line == token
    ensures r.None? ==> forall i :: p <= i < |steps| && steps[i].Yield? ==> steps[i].line != token
    decreases |steps| - p
  {
    if p == |steps| then None
    else if steps[p].Yield? && steps[p].line == token then Some(p)
    else FindSite(steps, token, p + 1)
  }

  /** A token the instance can hold: the start token or a yield site's. */
  predicate ValidToken<T>(b: Body<T>, token: int)
  {
    token == Start || FindSite(b.steps, token, 0).Some?
  }

  /** The position where `switch(GENERATOR_where)` resumes: the top of the
      body for the start token, just after the matching yield, or past the
      end of the switch when no case matches. */
  function Entry<T>(steps: seq<Step<T>>, token: int): (pc: nat)
    ensures pc <= |steps|
    ensures token == Start ==> pc == 0
    ensures token != Start ==>
      || (0 < pc && steps[pc - 1].Yield? && steps[pc - 1].line == token)
      || (pc == |steps| && forall i :: 0 <= i < |steps| && steps[i].Yield? ==> steps[i].line != token)
  {
    if token == Start then 0
    else match FindSite(steps, token, 0)
      case Some(i) => i + 1
      case None => |steps|
  }

  /** Executes the body from position `pc` until a yield returns or the end
      of the body returns the zero value. */
  function Run<T>(b: Body<T>, pc: nat, s: State): Outcome<T>
    requires pc <= |b.steps|
    decreases |b.steps| - pc
  {
    if pc == |b.steps| then Outcome(s, b.zero)
    else match b.steps[pc]
      case Effect => Run(b, pc + 1, State(s.where, s.counter + 1))
      case Yield(line, v) => Outcome(State(line, s.counter), v)
  }

  /** One call of the main block: dispatch on the token, then run. */
  function Call<T>(b: Body<T>, s: State): Outcome<T>
  {
    Run(b, Entry(b.steps, s.where), s)
  }

  /** `k` successive calls starting in state `s`. */
  function Calls<T>(b: Body<T>, s: State, k: nat): (r: Trace<T>)
    ensures |r.outputs| == k
    decreases k
  {
    if k == 0 then Trace(s, [])
    else
      var o := Call(b, s);
      var rest := Calls(b, o.state, k - 1);
      Trace(rest.state, [o.value] + rest.outputs)
  }

  /** The values yielded from position `p` on, in body order. */
  function YieldsFrom<T>(steps: seq<Step<T>>, p: nat): seq<T>
    requires p <= |steps|
    decreases |steps| - p
  {
    if p == |steps| then []
    else match steps[p]
      case Yield(_, v) => [v] + YieldsFrom(steps, p + 1)
      case Effect => YieldsFrom(steps, p + 1)
  }

  /** All values the body yields, in body order. */
  function Yields<T>(b: Body<T>): seq<T>
  {
    YieldsFrom(b.steps, 0)
  }

  /** The values that calls from state `s` have still to yield. */
  function Pending<T>(b: Body<T>, s: State): seq<T>
  {
    YieldsFrom(b.steps, Entry(b.steps, s.where))
  }

  function Zeros<T>(m: nat, z: T): (r: seq<T>)
    ensures |r| == m && forall i :: 0 <= i < m ==> r[i] == z
  {
    seq(m, _ => z)
  }

  /** `k` call results when `ys` are still pending: the first `k` of them,
      then the zero value once they run out. */
  function Padded<T>(ys: seq<T>, k: nat, z: T): seq<T>
  {
    if k <= |ys| then ys[..k] else ys + Zeros(k - |ys|, z)
  }

  /** The first yield at or after `p`, or the end of the body. */
  function NextYield<T>(steps: seq<Step<T>>, p: nat): (q: nat)
    requires p <= |steps|
    ensures p <= q <= |steps|
    ensures forall i :: p <= i < q ==> steps[i].Effect?
    ensures q < |steps| ==> steps[q].Yield?
    decreases |steps| - p
  {
    if p == |steps| || steps[p].Yield? then p else NextYield(steps, p + 1)
  }

  /** The position just after the last yield at or before `q` (0 if none). */
  function TailFrom<T>(steps: seq<Step<T>>, q: nat): (t: nat)
    requires q <= |steps|
    ensures t <= q
    ensures forall i :: t <= i < q ==> steps[i].Effect?
    ensures t > 0 ==> steps[t - 1].Yield?
    decreases q
  {
    if q == 0 then 0
    else if steps[q - 1].Yield? then q
    else TailFrom(steps, q - 1)
  }

  /** Where the tail of the body starts: just after its last yield, or at the
      top when the body has no yield. Everything from here on is re-run by
      every call to an exhausted instance. */
  function TailStart<T>(steps: seq<Step<T>>): (t: nat)
    ensures t <= |steps|
    ensures forall i :: t <= i < |steps| ==> steps[i].Effect?
    ensures t > 0 ==> steps[t - 1].Yield?
  {
    TailFrom(steps, |steps|)
  }

  // ---------------------------------------------------------------------
  // Dispatch

  /** Resuming at a yield's token lands immediately after that yield: no
      other site shares its token. */
  lemma ResumeAfterYield<T>(b: Body<T>, i: nat)
    requires WellFormed(b) && i < |b.steps| && b.steps[i].Yield?
    ensures FindSite(b.steps, b.steps[i].line, 0) == Some(i)
    ensures Entry(b.steps, b.steps[i].line) == i + 1
    ensures ValidToken(b, b.steps[i].line)
  {
  }

  /** A run stops at the first yield it meets, having executed the effects
      before it, or at the end with the zero value. */
  lemma {:induction false} RunToNextYield<T>(b: Body<T>, p: nat, s: State)
    requires p <= |b.steps|
    ensures var q := NextYield(b.steps, p);
      Run(b, p, s) ==
        if q == |b.steps| then Outcome(State(s.where, s.counter + (q - p)), b.zero)
        else Outcome(State(b.steps[q].line, s.counter + (q - p)), b.steps[q].value)
    decreases |b.steps| - p
  {
    if p < |b.steps| && b.steps[p].Effect? {
      RunToNextYield(b, p + 1, State(s.where, s.counter + 1));
    }
  }

  /** The pending values from `p` start with the next yield's value. */
  lemma {:induction false} YieldsSkipEffects<T>(steps: seq<Step<T>>, p: nat)
    requires p <= |steps|
    ensures var q := NextYield(steps, p);
      YieldsFrom(steps, p) ==
        if q == |steps| then [] else [steps[q].value] + YieldsFrom(steps, q + 1)
    decreases |steps| - p
  {
    if p < |steps| && steps[p].Effect? {
      YieldsSkipEffects(steps, p + 1);
    }
  }

  /** Nothing is pending from `p` exactly when `p` is in the tail. */
  lemma NoYieldsIffTail<T>(steps: seq<Step<T>>, p: nat)
    requires p <= |steps|
    ensures YieldsFrom(steps, p) == [] <==> p >= TailStart(steps)
  {
    var q, t := NextYield(steps, p), TailStart(steps);
    YieldsSkipEffects(steps, p);
    if p < t {
      assert steps[t - 1].Yield?;
      assert q <= t - 1;
    }
  }

  /** One call from a reachable state. While values are pending it returns
      the first of them and resumes next time just after that yield, having
      run only the effects in between. Once none are pending it returns the
      zero value, leaves the token where it was, and re-runs every step from
      the resume point to the end (so with no tail effects nothing changes). */
  lemma CallSpec<T>(b: Body<T>, s: State)
    requires WellFormed(b) && ValidToken(b, s.where)
    ensures var o, p, ys := Call(b, s), Entry(b.steps, s.where), Pending(b, s);
      && ValidToken(b, o.state.where)
      && (ys == [] ==>
            o == Outcome(State(s.where, s.counter + (|b.steps| - p)), b.zero))
      && (ys != [] ==>
            && o.value == ys[0]
            && o.state.where != Start
            && p < Entry(b.steps, o.state.where)
            && o.state.counter == s.counter + (Entry(b.steps, o.state.where) - 1 - p)
            && Pending(b, o.state) == ys[1..])
  {
    var p := Entry(b.steps, s.where);
    var q := NextYield(b.steps, p);
    RunToNextYield(b, p, s);
    YieldsSkipEffects(b.steps, p);
    if q < |b.steps| {
      ResumeAfterYield(b, q);
    }
  }

  // ---------------------------------------------------------------------
  // Sequences of calls

  /** `a + c` calls are `a` calls followed by `c` more. */
  lemma {:induction false} CallsSplit<T>(b: Body<T>, s: State, a: nat, c: nat)
    ensures var first := Calls(b, s, a);
      var second := Calls(b, first.state, c);
      Calls(b, s, a + c) == Trace(second.state, first.outputs + second.outputs)
    decreases a
  {
    if a > 0 {
      var o := Call(b, s);
      CallsSplit(b, o.state, a - 1, c);
      var first := Calls(b, o.state, a - 1);
      var second := Calls(b, first.state, c);
      assert [o.value] + (first.outputs + second.outputs)
          == ([o.value] + first.outputs) + second.outputs;
    }
  }

  /** Calls return the pending values in body order, one per call, and the
      zero value for every call after they run out. */
  lemma {:induction false} Ordering<T>(b: Body<T>, s: State, k: nat)
    requires WellFormed(b) && ValidToken(b, s.where)
    ensures Calls(b, s, k).outputs == Padded(Pending(b, s), k, b.zero)
    decreases k
  {
    if k > 0 {
      var o := Call(b, s);
      var ys := Pending(b, s);
      CallSpec(b, s);
      Ordering(b, o.state, k - 1);
      if ys == [] {
        assert Pending(b, o.state) == [];
        assert [b.zero] + Zeros(k - 1, b.zero) == Zeros(k, b.zero);
      } else if k <= |ys| {
        assert [ys[0]] + ys[1..][..k - 1] == ys[..k];
      } else {
        assert [ys[0]] + (ys[1..] + Zeros(k - |ys|, b.zero))
            == ys + Zeros(k - |ys|, b.zero);
      }
    }
  }

  /** An exhausted instance stays exhausted: each later call returns the
      zero value, keeps the token, and re-runs the steps from the resume
      point to the end of the body. */
  lemma {:induction false} Exhausted<T>(b: Body<T>, s: State, m: nat)
    requires WellFormed(b) && ValidToken(b, s.where) && Pending(b, s) == []
    ensures var tail := |b.steps| - Entry(b.steps, s.where);
      Calls(b, s, m) == Trace(State(s.where, s.counter + m * tail), Zeros(m, b.zero))
    decreases m
  {
    if m > 0 {
      var tail := |b.steps| - Entry(b.steps, s.where);
      CallSpec(b, s);
      var s' := State(s.where, s.counter + tail);
      Exhausted(b, s', m - 1);
      assert s'.counter + (m - 1) * tail == s.counter + m * tail;
      assert [b.zero] + Zeros(m - 1, b.zero) == Zeros(m, b.zero);
    }
  }

  /** Driving an instance until nothing is pending leaves the resume point
      at the start of the tail (or where it was, if already there), with the
      token of the last yield, and runs each effect before that point once. */
  lemma {:induction false} ReachesTail<T>(b: Body<T>, s: State)
    requires WellFormed(b) && ValidToken(b, s.where)
    ensures var p, t, k := Entry(b.steps, s.where), TailStart(b.steps), |Pending(b, s)|;
      var e := if p <= t then t else p;
      var r := Calls(b, s, k).state;
      && ValidToken(b, r.where)
      && (k > 0 ==> t > 0)
      && Entry(b.steps, r.where) == e
      && r.counter == s.counter + (e - p - k)
      && r.where == (if k == 0 then s.where else b.steps[t - 1].line)
      && Pending(b, r) == []
    decreases |Pending(b, s)|
  {
    var p, t, k := Entry(b.steps, s.where), TailStart(b.steps), |Pending(b, s)|;
    NoYieldsIffTail(b.steps, p);
    if k > 0 {
      var o := Call(b, s);
      CallSpec(b, s);
      var q := NextYield(b.steps, p);
      RunToNextYield(b, p, s);
      ResumeAfterYield(b, q);
      assert q < t;
      ReachesTail(b, o.state);
      if k == 1 {
        NoYieldsIffTail(b.steps, q + 1);
        assert q + 1 == t;
      }
    }
  }

  /** The whole life of a fresh instance of a body with N yields: calls
      1..N return the N yielded values in body order, and every later call
      returns the zero value. The token is never reset: it stays at the last
      yield's site (or at the start token if there is none), and each call
      after the N-th re-runs the tail effects after the last yield. */
  lemma FreshRun<T>(b: Body<T>, init: int, m: nat)
    requires WellFormed(b)
    ensures var n, t := |Yields(b)|, TailStart(b.steps);
      && (n == 0 <==> t == 0)
      && Calls(b, State(Start, init), n + m) ==
        Trace(State(if n == 0 then Start else b.steps[t - 1].line,
                    init + (t - n) + m * (|b.steps| - t)),
              Yields(b) + Zeros(m, b.zero))
  {
    var s := State(Start, init);
    var n, t := |Yields(b)|, TailStart(b.steps);
    assert Pending(b, s) == Yields(b);
    Ordering(b, s, n);
    ReachesTail(b, s);
    var r := Calls(b, s, n).state;
    Exhausted(b, r, m);
    CallsSplit(b, s, n, m);
    assert Yields(b)[..n] == Yields(b);
  }

  /** A body without a yield returns the zero value on every call and, since
      the token stays at the start, re-runs the whole body each time. */
  lemma NoYieldBody<T>(b: Body<T>, init: int, m: nat)
    requires WellFormed(b) && Yields(b) == []
    ensures Calls(b, State(Start, init), m) ==
      Trace(State(Start, init + m * |b.steps|), Zeros(m, b.zero))
  {
    NoYieldsIffTail(b.steps, 0);
    FreshRun(b, init, m);
  }
}
