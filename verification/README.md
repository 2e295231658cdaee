# MAGenerator: a verified model of the resumable generator engine

MAGenerator turns a block body with `GENERATOR_YIELD` points into a
re-invocable generator. Each construction call (`GENERATOR`,
`GENERATOR_BEGIN`) creates one instance: an integer resume token
`GENERATOR_where` that starts at `-1`, a fresh cleanup list, and a main
block. Each call of the main block `switch`es on the token, jumps to the
`case -1:` label at the top of the body or to the `case __LINE__:` label just
after the last yield, runs to the next yield (which stores its own line in
the token and returns a value) or falls off the end of the body (which
returns a zero-filled value of the return type). `GENERATOR_CLEANUP`
assigns a cleanup block, and `GENERATOR_END` appends it to the instance's
cleanup list once, only if it was assigned.

This project models that engine in Dafny.

- `dispatch.dfy`, module `Dispatch`, holds the pure semantics. A body is a
  straight-line sequence of `Step`s. `Yield(line, v)` is a yield site whose
  token is its line number. `Effect` is ordinary code between yields: it bumps
  a captured counter by one, so re-executed code can be seen. The module also
  has the dispatch function (`Entry`, built on `FindSite`, the `switch`), the
  run of one call (`Run`, `Call`) and of several calls (`Calls`). Lemmas cover
  ordering, exhaustion, tail re-execution and bodies without yields.
- `generator.dfy`, module `Generators`, holds the imperative instance.
  `Generator` is a class with mutable `where`, `counter` and `cleanups`
  fields. Its constructor performs the construction-time registration. Its
  `Next` method is the main block: a loop over the body's steps, proved equal
  to `Dispatch.Call`.

Choices the model makes:

- The token of the start case is `-1` (`Start`). Yield tokens are line
  numbers (`nat`), so they never collide with it. Two yields on one line would
  give two equal `case` labels, which a C compiler refuses, so a well-formed
  body (`WellFormed`) has pairwise distinct yield lines.
- A token that matches no `case` skips the whole `switch` and returns the
  zero value. `Entry` models this branch too, but an instance never holds
  such a token (`Generator.Valid`).
- The zero-filled value is the body's `zero` field. The byte-level `bzero`
  is not modelled.
- The token is never reset at the end of the body, as the code is written.
  An exhausted instance resumes after its last yield on every later call. It
  re-runs any steps between that yield and the end, then returns the zero
  value again. A body without yields re-runs entirely on every call. So when
  the tail after the last yield has effects, an exhausted generator is not
  idempotent: every later call runs that tail again (`Dispatch.Exhausted`,
  `Dispatch.FreshRun`).

## Model

| member | source | states |
|---|---|---|
| `Dispatch.FindSite` | MAGenerator.h:23-31 | The `switch` finds the yield site whose token equals the resume token. If it finds none, no yield site carries that token. |
| `Dispatch.Entry` | MAGenerator.h:23-31 | The dispatch of `switch(GENERATOR_where)`. The start token `-1` enters at the top of the body. Any other token enters just after a yield carrying that token, or past the end of the body when no yield carries it. |
| `Dispatch.ResumeAfterYield` | MAGenerator.h:27-32 | In a well-formed body, a yield's token identifies that yield alone. Dispatching on it resumes immediately after that yield, never at an earlier step. |
| `Dispatch.RunToNextYield` | MAGenerator.h:27-42 | States the behaviour of `Dispatch.Run`, which runs the body from a position. A run from any position executes the effects up to the first yield. It returns that yield's value and stores its line in the token. With no yield left, it returns the zero value and leaves the token unchanged. |
| `Dispatch.YieldsSkipEffects` | MAGenerator.h:27-32 | The values still to be yielded from a position are the next yield's value followed by those after it. Effects contribute no value. |
| `Dispatch.NoYieldsIffTail` | MAGenerator.h:27-42 | Nothing remains to be yielded from a position exactly when that position lies after the body's last yield. |
| `Dispatch.CallSpec` | MAGenerator.h:21-42 | States the behaviour of `Dispatch.Call`, one call of the main block (dispatch, then run). One call keeps the token valid. While values are pending, it returns the first one, resumes next time just after that yield, and runs only the effects in between. Once none are pending, it returns the zero value, keeps the token, and re-runs the steps from the resume point to the end. With no such steps, the state is unchanged. |
| `Dispatch.Calls` | MAGenerator.h:21-42 | `k` successive calls of the main block produce exactly `k` results, one per call. |
| `Dispatch.CallsSplit` | MAGenerator.h:21-42 | `a + c` successive calls are `a` calls followed by `c` calls from the state they leave. |
| `Dispatch.Ordering` | MAGenerator.h:27-42 | `k` successive calls return the pending values in body order, one per call. Once those run out, every further call returns the zero value. |
| `Dispatch.Exhausted` | MAGenerator.h:27-42 | An exhausted instance stays exhausted. Each of `m` later calls returns the zero value, keeps the token and re-runs the tail steps, so the captured counter grows by `m` times the tail length. |
| `Dispatch.ReachesTail` | MAGenerator.h:27-42 | Driving an instance until nothing is pending leaves it resuming at the start of the tail. Its token is the last yield's line, not reset to `-1`. The effects before that point have each run exactly once. |
| `Dispatch.FreshRun` | MAGenerator.h:14-42 | A fresh instance of a body with N yields returns the N yielded values in body order on calls 1..N, then the zero value on every later call. Its token ends at the last yield site, or at `-1` when there is none. Each effect before the last yield runs once, and each later call re-runs the tail effects. |
| `Dispatch.NoYieldBody` | MAGenerator.h:23-42 | A body without yields returns the zero value on every call. Its token stays at `-1`, so each call re-runs the whole body. |
| `Generators.Registered` | MAGenerator.h:44-45 | A construction registers at most one cleanup entry. It registers exactly one iff the definition has a cleanup section, and that entry is this section's block. |
| `Generators.Generator.constructor` | MAGenerator.h:16-45 | A construction creates a fresh instance. Its token is `-1` and its captured state is the construction-time value. Its cleanup slot starts empty and is assigned only by a cleanup section. The slot is appended to the fresh cleanup list once, and only if it was assigned. |
| `Generators.Generator.Next` | MAGenerator.h:21-42 | One main-block call dispatches on the token and loops over the body steps. Its new token, captured state and returned value are exactly those of `Dispatch.Call`. It leaves the cleanup list unchanged and never runs the cleanup. |
| `Generators.AdvanceLeavesOther` | MAGenerator.h:19-21 | Advancing one instance leaves any other distinct instance unchanged: its token, captured state, cleanup list and the value its next call returns. This follows from `Next`'s frame, which names only the advanced instance's own token and captured state. |
| `Generators.IndependentInstances` | MAGenerator.h:19-21 | Two instances of one definition are independent. However often the first is advanced, the second still returns the body's first yielded value (or the zero value) on its first call and has its own captured state. This is one concrete scenario; the general fact is `Generators.AdvanceLeavesOther`. |

## Left out

- Macro expansion itself is not modelled. This covers `__LINE__` generation, the placement of `case` labels inside `do { } while(0)`, and Duff's-device control flow. The model states the dispatch that results.
- Running the registered cleanup is not modelled. `MAGeneratorMakeCleanupArray` is only declared in MAGenerator.h, and its implementation is not part of this model. The cleanup fires when the list is deallocated, which depends on Cocoa retain/release, `copy` and `autorelease`. The model keeps the registered entries only.
- Per-call parameters (`perCallParams`) are not modelled. The yielded values are fixed per yield site.
- Body control flow is not modelled. Loops and branches over `__block` variables are left out, and a body is a straight-line sequence of yields and effects. Each effect adds exactly one to a single captured counter.
- The enumeration adapter is not modelled, because the header holds no code for it.
- Concurrent or re-entrant calls on one instance are not modelled. Nothing in the code guards against them.
- Failures raised by body code part-way through a call are not modelled. Steps always complete.
- `bzero`, and the return type's byte layout, are not modelled. The zero value is an abstract field of the body.
