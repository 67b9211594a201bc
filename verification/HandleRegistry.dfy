/** The opaque-handle table behind the flat binding surfaces. */
module HandleRegistry {
  import opened Wrappers

  const I32_MAX: int := 0x7FFF_FFFF
  const I32_MIN: int := -0x8000_0000

  /** `i32::wrapping_add(1)`. */
  function WrappingIncrement(n: int): int {
    if n == I32_MAX then I32_MIN else n + 1
  }

  /** One advance of the counter: wrapping increment, then at least 1. */
  function Advance(counter: int): int {
    if WrappingIncrement(counter) < 1 then 1 else WrappingIncrement(counter)
  }

  /** The counter after `steps` advances. */
  function After(counter: int, steps: nat): int {
    if steps == 0 then counter else Advance(After(counter, steps - 1))
  }

  /** The handles the counter visits in `steps` advances. */
  function Visited(counter: int, steps: nat): set<int> {
    if steps == 0 then {} else Visited(counter, steps - 1) + {After(counter, steps)}
  }

  datatype HandleError = InvalidHandle

  /** `steps` advances reach the first handle that is not live. */
  ghost predicate FirstFree(live: set<int>, counter: int, steps: nat) {
    steps >= 1 && After(counter, steps) !in live && forall n :: 1 <= n < steps ==> After(counter, n) in live
  }

  ghost predicate InRange(live: set<int>) {
    forall h :: h in live ==> 1 <= h <= I32_MAX
  }

  class Registry<T> {
    var next: int
    var entries: map<int, T>

    /** The counter is an `i32` that never went negative; live handles are positive. */
    ghost predicate Valid()
      reads this
    {
      0 <= next <= I32_MAX && InRange(entries.Keys)
    }

    ghost function Snapshot(): State<T>
      reads this
    {
      State(next, entries)
    }

    constructor ()
      ensures Valid() && entries == map[] && next == 0
    {
      next := 0;
      entries := map[];
    }

    /**
      Stores under the first handle in cyclic order after the counter that is not live.
      With every handle live the source loops for ever; with one free it stops.
     */
    method Store(value: T) returns (handle: int)
      requires Valid() && |entries| < I32_MAX
      modifies this
      ensures Valid() && next == handle
      ensures exists steps :: FirstFree(old(entries).Keys, old(next), steps) && handle == After(old(next), steps)
      ensures handle !in old(entries) && 1 <= handle <= I32_MAX
      ensures entries == old(entries)[handle := value]
      ensures Step(old(Snapshot()), Stored(value, handle), Snapshot())
    {
      ghost var steps := 0;
      ghost var live := entries.Keys;
      next := Advance(next);
      steps := 1;
      AfterCycles(old(next), 1);
      while next in entries
        invariant 1 <= steps && next == After(old(next), steps) && 1 <= next <= I32_MAX
        invariant entries == old(entries)
        invariant forall n :: 1 <= n < steps ==> After(old(next), n) in live
        invariant steps <= |live| + 1
        decreases |live| + 1 - steps
      {
        Pigeonhole(live, old(next), steps);
        next := Advance(next);
        steps := steps + 1;
        AfterCycles(old(next), steps);
      }
      assert FirstFree(old(entries).Keys, old(next), steps);
      entries := entries[next := value];
      handle := next;
    }

    /** Runs `body` on the value of a live handle. */
    method With<R>(handle: int, body: T -> R) returns (r: Result<R, HandleError>)
      ensures r.Ok? <==> handle in entries
      ensures r.Ok? ==> r.value == body(entries[handle])
    {
      if handle in entries {
        r := Ok(body(entries[handle]));
      } else {
        r := Err(InvalidHandle);
      }
    }

    /** Runs `body` on the value of a live handle, which it may replace. */
    method WithMut<R>(handle: int, body: T -> (T, R)) returns (r: Result<R, HandleError>)
      requires Valid()
      modifies this`entries
      ensures Valid()
      ensures r.Ok? <==> handle in old(entries)
      ensures r.Ok? ==> entries == old(entries)[handle := body(old(entries)[handle]).0]
                        && r.value == body(old(entries)[handle]).1
      ensures r.Err? ==> entries == old(entries)
      ensures r.Ok? ==> Step(old(Snapshot()), Updated(handle, entries[handle]), Snapshot())
    {
      if handle in entries {
        var (value, result) := body(entries[handle]);
        entries := entries[handle := value];
        r := Ok(result);
      } else {
        r := Err(InvalidHandle);
      }
    }

    method Take(handle: int) returns (r: Result<T, HandleError>)
      requires Valid()
      modifies this`entries
      ensures Valid()
      ensures r == if handle in old(entries) then Ok(old(entries)[handle]) else Err(InvalidHandle)
      ensures entries == old(entries) - {handle}
      ensures Step(old(Snapshot()), Released(handle), Snapshot())
    {
      r := if handle in entries then Ok(entries[handle]) else Err(InvalidHandle);
      entries := entries - {handle};
    }

    method Remove(handle: int)
      requires Valid()
      modifies this`entries
      ensures Valid()
      ensures entries == old(entries) - {handle}
      ensures Step(old(Snapshot()), Released(handle), Snapshot())
    {
      entries := entries - {handle};
    }
  }

  // -- The counter's cycle ---------------------------------------------------

  /** Where the counter stands: it runs through 1..I32_MAX in a circle. */
  lemma {:induction false} AfterCycles(counter: int, steps: nat)
    requires 0 <= counter <= I32_MAX && steps >= 1
    ensures After(counter, steps) == (counter + steps - 1) % I32_MAX + 1
  {
    if steps == 1 {
      assert After(counter, 1) == Advance(After(counter, 0));
      CycleOnce(counter);
    } else {
      AfterCycles(counter, steps - 1);
      CycleStep(counter + steps - 2);
    }
  }

  lemma CycleOnce(counter: int)
    requires 0 <= counter <= I32_MAX
    ensures Advance(counter) == counter % I32_MAX + 1
  {
  }

  lemma CycleStep(n: nat)
    ensures Advance(n % I32_MAX + 1) == (n + 1) % I32_MAX + 1
  {
    var r := n % I32_MAX;
    assert n == n / I32_MAX * I32_MAX + r;
  }

  /** Fewer than I32_MAX advances never visit one handle twice. */
  lemma AfterDistinct(counter: int, m: nat, n: nat)
    requires 0 <= counter <= I32_MAX && 1 <= m < n < m + I32_MAX
    ensures After(counter, m) != After(counter, n)
  {
    AfterCycles(counter, m);
    AfterCycles(counter, n);
    ResiduesDiffer(counter + m - 1, counter + n - 1);
  }

  lemma ResiduesDiffer(a: nat, b: nat)
    requires a < b < a + I32_MAX
    ensures a % I32_MAX != b % I32_MAX
  {
    if a % I32_MAX == b % I32_MAX {
      CongruentApart(a, b);
    }
  }

  lemma CongruentApart(a: nat, b: nat)
    requires a < b && a % I32_MAX == b % I32_MAX
    ensures b - a >= I32_MAX
  {
    assert (b / I32_MAX - a / I32_MAX) * I32_MAX == b - a;
  }

  lemma {:induction false} VisitedMeaning(counter: int, steps: nat, handle: int)
    ensures handle in Visited(counter, steps) <==> exists n :: 1 <= n <= steps && After(counter, n) == handle
  {
    if steps > 0 {
      VisitedMeaning(counter, steps - 1, handle);
      if handle == After(counter, steps) {
        assert 1 <= steps <= steps && After(counter, steps) == handle;
      }
    }
  }

  lemma {:induction false} VisitedSize(counter: int, steps: nat)
    requires 0 <= counter <= I32_MAX && steps <= I32_MAX
    ensures |Visited(counter, steps)| == steps
  {
    if steps > 0 {
      VisitedSize(counter, steps - 1);
      VisitedMeaning(counter, steps - 1, After(counter, steps));
      if After(counter, steps) in Visited(counter, steps - 1) {
        var n :| 1 <= n <= steps - 1 && After(counter, n) == After(counter, steps);
        AfterDistinct(counter, n, steps);
      }
    }
  }

  /** Distinct live handles visited so far cannot outnumber the live ones. */
  lemma Pigeonhole(live: set<int>, counter: int, steps: nat)
    requires 0 <= counter <= I32_MAX && |live| < I32_MAX
    requires steps <= |live| + 1
    requires forall n :: 1 <= n <= steps ==> After(counter, n) in live
    ensures steps <= |live|
  {
    VisitedSize(counter, steps);
    forall h | h in Visited(counter, steps) ensures h in live {
      VisitedMeaning(counter, steps, h);
    }
    assert live == Visited(counter, steps) + (live - Visited(counter, steps));
  }

  /** A free handle is reached exactly when not all I32_MAX of them are live. */
  lemma StoreTerminatesExactly(live: set<int>, counter: int)
    requires InRange(live) && 0 <= counter <= I32_MAX
    ensures (exists steps :: FirstFree(live, counter, steps)) <==> |live| < I32_MAX
  {
    if |live| < I32_MAX {
      var steps := FindFree(live, counter, 1);
    } else if exists steps :: FirstFree(live, counter, steps) {
      var steps :| FirstFree(live, counter, steps);
      var handle := After(counter, steps);
      AfterCycles(counter, steps);
      var all := live + {handle};
      RangeSize(all, I32_MAX);
    }
  }

  /** With every handle taken, no number of advances reaches a free one. */
  lemma FullTableHasNoneFree(live: set<int>, counter: int, steps: nat)
    requires 0 <= counter <= I32_MAX && forall h :: 1 <= h <= I32_MAX ==> h in live
    ensures !FirstFree(live, counter, steps)
  {
    if steps >= 1 { AfterCycles(counter, steps); }
  }

  lemma {:induction false} FindFree(live: set<int>, counter: int, from: nat) returns (steps: nat)
    requires 0 <= counter <= I32_MAX && |live| < I32_MAX && 1 <= from <= |live| + 1
    requires forall n :: 1 <= n < from ==> After(counter, n) in live
    ensures FirstFree(live, counter, steps)
    decreases |live| + 1 - from
  {
    if After(counter, from) !in live {
      steps := from;
    } else {
      Pigeonhole(live, counter, from);
      steps := FindFree(live, counter, from + 1);
    }
  }

  lemma {:induction false} RangeSize(s: set<int>, top: nat)
    requires forall h :: h in s ==> 1 <= h <= top
    ensures |s| <= top
  {
    if top > 0 {
      RangeSize(s - {top}, top - 1);
    } else {
      assert forall h :: h !in s;
    }
  }

  // -- Whole runs ------------------------------------------------------------

  /** A call on the registry, with the handle `Store` chose. */
  datatype Call<T> = Stored(value: T, handle: int) | Updated(handle: int, value: T) | Released(handle: int)

  datatype State<T> = State(next: int, entries: map<int, T>)

  /** One call of the class as its contract describes it. */
  ghost predicate Step<T>(before: State<T>, call: Call<T>, after: State<T>) {
    match call
    case Stored(value, handle) =>
      && (exists steps :: FirstFree(before.entries.Keys, before.next, steps) && handle == After(before.next, steps))
      && after == State(handle, before.entries[handle := value])
    case Updated(handle, value) => handle in before.entries && after == before.(entries := before.entries[handle := value])
    case Released(handle) => after == before.(entries := before.entries - {handle})
  }

  ghost predicate Run<T>(states: seq<State<T>>, calls: seq<Call<T>>) {
    |states| == |calls| + 1 && forall i :: 0 <= i < |calls| ==> Step(states[i], calls[i], states[i + 1])
  }

  ghost predicate Sound<T>(s: State<T>) {
    0 <= s.next <= I32_MAX && InRange(s.entries.Keys)
  }

  /** Along every run from a sound state the counter and the live handles stay in range. */
  lemma {:induction false} RunStaysSound<T>(states: seq<State<T>>, calls: seq<Call<T>>)
    requires Run(states, calls) && Sound(states[0])
    ensures forall i :: 0 <= i < |states| ==> Sound(states[i])
    decreases |calls|
  {
    if calls != [] {
      var k := |calls| - 1;
      assert Run(states[..k + 1], calls[..k]) by {
        forall i | 0 <= i < k ensures Step(states[..k + 1][i], calls[..k][i], states[..k + 1][i + 1]) {
          assert Step(states[i], calls[i], states[i + 1]);
        }
      }
      RunStaysSound(states[..k + 1], calls[..k]);
      assert Sound(states[..k + 1][k]);
      StepStaysSound(states[k], calls[k], states[k + 1]);
      forall i | 0 <= i < |states| ensures Sound(states[i]) {
        if i <= k { assert states[i] == states[..k + 1][i]; }
      }
    }
  }

  lemma StepStaysSound<T>(before: State<T>, call: Call<T>, after: State<T>)
    requires Sound(before) && Step(before, call, after)
    ensures Sound(after)
  {
    if call.Stored? {
      var steps :| FirstFree(before.entries.Keys, before.next, steps) && call.handle == After(before.next, steps);
      AfterCycles(before.next, steps);
    }
  }

  /**
    What a handle denotes survives every later call that does not name it: no store
    reassigns it, however the counter wraps.
   */
  lemma {:induction false} HandleKeepsValue<T>(states: seq<State<T>>, calls: seq<Call<T>>, handle: int)
    requires Run(states, calls) && handle in states[0].entries
    requires forall i :: 0 <= i < |calls| && !calls[i].Stored? ==> calls[i].handle != handle
    ensures handle in states[|calls|].entries && states[|calls|].entries[handle] == states[0].entries[handle]
    ensures forall i :: 0 <= i < |calls| && calls[i].Stored? ==> calls[i].handle != handle
    decreases |calls|
  {
    if calls != [] {
      assert Step(states[0], calls[0], states[1]);
      var rest, later := states[1..], calls[1..];
      RunFrom(states, calls, 1);
      HandleKeepsValue(rest, later, handle);
      forall i | 0 <= i < |calls| && calls[i].Stored? ensures calls[i].handle != handle {
        if i > 0 { assert calls[i] == later[i - 1]; }
      }
    }
  }

  lemma RunFrom<T>(states: seq<State<T>>, calls: seq<Call<T>>, k: nat)
    requires Run(states, calls) && k <= |calls|
    ensures Run(states[k..], calls[k..])
  {
    forall i | 0 <= i < |calls[k..]| ensures Step(states[k..][i], calls[k..][i], states[k..][i + 1]) {
      assert Step(states[k + i], calls[k + i], states[k + i + 1]);
    }
  }

  /**
    What a handle reads after a run is what was last stored or left under it, and after a
    release it reads nothing until a store returns it again.
   */
  lemma ReadsLastWrite<T>(states: seq<State<T>>, calls: seq<Call<T>>, j: nat)
    requires Run(states, calls) && j < |calls|
    requires forall i :: j < i < |calls| && !calls[i].Stored? ==> calls[i].handle != calls[j].handle
    ensures !calls[j].Released? ==>
              calls[j].handle in states[|calls|].entries
              && states[|calls|].entries[calls[j].handle] == calls[j].value
    ensures calls[j].Released? && (forall i :: j < i < |calls| ==> calls[i].handle != calls[j].handle) ==>
              calls[j].handle !in states[|calls|].entries
  {
    assert Step(states[j], calls[j], states[j + 1]);
    RunFrom(states, calls, j + 1);
    if calls[j].Released? {
      if forall i :: j < i < |calls| ==> calls[i].handle != calls[j].handle {
        StaysUnknown(states[j + 1..], calls[j + 1..], calls[j].handle);
      }
    } else {
      HandleKeepsValue(states[j + 1..], calls[j + 1..], calls[j].handle);
    }
  }

  lemma {:induction false} StaysUnknown<T>(states: seq<State<T>>, calls: seq<Call<T>>, handle: int)
    requires Run(states, calls) && handle !in states[0].entries
    requires forall i :: 0 <= i < |calls| ==> calls[i].handle != handle
    ensures handle !in states[|calls|].entries
    decreases |calls|
  {
    if calls != [] {
      assert Step(states[0], calls[0], states[1]);
      RunFrom(states, calls, 1);
      StaysUnknown(states[1..], calls[1..], handle);
    }
  }
}
