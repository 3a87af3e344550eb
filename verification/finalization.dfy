/**
 Waiting until a rollapp height is finalized (cosmos/hub/dym_hub/dym_hub.go): a query loop with
 two-second pauses and a deadline.
*/
module Finalization {
  import opened Outcomes

  const SECOND := 1_000_000_000 // nanoseconds

  datatype Failure = Cancelled | TimedOut | QueryError

  /** What the select statement picks before query k: a cancelled context, the timer, or the query. */
  datatype Pick = Done | Timer | Query

  /** Everything outside the function. `answer(k)` is the k-th query's result: the heights of the
      finalized state's block descriptors, None for one that does not parse; `elapsed(k)` is the time
      since the start when query k has been looked at. */
  datatype World = World(
    pick: nat -> Pick,
    answer: nat -> Result<seq<Option<int>>, string>,
    elapsed: nat -> int)

  /** The clock is monotone, and a pause of two seconds lies between two queries. */
  ghost predicate Sleeps(w: World) {
    w.elapsed(0) >= 0 && forall k: nat :: w.elapsed(k + 1) >= w.elapsed(k) + 2 * SECOND
  }

  predicate HoldsTarget(w: World, k: nat, target: int) {
    w.answer(k).Ok? && Some(target) in w.answer(k).value
  }

  lemma {:induction false} ElapsedAtLeast(w: World, k: nat)
    requires Sleeps(w)
    ensures w.elapsed(k) >= 2 * SECOND * k
  {
    if k > 0 {
      ElapsedAtLeast(w, k - 1);
      assert w.elapsed((k - 1) + 1) >= w.elapsed(k - 1) + 2 * SECOND;
    }
  }

  /** Half the timeout in seconds, rounded up; a timeout that is not positive counts as zero. */
  function Pauses(timeoutSecs: int): nat {
    if timeoutSecs <= 0 then 0 else (timeoutSecs + 1) / 2
  }

  /** The loop can still be running at query k only while k pauses fit the timeout. */
  lemma PausesFit(w: World, k: nat, timeoutSecs: int)
    requires Sleeps(w) && w.elapsed(k) < timeoutSecs * SECOND
    ensures k + 1 <= Pauses(timeoutSecs) && 2 * k < timeoutSecs
  {
    ElapsedAtLeast(w, k);
  }

  /** Query k left time for another one: after an error any time, after a state a whole pause. */
  predicate KeptWaiting(w: World, k: nat, timeoutSecs: int) {
    w.elapsed(k) + (if w.answer(k).Ok? then 2 * SECOND else 0) < timeoutSecs * SECOND
  }

  /** `queries` counts the state queries made. */
  method WaitUntilRollappHeightIsFinalized(w: World, target: int, timeoutSecs: int)
    returns (r: Result<bool, Failure>, queries: nat)
    requires Sleeps(w)
    ensures queries <= Pauses(timeoutSecs) + 1
    ensures r.Ok? ==> r.value && queries > 0 && HoldsTarget(w, queries - 1, target)
    ensures forall k :: 0 <= k < queries && HoldsTarget(w, k, target) ==> r.Ok? && k == queries - 1
    ensures forall k :: 0 <= k < queries ==> w.pick(k) == Query
    ensures queries >= 2 ==> 2 * (queries - 2) < timeoutSecs
    ensures forall k :: 0 <= k < queries - 1 ==> KeptWaiting(w, k, timeoutSecs)
    ensures r == Err(Cancelled) ==> w.pick(queries) == Done
    ensures r == Err(TimedOut) ==>
              || w.pick(queries) == Timer
              || (queries > 0 && w.answer(queries - 1).Ok? && w.elapsed(queries - 1) + 2 * SECOND >= timeoutSecs * SECOND)
    ensures r == Err(QueryError) ==>
              queries > 0 && w.answer(queries - 1).Err? && w.elapsed(queries - 1) >= timeoutSecs * SECOND
  {
    var timeout := timeoutSecs * SECOND;
    queries := 0;
    while true
      invariant queries <= Pauses(timeoutSecs)
      invariant forall k :: 0 <= k < queries ==> w.pick(k) == Query && !HoldsTarget(w, k, target)
      invariant forall k :: 0 <= k < queries ==> KeptWaiting(w, k, timeoutSecs)
      invariant queries >= 1 ==> 2 * (queries - 1) < timeoutSecs
      decreases Pauses(timeoutSecs) + 1 - queries
    {
      match w.pick(queries) {
        case Done => return Err(Cancelled), queries;
        case Timer => return Err(TimedOut), queries;
        case Query =>
          var k := queries;
          queries := queries + 1;
          if w.answer(k).Err? {
            if w.elapsed(k) >= timeout {
              return Err(QueryError), queries;
            }
          } else {
            var found := Contains(w.answer(k).value, target);
            if found {
              return Ok(true), queries;
            }
            if w.elapsed(k) + 2 * SECOND >= timeout {
              return Err(TimedOut), queries;
            }
          }
          PausesFit(w, k, timeoutSecs);
      }
    }
  }

  /** The loop over the block descriptors. */
  method Contains(heights: seq<Option<int>>, target: int) returns (found: bool)
    ensures found <==> Some(target) in heights
  {
    for i := 0 to |heights|
      invariant Some(target) !in heights[..i]
    {
      if heights[i].None? {
        continue;
      }
      if heights[i].value == target {
        return true;
      }
    }
    found := false;
  }
}
