/**
 Polling block by block (testutil/poll_for_state.go): `DoPoll` and the two packet searches built on it.
*/
module BlockPolling {
  import opened Outcomes
  import opened Sequences

  /** What a poll ends in. `Waiting` is a run cut off before it ended; a maximum below the start panics. */
  datatype Outcome<T, E> = Found(value: T) | PollFailed(error: E) | HeightFailed(error: E) | Waiting | Panicked

  /** The loop, one observation of the chain height at a time. */
  function Polled<T, E>(seen: seq<Result<int, E>>, poll: int -> Result<T, E>, cursor: int, max: int, last: Option<E>): Outcome<T, E>
    requires cursor > max ==> last.Some?
  {
    if cursor > max then PollFailed(last.value)
    else if seen == [] then Waiting
    else if seen[0].Err? then HeightFailed(seen[0].error)
    else if cursor > seen[0].value then Polled(seen[1..], poll, cursor, max, last)
    else if poll(cursor).Err? then Polled(seen[1..], poll, cursor + 1, max, Some(poll(cursor).error))
    else Found(poll(cursor).value)
  }

  /** A poll of `height`, made after observation number `seen`. */
  datatype Probe = Probe(height: int, seen: nat)

  /** The polls the loop makes, in order; `at` is the number of the next observation. */
  function Probed<T, E>(seen: seq<Result<int, E>>, poll: int -> Result<T, E>, cursor: int, max: int, at: nat): seq<Probe> {
    if cursor > max || seen == [] || seen[0].Err? then []
    else if cursor > seen[0].value then Probed(seen[1..], poll, cursor, max, at + 1)
    else if poll(cursor).Err? then [Probe(cursor, at)] + Probed(seen[1..], poll, cursor + 1, max, at + 1)
    else [Probe(cursor, at)]
  }

  /** One turn of the loop with the i-th observation. */
  lemma PollTurn<T, E>(heights: seq<Result<int, E>>, i: nat, poll: int -> Result<T, E>, cursor: int, max: int, last: Option<E>)
    requires i < |heights| && cursor <= max
    ensures Polled(heights[i..], poll, cursor, max, last) ==
      if heights[i].Err? then HeightFailed(heights[i].error)
      else if cursor > heights[i].value then Polled(heights[i + 1..], poll, cursor, max, last)
      else if poll(cursor).Err? then Polled(heights[i + 1..], poll, cursor + 1, max, Some(poll(cursor).error))
      else Found(poll(cursor).value)
  {
    assert heights[i..][1..] == heights[i + 1..];
  }

  lemma ProbeTurn<T, E>(heights: seq<Result<int, E>>, i: nat, poll: int -> Result<T, E>, cursor: int, max: int, done: seq<Probe>)
    requires i < |heights| && cursor <= max
    ensures done + Probed(heights[i..], poll, cursor, max, i) ==
      if heights[i].Err? then done
      else if cursor > heights[i].value then done + Probed(heights[i + 1..], poll, cursor, max, i + 1)
      else if poll(cursor).Err? then done + [Probe(cursor, i)] + Probed(heights[i + 1..], poll, cursor + 1, max, i + 1)
      else done + [Probe(cursor, i)]
  {
    assert heights[i..][1..] == heights[i + 1..];
    if heights[i].Ok? && cursor <= heights[i].value && poll(cursor).Err? {
      Regroup(done, [Probe(cursor, i)], Probed(heights[i + 1..], poll, cursor + 1, max, i + 1));
    }
  }

  /** After i observations: what is still to come decides outcome and probes, behind the probes hs. */
  ghost predicate Underway<T, E>(heights: seq<Result<int, E>>, i: nat, poll: int -> Result<T, E>, start: int, max: int,
                                 cursor: int, last: Option<E>, hs: seq<Probe>)
  {
    && i <= |heights| && start <= max && (cursor > max ==> last.Some?)
    && Polled(heights, poll, start, max, None) == Polled(heights[i..], poll, cursor, max, last)
    && Probed(heights, poll, start, max, 0) == hs + Probed(heights[i..], poll, cursor, max, i)
  }

  lemma UnderwayTurn<T, E>(heights: seq<Result<int, E>>, i: nat, poll: int -> Result<T, E>, start: int, max: int,
                           cursor: int, last: Option<E>, hs: seq<Probe>)
    requires Underway(heights, i, poll, start, max, cursor, last, hs) && i < |heights| && cursor <= max
    ensures
      if heights[i].Err? then
        Polled(heights, poll, start, max, None) == HeightFailed(heights[i].error) && Probed(heights, poll, start, max, 0) == hs
      else if cursor > heights[i].value then Underway(heights, i + 1, poll, start, max, cursor, last, hs)
      else if poll(cursor).Err? then
        Underway(heights, i + 1, poll, start, max, cursor + 1, Some(poll(cursor).error), hs + [Probe(cursor, i)])
      else
        Polled(heights, poll, start, max, None) == Found(poll(cursor).value) && Probed(heights, poll, start, max, 0) == hs + [Probe(cursor, i)]
  {
    PollTurn(heights, i, poll, cursor, max, last);
    ProbeTurn(heights, i, poll, cursor, max, hs);
  }

  lemma UnderwayEnds<T, E>(heights: seq<Result<int, E>>, i: nat, poll: int -> Result<T, E>, start: int, max: int,
                           cursor: int, last: Option<E>, hs: seq<Probe>)
    requires Underway(heights, i, poll, start, max, cursor, last, hs) && (i == |heights| || cursor > max)
    ensures Polled(heights, poll, start, max, None) == if cursor > max then PollFailed(last.value) else Waiting
    ensures Probed(heights, poll, start, max, 0) == hs
  {
    assert hs + [] == hs;
  }

  /** A packet search: `candidates(h)` are the acknowledgements or timeouts of block h, `matches` is
      equality of their packet with the target. */
  class PacketPoll<P> {
    const candidates: int -> Result<seq<P>, string>
    const matches: P -> bool
    var searched: seq<P>
    ghost var polled: seq<Probe>

    constructor (candidates: int -> Result<seq<P>, string>, matches: P -> bool)
      ensures this.candidates == candidates && this.matches == matches && searched == [] && polled == []
    {
      this.candidates, this.matches, searched, polled := candidates, matches, [], [];
    }

    method PushSearched(packet: P)
      modifies this`searched
      ensures searched == old(searched) + [packet]
    {
      searched := searched + [packet];
    }

    /** What polling one block answers. */
    function Answer(h: int): Result<P, string> {
      match candidates(h)
      case Err(e) => Err(e)
      case Ok(ps) => if FirstMatch(ps, matches) < |ps| then Ok(ps[FirstMatch(ps, matches)]) else Err("not found")
    }

    /** The packets polling one block inspects: up to and including the match. */
    function Inspected(h: int): seq<P> {
      match candidates(h)
      case Err(_) => []
      case Ok(ps) => if FirstMatch(ps, matches) < |ps| then ps[..FirstMatch(ps, matches) + 1] else ps
    }

    /** The closure passed to DoPoll, called after observation number `seen`. */
    method Poll(h: int, ghost seen: nat) returns (r: Result<P, string>)
      modifies this
      ensures r == Answer(h)
      ensures searched == old(searched) + Inspected(h) && polled == old(polled) + [Probe(h, seen)]
      ensures r.Err? ==> searched == old(searched) + Block(h)
      ensures r.Ok? ==> exists i :: FoundAt(r.value, h, i) && searched == old(searched) + Block(h)[..i + 1]
    {
      InspectedIsBlock(h);
      polled := polled + [Probe(h, seen)];
      match candidates(h) {
        case Err(e) => r := Err(e);
        case Ok(ps) =>
          for i := 0 to |ps|
            invariant i <= FirstMatch(ps, matches)
            invariant searched == old(searched) + ps[..i]
            invariant polled == old(polled) + [Probe(h, seen)]
          {
            PushSearched(ps[i]);
            assert ps[..i + 1] == ps[..i] + [ps[i]];
            if matches(ps[i]) {
              FirstMatchIs(ps, matches, i);
              return Ok(ps[i]);
            }
            FirstMatchPast(ps, matches, i);
          }
          r := Err("not found");
          assert ps[..|ps|] == ps;
      }
    }

    /** What polling the heights hs has added to the records. */
    ghost predicate Logged(was: seq<P>, before: seq<Probe>, hs: seq<Probe>)
      reads this
    {
      polled == before + hs && searched == was + AllInspected(hs)
    }

    method PollNext(h: int, ghost seen: nat, ghost was: seq<P>, ghost before: seq<Probe>, ghost hs: seq<Probe>) returns (r: Result<P, string>)
      requires Logged(was, before, hs)
      modifies this
      ensures r == Answer(h) && Logged(was, before, hs + [Probe(h, seen)])
    {
      AllInspectedSnoc(was, hs, Probe(h, seen));
      Regroup(before, hs, [Probe(h, seen)]);
      r := Poll(h, seen);
    }

    /** DoPoll; `heights` are the answers to the height queries while it runs. */
    method DoPoll(heights: seq<Result<int, string>>, start: int, max: int) returns (r: Outcome<P, string>)
      modifies this
      ensures r == if max < start then Panicked else Polled(heights, Answer, start, max, None)
      ensures polled == old(polled) + Probed(heights, Answer, start, max, 0)
      ensures searched == old(searched) + AllInspected(Probed(heights, Answer, start, max, 0))
      ensures r.Found? ==> exists h, i :: (
                FoundAt(r.value, h, i) && start <= h <= max
                && searched == old(searched) + Blocks(start, h) + Block(h)[..i + 1])
      ensures r.PollFailed? ==> searched == old(searched) + Blocks(start, max + 1)
      ensures !r.Found? ==> searched == old(searched) + Blocks(start, start + |polled| - |old(polled)|)
    {
      if max < start {
        assert AllInspected([]) == [] && Blocks(start, start) == [];
        return Panicked;
      }
      ghost var was := searched;
      r := PollUpTo(heights, start, max);
      SearchedBlocks(was, heights, start, max);
    }

    /** The packets of block h; one that answers an error has none. */
    function Block(h: int): seq<P> {
      if candidates(h).Ok? then candidates(h).value else []
    }

    /** The packets of the blocks from, from + 1, .., to - 1, in order and whole. */
    function Blocks(from: int, to: int): seq<P>
      decreases to - from
    {
      if to <= from then [] else Blocks(from, to - 1) + Block(to - 1)
    }

    /** The i-th packet of block h is the first match in it. */
    ghost predicate FoundAt(packet: P, h: int, i: nat) {
      i < |Block(h)| && Block(h)[i] == packet && matches(packet) && forall j :: 0 <= j < i ==> !matches(Block(h)[j])
    }

    lemma InspectedIsBlock(h: int)
      ensures Answer(h).Err? ==> Inspected(h) == Block(h)
      ensures Answer(h).Ok? ==> exists i :: FoundAt(Answer(h).value, h, i) && Inspected(h) == Block(h)[..i + 1]
    {
      if candidates(h).Ok? {
        var ps := candidates(h).value;
        FirstMatchLeast(ps, matches);
        if Answer(h).Ok? {
          assert FoundAt(Answer(h).value, h, FirstMatch(ps, matches));
        }
      }
    }

    /** Consecutive polls that fail inspect whole blocks. */
    lemma {:induction false} FailedBlocks(ps: seq<Probe>, start: int)
      requires InARow(ps, start) && AllFail(Answer, ps)
      ensures AllInspected(ps) == Blocks(start, start + |ps|)
    {
      if ps != [] {
        var n := |ps| - 1;
        assert InARow(ps[..n], start) && AllFail(Answer, ps[..n]);
        FailedBlocks(ps[..n], start);
        assert Answer(ps[n].height).Err?;
        InspectedIsBlock(start + n);
      }
    }

    /** Failing polls, then one that finds. */
    lemma FoundBlocks(ps: seq<Probe>, start: int, packet: P) returns (i: nat)
      requires ps != [] && InARow(ps, start) && AllFail(Answer, ps[..|ps| - 1]) && Answer(ps[|ps| - 1].height) == Ok(packet)
      ensures var h := start + |ps| - 1;
        FoundAt(packet, h, i) && AllInspected(ps) == Blocks(start, h) + Block(h)[..i + 1]
    {
      var n := |ps| - 1;
      assert InARow(ps[..n], start);
      FailedBlocks(ps[..n], start);
      InspectedIsBlock(start + n);
      i :| FoundAt(packet, start + n, i) && Inspected(start + n) == Block(start + n)[..i + 1];
    }

    /** What a search has recorded: whole blocks, up to the match if there is one. */
    lemma SearchedBlocks(was: seq<P>, heights: seq<Result<int, string>>, start: int, max: int)
      requires start <= max
      ensures var r, ps := Polled(heights, Answer, start, max, None), Probed(heights, Answer, start, max, 0);
        && (r.Found? ==> exists h, i :: (
              FoundAt(r.value, h, i) && start <= h <= max
              && was + AllInspected(ps) == was + Blocks(start, h) + Block(h)[..i + 1]))
        && (r.PollFailed? ==> was + AllInspected(ps) == was + Blocks(start, max + 1))
        && (!r.Found? ==> was + AllInspected(ps) == was + Blocks(start, start + |ps|))
    {
      var r, ps := Polled(heights, Answer, start, max, None), Probed(heights, Answer, start, max, 0);
      ProbesInOrder(heights, Answer, start, max, 0);
      ProbeAnswers(heights, Answer, start, max, None, 0);
      if r.Found? {
        var h := start + |ps| - 1;
        var i := FoundBlocks(ps, start, r.value);
        Regroup(was, Blocks(start, h), Block(h)[..i + 1]);
      } else {
        FailedBlocks(ps, start);
      }
    }

    /** Its loop. */
    method PollUpTo(heights: seq<Result<int, string>>, start: int, max: int) returns (r: Outcome<P, string>)
      requires start <= max
      modifies this
      ensures r == Polled(heights, Answer, start, max, None)
      ensures polled == old(polled) + Probed(heights, Answer, start, max, 0)
      ensures searched == old(searched) + AllInspected(Probed(heights, Answer, start, max, 0))
    {
      ghost var was, before := searched, polled;
      ghost var hs: seq<Probe> := [];
      ghost var poll: int -> Result<P, string> := Answer;
      var cursor, pollErr: Option<string>, i := start, None, 0;
      assert heights[0..] == heights && was + AllInspected([]) == was;
      while cursor <= max
        invariant i <= |heights| && Underway(heights, i, poll, start, max, cursor, pollErr, hs) == true
        invariant cursor > max ==> pollErr.Some?
        invariant Logged(was, before, hs) == true
        decreases |heights| - i
      {
        if i == |heights| {
          UnderwayEnds(heights, i, poll, start, max, cursor, pollErr, hs);
          return Waiting;
        }
        UnderwayTurn(heights, i, poll, start, max, cursor, pollErr, hs);
        var curHeight := heights[i];
        i := i + 1;
        if curHeight.Err? {
          return HeightFailed(curHeight.error);
        }
        if cursor > curHeight.value {
          continue;
        }
        var found := PollNext(cursor, i - 1, was, before, hs);
        hs := hs + [Probe(cursor, i - 1)];
        if found.Err? {
          pollErr := Some(found.error);
          cursor := cursor + 1;
          continue;
        }
        return Found(found.value);
      }
      UnderwayEnds(heights, i, poll, start, max, cursor, pollErr, hs);
      r := PollFailed(pollErr.value);
    }

    function AllInspected(ps: seq<Probe>): seq<P> {
      if ps == [] then [] else AllInspected(ps[..|ps| - 1]) + Inspected(ps[|ps| - 1].height)
    }

    lemma AllInspectedSnoc(was: seq<P>, ps: seq<Probe>, p: Probe)
      ensures was + AllInspected(ps + [p]) == was + AllInspected(ps) + Inspected(p.height)
    {
      assert (ps + [p])[..|ps|] == ps;
      Regroup(was, AllInspected(ps), Inspected(p.height));
    }
  }

  function FirstMatch<P>(ps: seq<P>, matches: P -> bool): (k: nat)
    ensures k <= |ps|
  {
    if ps == [] || matches(ps[0]) then 0 else 1 + FirstMatch(ps[1..], matches)
  }

  /** It is the least index of a match. */
  lemma {:induction false} FirstMatchLeast<P>(ps: seq<P>, matches: P -> bool)
    ensures forall i :: 0 <= i < FirstMatch(ps, matches) ==> !matches(ps[i])
    ensures FirstMatch(ps, matches) < |ps| ==> matches(ps[FirstMatch(ps, matches)])
  {
    if ps != [] && !matches(ps[0]) {
      FirstMatchLeast(ps[1..], matches);
    }
  }

  lemma FirstMatchIs<P>(ps: seq<P>, matches: P -> bool, i: nat)
    requires i < |ps| && matches(ps[i]) && i <= FirstMatch(ps, matches)
    ensures FirstMatch(ps, matches) == i
  {
    FirstMatchLeast(ps, matches);
  }

  lemma FirstMatchPast<P>(ps: seq<P>, matches: P -> bool, i: nat)
    requires i < |ps| && !matches(ps[i]) && i <= FirstMatch(ps, matches)
    ensures i < FirstMatch(ps, matches)
  {
    FirstMatchLeast(ps, matches);
  }

  /* ---------- what DoPoll promises ---------- */

  ghost predicate InARow(ps: seq<Probe>, start: int) {
    forall k :: 0 <= k < |ps| ==> ps[k].height == start + k
  }

  /** Heights are polled one by one from the start, each once, none above the maximum. */
  lemma {:induction false} ProbesInOrder<T, E>(seen: seq<Result<int, E>>, poll: int -> Result<T, E>, cursor: int, max: int, at: nat)
    ensures var ps := Probed(seen, poll, cursor, max, at);
      InARow(ps, cursor) && (ps != [] ==> cursor + |ps| <= max + 1)
  {
    if cursor > max || seen == [] || seen[0].Err? {
    } else if cursor > seen[0].value {
      ProbesInOrder(seen[1..], poll, cursor, max, at + 1);
    } else if poll(cursor).Err? {
      ProbesInOrder(seen[1..], poll, cursor + 1, max, at + 1);
    }
  }

  ghost predicate AllFail<T, E>(poll: int -> Result<T, E>, ps: seq<Probe>) {
    forall k :: 0 <= k < |ps| ==> poll(ps[k].height).Err?
  }

  /** The polls without a last successful one. */
  function Failing(ps: seq<Probe>, found: bool): seq<Probe> {
    if found && ps != [] then ps[..|ps| - 1] else ps
  }

  lemma FailingCons<T, E>(poll: int -> Result<T, E>, p: Probe, rest: seq<Probe>, found: bool)
    requires poll(p.height).Err? && AllFail(poll, Failing(rest, found)) && (found ==> rest != [])
    ensures AllFail(poll, Failing([p] + rest, found))
    ensures rest != [] ==> ([p] + rest)[|rest|] == rest[|rest| - 1]
  {
    assert Failing([p] + rest, found) == [p] + Failing(rest, found);
  }

  /** Every poll but a successful last one fails. */
  lemma {:induction false} ProbeAnswers<T, E>(seen: seq<Result<int, E>>, poll: int -> Result<T, E>, cursor: int, max: int, last: Option<E>, at: nat)
    requires cursor > max ==> last.Some?
    ensures var r, ps := Polled(seen, poll, cursor, max, last), Probed(seen, poll, cursor, max, at);
      && AllFail(poll, Failing(ps, r.Found?))
      && (r.Found? ==> ps != [] && poll(ps[|ps| - 1].height) == Ok(r.value))
      && (r.PollFailed? && cursor <= max + 1 ==> cursor + |ps| == max + 1)
  {
    if cursor > max || seen == [] || seen[0].Err? {
    } else if cursor > seen[0].value {
      ProbeAnswers(seen[1..], poll, cursor, max, last, at + 1);
    } else if poll(cursor).Err? {
      var rest := Some(poll(cursor).error);
      ProbeAnswers(seen[1..], poll, cursor + 1, max, rest, at + 1);
      FailingCons(poll, Probe(cursor, at), Probed(seen[1..], poll, cursor + 1, max, at + 1),
                  Polled(seen[1..], poll, cursor + 1, max, rest).Found?);
    } else {
      assert Failing([Probe(cursor, at)], true) == [];
    }
  }

  /** Observation number n, counted from `at`, was a height of at least h. */
  ghost predicate Reached<E>(seen: seq<Result<int, E>>, at: nat, n: nat, h: int) {
    at <= n < at + |seen| && seen[n - at].Ok? && h <= seen[n - at].value
  }

  /** Every poll has its own observation, and its height was reached by then. */
  ghost predicate Produced<E>(seen: seq<Result<int, E>>, at: nat, ps: seq<Probe>) {
    && (forall k :: 0 <= k < |ps| ==> Reached(seen, at, ps[k].seen, ps[k].height))
    && (forall j, k :: 0 <= j < k < |ps| ==> ps[j].seen < ps[k].seen)
  }

  lemma ProducedLater<E>(seen: seq<Result<int, E>>, at: nat, ps: seq<Probe>)
    requires seen != [] && Produced(seen[1..], at + 1, ps)
    ensures Produced(seen, at, ps) && forall k :: 0 <= k < |ps| ==> at < ps[k].seen
  {
    forall k | 0 <= k < |ps| ensures at < ps[k].seen && Reached(seen, at, ps[k].seen, ps[k].height) {
      assert Reached(seen[1..], at + 1, ps[k].seen, ps[k].height);
      assert seen[1..][ps[k].seen - (at + 1)] == seen[ps[k].seen - at];
    }
  }

  /** No height is polled above the height just observed. */
  lemma {:induction false} ProbesOnlyProduced<T, E>(seen: seq<Result<int, E>>, poll: int -> Result<T, E>, cursor: int, max: int, at: nat)
    ensures Produced(seen, at, Probed(seen, poll, cursor, max, at))
  {
    if cursor > max || seen == [] || seen[0].Err? {
    } else if cursor > seen[0].value {
      ProbesOnlyProduced(seen[1..], poll, cursor, max, at + 1);
      ProducedLater(seen, at, Probed(seen[1..], poll, cursor, max, at + 1));
    } else if poll(cursor).Err? {
      ProbesOnlyProduced(seen[1..], poll, cursor + 1, max, at + 1);
      ProducedLater(seen, at, Probed(seen[1..], poll, cursor + 1, max, at + 1));
    }
  }

  /** The first height at which the poll succeeds, if one lies in the range. */
  ghost predicate LeastSuccess<T, E>(poll: int -> Result<T, E>, from: int, h: int) {
    from <= h && poll(h).Ok? && forall k :: from <= k < h ==> poll(k).Err?
  }

  /** Found is the answer of the least height that has one; a failure is the answer of the last
      height after every height failed. */
  lemma {:induction false} PollIsLeast<T, E>(seen: seq<Result<int, E>>, poll: int -> Result<T, E>, cursor: int, max: int, last: Option<E>)
    requires cursor <= max + 1 && (cursor > max ==> poll(max).Err? && last == Some(poll(max).error))
    ensures var r := Polled(seen, poll, cursor, max, last);
      && (r.Found? ==> exists h :: LeastSuccess(poll, cursor, h) && h <= max && r.value == poll(h).value)
      && (r.PollFailed? ==> (forall k :: cursor <= k <= max ==> poll(k).Err?) && poll(max).Err? && r.error == poll(max).error)
  {
    if cursor > max || seen == [] || seen[0].Err? {
    } else if cursor > seen[0].value {
      PollIsLeast(seen[1..], poll, cursor, max, last);
    } else if poll(cursor).Err? {
      PollIsLeast(seen[1..], poll, cursor + 1, max, Some(poll(cursor).error));
      var r := Polled(seen[1..], poll, cursor + 1, max, Some(poll(cursor).error));
      if r.Found? {
        var h :| LeastSuccess(poll, cursor + 1, h) && h <= max && r.value == poll(h).value;
        assert LeastSuccess(poll, cursor, h);
      }
    } else {
      assert LeastSuccess(poll, cursor, cursor);
    }
  }

  /** How many observations reach the maximum. */
  function Useful<E>(seen: seq<Result<int, E>>, max: int): nat {
    if seen == [] then 0 else (if seen[0].Ok? && seen[0].value < max then 0 else 1) + Useful(seen[1..], max)
  }

  /** Once the chain is seen at the maximum height often enough, the loop has ended: one such
      observation per height is all it can use up. */
  lemma {:induction false} PollTerminates<T, E>(seen: seq<Result<int, E>>, poll: int -> Result<T, E>, cursor: int, max: int, last: Option<E>)
    requires cursor > max ==> last.Some?
    requires Useful(seen, max) >= max + 1 - cursor
    ensures !Polled(seen, poll, cursor, max, last).Waiting?
  {
    if cursor > max || seen == [] || seen[0].Err? {
    } else if cursor > seen[0].value {
      PollTerminates(seen[1..], poll, cursor, max, last);
    } else if poll(cursor).Err? {
      PollTerminates(seen[1..], poll, cursor + 1, max, Some(poll(cursor).error));
    }
  }

  /** A packet search returns the match of least height and, in that block, least position. */
  lemma SearchIsLeast<P>(search: PacketPoll<P>, seen: seq<Result<int, string>>, start: int, max: int)
    requires start <= max
    ensures var r := Polled(seen, search.Answer, start, max, None);
      r.Found? ==> exists h, i ::
        && start <= h <= max && search.candidates(h).Ok? && 0 <= i < |search.candidates(h).value|
        && search.candidates(h).value[i] == r.value && search.matches(r.value)
        && (forall j :: 0 <= j < i ==> !search.matches(search.candidates(h).value[j]))
        && (forall k, j :: start <= k < h && search.candidates(k).Ok? && 0 <= j < |search.candidates(k).value| ==>
              !search.matches(search.candidates(k).value[j]))
  {
    PollIsLeast(seen, search.Answer, start, max, None);
    var r := Polled(seen, search.Answer, start, max, None);
    if r.Found? {
      var h :| LeastSuccess(search.Answer, start, h) && h <= max && r.value == search.Answer(h).value;
      var ps := search.candidates(h).value;
      FirstMatchLeast(ps, search.matches);
      forall k, j | start <= k < h && search.candidates(k).Ok? && 0 <= j < |search.candidates(k).value|
        ensures !search.matches(search.candidates(k).value[j])
      {
        assert search.Answer(k).Err?;
        FirstMatchLeast(search.candidates(k).value, search.matches);
      }
    }
  }
}
