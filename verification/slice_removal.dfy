/**
 Removal from a Go slice by a loop that ranges over the slice header it started with, while `append`
 shifts the shared backing array (cosmos/hub/dym_hub/dym_hub.go).
*/
module SliceRemoval {
  import opened Chains
  import opened Outcomes
  import opened Sequences

  type RollApp = Chain

  predicate Is(r: RollApp, id: ChainID) { r.chainID == id }

  /** The rollapps from position `at` on, without those of the given ID. */
  function Without(s: seq<RollApp>, at: nat, id: ChainID): seq<RollApp>
    decreases |s| - at
  {
    if at >= |s| then []
    else if Is(s[at], id) then Without(s, at + 1, id)
    else [s[at]] + Without(s, at + 1, id)
  }

  /** What the loop keeps from position `at` on: after a removal the shifted-in neighbour is not
      looked at. */
  function Swept(s: seq<RollApp>, at: nat, id: ChainID): seq<RollApp>
    decreases |s| - at
  {
    if at >= |s| then []
    else if !Is(s[at], id) then [s[at]] + Swept(s, at + 1, id)
    else if at + 1 == |s| then []
    else [s[at + 1]] + Swept(s, at + 2, id)
  }

  /** One of the first n rollapps has the ID. */
  predicate Matches(s: seq<RollApp>, n: nat, id: ChainID) {
    exists k :: 0 <= k < n && k < |s| && Is(s[k], id)
  }

  predicate LastMatches(s: seq<RollApp>, id: ChainID) {
    s != [] && Is(s[|s| - 1], id)
  }

  /** From position `at` on, no two rollapps with the ID are neighbours. */
  predicate NoNeighbours(s: seq<RollApp>, at: nat, id: ChainID) {
    forall k :: at <= k < |s| - 1 ==> !(Is(s[k], id) && Is(s[k + 1], id))
  }

  /** A last element with the ID is looked at twice once something was removed before it. */
  predicate Panics(s: seq<RollApp>, id: ChainID) {
    LastMatches(s, id) && Matches(s, |s| - 1, id)
  }

  /** append(a[:i], a[i+1:len]...) in place: the last cell of the slice stays. */
  function Shift(a: seq<RollApp>, i: nat, len: nat): seq<RollApp>
    requires i < len <= |a|
  {
    a[..i] + a[i + 1..len] + a[len - 1..]
  }

  /** The same, cell by cell. */
  ghost predicate Shifted(a: seq<RollApp>, b: seq<RollApp>, i: nat, len: nat) {
    && i < len <= |a| == |b|
    && forall j :: 0 <= j < |a| ==> b[j] == a[if i <= j < len - 1 then j + 1 else j]
  }

  lemma ShiftIsPointwise(a: seq<RollApp>, b: seq<RollApp>, i: nat, len: nat)
    requires i < len <= |a| == |b|
    ensures Shifted(a, b, i, len) <==> b == Shift(a, i, len)
  {
    if Shifted(a, b, i, len) {
      forall j | 0 <= j < |a| ensures b[j] == Shift(a, i, len)[j] {
      }
    }
  }

  /** Turn i of the loop, when it does not panic. */
  function Turned(a: seq<RollApp>, len: nat, i: nat, id: ChainID): (seq<RollApp>, nat)
    requires len <= |a| && i < |a| && (Is(a[i], id) ==> i < len)
  {
    if Is(a[i], id) then (Shift(a, i, len), len - 1) else (a, len)
  }

  /** Turns i, i + 1, .., n - 1 of the loop on the array `a`, whose slice now has length len; None is
      a slice bound out of range. */
  function Sweep(a: seq<RollApp>, len: nat, i: nat, n: nat, id: ChainID): Option<seq<RollApp>>
    requires len <= n <= |a| && i <= n
    decreases n - i
  {
    if i == n then Some(a[..len])
    else if Is(a[i], id) && i + 1 > len then None
    else var (b, l) := Turned(a, len, i, id); Sweep(b, l, i + 1, n, id)
  }

  /* ---------- the loop over the shrinking slice ---------- */

  /** The cells at and beyond position i: first the part of the slice not looked at, then stale copies. */
  ghost predicate Unseen(a: seq<RollApp>, len: nat, i: nat, s: seq<RollApp>) {
    && len <= |s| <= |a|
    && (forall j :: i <= j < len ==> a[j] == s[j + |s| - len])
    && (forall j :: len <= j < |s| ==> a[j] == s[|s| - 1])
  }

  /** What the loop will have kept in the end. */
  ghost function Outcome(a: seq<RollApp>, len: nat, i: nat, s: seq<RollApp>, id: ChainID): seq<RollApp>
    requires len <= |s| <= |a|
  {
    if i <= len then a[..i] + Swept(s, i + |s| - len, id) else a[..len]
  }

  ghost function Expected(a: seq<RollApp>, len: nat, i: nat, s: seq<RollApp>, id: ChainID): Option<seq<RollApp>>
    requires len <= |s| <= |a|
  {
    if Panics(s, id) then None else Some(Outcome(a, len, i, s, id))
  }

  /** The array `a` and length `len` before turn i of a loop that started on the list s. */
  ghost predicate Sweeping(a: seq<RollApp>, len: nat, i: nat, s: seq<RollApp>, id: ChainID) {
    && i <= |s| && Unseen(a, len, i, s)
    && (len < |s| <==> Matches(s, i, id))
    && (i > len && Panics(s, id) ==> i == len + 1 && i < |s|)
  }

  /** A turn without a match keeps the element it looked at. */
  lemma KeepOutcome(a: seq<RollApp>, len: nat, i: nat, s: seq<RollApp>, id: ChainID)
    requires Unseen(a, len, i, s) && i < |s| && !Is(a[i], id)
    ensures Outcome(a, len, i + 1, s, id) == Outcome(a, len, i, s, id)
  {
    if i < len {
      var at := i + |s| - len;
      assert a[i] == s[at];
      assert a[..i + 1] == a[..i] + [s[at]];
      Regroup(a[..i], [s[at]], Swept(s, at + 1, id));
    } else {
      assert a[..len] + [] == a[..len];
    }
  }

  lemma KeepStep(a: seq<RollApp>, len: nat, i: nat, s: seq<RollApp>, id: ChainID)
    requires Sweeping(a, len, i, s, id) && i < |s| && !Is(a[i], id)
    ensures Sweeping(a, len, i + 1, s, id)
  {
  }

  lemma ShiftedPrefix(a: seq<RollApp>, b: seq<RollApp>, len: nat, i: nat)
    requires i + 1 < len && Shifted(a, b, i, len)
    ensures b[..i + 1] == a[..i] + [a[i + 1]]
  {
    assert b[i] == a[i + 1];
  }

  /** A removal keeps the neighbour that takes the place, unseen. */
  lemma RemoveInside(a: seq<RollApp>, b: seq<RollApp>, len: nat, i: nat, s: seq<RollApp>, id: ChainID)
    requires i + 1 < len <= |s| <= |a| == |b| && Is(a[i], id) && b[..i + 1] == a[..i] + [a[i + 1]]
    requires a[i] == s[i + |s| - len] && a[i + 1] == s[i + 1 + |s| - len]
    ensures Outcome(b, len - 1, i + 1, s, id) == Outcome(a, len, i, s, id)
  {
    var at := i + |s| - len;
    var rest := Swept(s, at + 2, id);
    assert Swept(s, at, id) == [s[at + 1]] + rest;
    assert Outcome(a, len, i, s, id) == a[..i] + ([s[at + 1]] + rest);
    assert Outcome(b, len - 1, i + 1, s, id) == b[..i + 1] + rest;
    Regroup(a[..i], [s[at + 1]], rest);
  }

  /** There is none behind the last one. */
  lemma RemoveEnd(a: seq<RollApp>, b: seq<RollApp>, len: nat, i: nat, s: seq<RollApp>, id: ChainID)
    requires Unseen(a, len, i, s) && i + 1 == len && Is(a[i], id) && Shifted(a, b, i, len)
    ensures Outcome(b, len - 1, i + 1, s, id) == Outcome(a, len, i, s, id)
  {
    var at := i + |s| - len;
    assert a[i] == s[at] && b[..i] == a[..i];
    assert Swept(s, at, id) == [];
    assert a[..i] + [] == a[..i];
  }

  lemma RemoveUnseen(a: seq<RollApp>, b: seq<RollApp>, len: nat, i: nat, s: seq<RollApp>)
    requires Unseen(a, len, i, s) && Shifted(a, b, i, len)
    ensures Unseen(b, len - 1, i + 1, s)
  {
  }

  lemma MatchAt(s: seq<RollApp>, i: nat, id: ChainID)
    requires i < |s| && (Is(s[i], id) || Matches(s, i, id))
    ensures Matches(s, i + 1, id)
  {
  }

  /** Removing the last element is the end of it, unless something was removed before. */
  lemma RemoveLast(len: nat, i: nat, s: seq<RollApp>, id: ChainID)
    requires i == len - 1 && len <= |s| && (len < |s| <==> Matches(s, i, id)) && Panics(s, id)
    ensures i + 1 < |s|
  {
  }

  /** Turn i finds a match inside the slice and shifts the tail over it. */
  lemma RemoveStep(a: seq<RollApp>, len: nat, i: nat, s: seq<RollApp>, id: ChainID)
    requires Sweeping(a, len, i, s, id) && i < len && Is(a[i], id)
    ensures Sweeping(Shift(a, i, len), len - 1, i + 1, s, id)
    ensures Outcome(Shift(a, i, len), len - 1, i + 1, s, id) == Outcome(a, len, i, s, id)
  {
    var b := Shift(a, i, len);
    ShiftIsPointwise(a, b, i, len);
    RemoveUnseen(a, b, len, i, s);
    if i + 1 < len {
      ShiftedPrefix(a, b, len, i);
      RemoveInside(a, b, len, i, s, id);
    } else {
      RemoveEnd(a, b, len, i, s, id);
    }
    assert a[i] == s[i + |s| - len];
    MatchAt(s, i, id);
    if i == len - 1 && Panics(s, id) {
      RemoveLast(len, i, s, id);
    }
  }

  /** A match in the stale tail: the slice expression is out of range. */
  lemma StaleMatchPanics(a: seq<RollApp>, len: nat, i: nat, s: seq<RollApp>, id: ChainID)
    requires Sweeping(a, len, i, s, id) && len <= i < |s| && Is(a[i], id)
    ensures Panics(s, id)
  {
  }

  lemma SweepEnds(a: seq<RollApp>, len: nat, s: seq<RollApp>, id: ChainID)
    requires Sweeping(a, len, |s|, s, id)
    ensures !Panics(s, id) && Outcome(a, len, |s|, s, id) == a[..len]
  {
    assert len == |s| ==> a[..len] + [] == a[..len];
  }

  /** A turn that does not panic, whatever it looks at. */
  lemma TurnStep(a: seq<RollApp>, len: nat, i: nat, s: seq<RollApp>, id: ChainID)
    requires Sweeping(a, len, i, s, id) && i < |s| && (Is(a[i], id) ==> i < len)
    ensures var (b, l) := Turned(a, len, i, id);
            |b| == |a| && l <= |s| && Sweeping(b, l, i + 1, s, id)
            && Expected(b, l, i + 1, s, id) == Expected(a, len, i, s, id)
  {
    if Is(a[i], id) {
      assert Turned(a, len, i, id) == (Shift(a, i, len), len - 1);
      RemoveStep(a, len, i, s, id);
    } else {
      assert Turned(a, len, i, id) == (a, len);
      KeepStep(a, len, i, s, id);
      KeepOutcome(a, len, i, s, id);
    }
  }

  lemma {:induction false} SweepFrom(a: seq<RollApp>, len: nat, i: nat, s: seq<RollApp>, id: ChainID)
    requires len <= |s| <= |a| && i <= |s| && Sweeping(a, len, i, s, id) == true
    ensures Sweep(a, len, i, |s|, id) == Expected(a, len, i, s, id)
    decreases |s| - i
  {
    if i == |s| {
      SweepEnds(a, len, s, id);
    } else if Is(a[i], id) && i + 1 > len {
      StaleMatchPanics(a, len, i, s, id);
    } else {
      TurnStep(a, len, i, s, id);
      var (b, l) := Turned(a, len, i, id);
      SweepFrom(b, l, i + 1, s, id);
    }
  }

  /** What the loop makes of a slice of length n. */
  lemma SweepOutcome(a: seq<RollApp>, n: nat, id: ChainID)
    requires n <= |a|
    ensures Sweep(a, n, 0, n, id) == if Panics(a[..n], id) then None else Some(Swept(a[..n], 0, id))
  {
    var s := a[..n];
    SweepFrom(a, n, 0, s, id);
    assert a[..0] + Swept(s, 0, id) == Swept(s, 0, id);
  }

  /* ---------- what the loop amounts to ---------- */

  lemma {:induction false} WithoutHasNone(s: seq<RollApp>, at: nat, id: ChainID)
    ensures forall r :: r in Without(s, at, id) ==> !Is(r, id)
    decreases |s| - at
  {
    if at < |s| {
      WithoutHasNone(s, at + 1, id);
    }
  }

  /** Skipping the neighbour is harmless exactly when no two matches are neighbours. */
  lemma {:induction false} SweptIsWithout(s: seq<RollApp>, at: nat, id: ChainID)
    ensures Swept(s, at, id) == Without(s, at, id) <==> NoNeighbours(s, at, id)
    decreases |s| - at
  {
    if at < |s| && !Is(s[at], id) {
      SweptIsWithout(s, at + 1, id);
      assert Swept(s, at, id)[1..] == Swept(s, at + 1, id) && Without(s, at, id)[1..] == Without(s, at + 1, id);
    } else if at + 1 < |s| {
      if Is(s[at + 1], id) {
        WithoutHasNone(s, at, id);
        assert Swept(s, at, id)[0] == s[at + 1];
      } else {
        SweptIsWithout(s, at + 2, id);
        assert Without(s, at, id) == [s[at + 1]] + Without(s, at + 2, id);
        assert Swept(s, at, id)[1..] == Swept(s, at + 2, id) && Without(s, at, id)[1..] == Without(s, at + 2, id);
      }
    }
  }

  /** RemoveRollApp removes the matching rollapps and nothing else exactly when no two of them are
      neighbours and none but a sole one is last. */
  lemma RemovalIsExact(s: seq<RollApp>, id: ChainID)
    ensures (!Panics(s, id) && Swept(s, 0, id) == Without(s, 0, id)) <==>
            (NoNeighbours(s, 0, id) && (LastMatches(s, id) ==> !Matches(s, |s| - 1, id)))
  {
    SweptIsWithout(s, 0, id);
  }

  /** Without distinct IDs it can go wrong: two neighbours of one ID at the end make it panic, and
      elsewhere the second one stays. */
  lemma TwinsGoWrong(a: RollApp, b: RollApp, c: RollApp, id: ChainID)
    requires Is(a, id) && Is(b, id) && !Is(c, id)
    ensures Panics([a, b], id)
    ensures !Panics([a, b, c], id) && Swept([a, b, c], 0, id) == [b, c] && Without([a, b, c], 0, id) == [c]
  {
    assert Is([a, b][0], id);
    var s := [a, b, c];
    assert Without(s, 3, id) == [] && Swept(s, 3, id) == [];
    assert Swept(s, 2, id) == [c] && Without(s, 2, id) == [c];
    assert Is(s[1], id) && Without(s, 1, id) == Without(s, 2, id);
    assert Is(s[0], id) && Without(s, 0, id) == Without(s, 1, id);
  }

  ghost predicate DistinctIDs(s: seq<RollApp>) {
    forall i, j :: 0 <= i < j < |s| ==> s[i].chainID != s[j].chainID
  }

  /** With distinct chain IDs removal always works, keeps the others in order, and the IDs stay distinct. */
  lemma DistinctIDsRemoveExactly(s: seq<RollApp>, id: ChainID)
    requires DistinctIDs(s)
    ensures !Panics(s, id) && Swept(s, 0, id) == Without(s, 0, id)
    ensures DistinctIDs(Without(s, 0, id))
  {
    RemovalIsExact(s, id);
    WithoutDistinct(s, 0, id);
  }

  lemma {:induction false} WithoutDistinct(s: seq<RollApp>, at: nat, id: ChainID)
    requires DistinctIDs(s)
    ensures DistinctIDs(Without(s, at, id))
    ensures forall r :: r in Without(s, at, id) ==> exists k :: at <= k < |s| && s[k] == r
    decreases |s| - at
  {
    if at < |s| {
      WithoutDistinct(s, at + 1, id);
      var rest := Without(s, at + 1, id);
      forall i | 0 <= i < |rest| ensures rest[i].chainID != s[at].chainID {
        assert rest[i] in rest;
      }
    }
  }

  /** Without a match the list is left as it is. */
  lemma {:induction false} NothingToRemove(s: seq<RollApp>, at: nat, id: ChainID)
    requires at <= |s| && forall k :: at <= k < |s| ==> !Is(s[k], id)
    ensures Swept(s, at, id) == s[at..]
    decreases |s| - at
  {
    if at < |s| {
      NothingToRemove(s, at + 1, id);
    }
  }
}
