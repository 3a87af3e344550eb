/**
 The rollapp list of a hub (cosmos/hub/dym_hub/dym_hub.go): a Go slice, that is a backing array and a
 length, appended to by `SetRollApp` and shifted in place by `RemoveRollApp`.
*/
module HubRollApps {
  import opened Chains
  import opened SliceRemoval

  class DymHub {
    var backing: array<RollApp>
    var len: nat

    ghost predicate Valid()
      reads this
    {
      len <= backing.Length
    }

    ghost function RollApps(): seq<RollApp>
      requires Valid()
      reads this, backing
    {
      backing[..len]
    }

    constructor ()
      ensures Valid() && fresh(backing) && RollApps() == []
    {
      backing := new RollApp[0];
      len := 0;
    }

    /** append: in place when there is room, else into a larger copy. */
    method SetRollApp(r: RollApp)
      requires Valid()
      modifies this, backing
      ensures Valid() && (backing == old(backing) || fresh(backing))
      ensures RollApps() == old(RollApps()) + [r]
    {
      if len == backing.Length {
        var larger := new RollApp[2 * len + 1](_ => r);
        for i := 0 to len
          invariant len == old(len) && backing == old(backing) && fresh(larger)
          invariant backing[..len] == old(backing[..len])
          invariant larger[..i] == backing[..i]
        {
          larger[i] := backing[i];
        }
        backing := larger;
      }
      backing[len] := r;
      len := len + 1;
    }

    method ShiftLeft(id: nat)
      requires Valid() && id < len
      modifies this`len, backing
      ensures Valid() && len == old(len) - 1
      ensures backing[..] == Shift(old(backing[..]), id, old(len))
    {
      for j := id to len - 1
        invariant len == old(len)
        invariant forall k :: 0 <= k < backing.Length ==>
                    backing[k] == old(backing[..])[if id <= k < j then k + 1 else k]
      {
        backing[j] := backing[j + 1];
      }
      ShiftIsPointwise(old(backing[..]), backing[..], id, len);
      len := len - 1;
    }

    /** RemoveRollApp; `panicked` is a slice bound out of range. */
    method RemoveRollApp(id: ChainID) returns (panicked: bool)
      requires Valid()
      modifies this`len, backing
      ensures Valid()
      ensures panicked <==> Panics(old(RollApps()), id)
      ensures !panicked ==> RollApps() == Swept(old(RollApps()), 0, id)
    {
      ghost var a := backing[..];
      for i := 0 to len
        invariant Valid() && backing.Length == |a| && i <= old(len)
        invariant len <= old(len)
        invariant Sweep(backing[..], len, i, old(len), id) == Sweep(a, old(len), 0, old(len), id)
      {
        if Is(backing[i], id) {
          if i + 1 > len {
            SweepOutcome(a, old(len), id);
            return true;
          }
          ShiftLeft(i);
        }
      }
      SweepOutcome(a, old(len), id);
      panicked := false;
    }
  }
}
