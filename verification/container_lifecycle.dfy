/**
 The methods behind the reservation steps, run by one goroutine: `GeneratePortBindings`
 (dockerutil/ports.go) and the lifecycle object (dockerutil/container_lifecycle.go).
*/
module ContainerLifecycles {
  import opened Outcomes
  import opened Sequences
  import PortReservation

  type Port = PortReservation.Port

  ghost predicate Injective(m: map<nat, Port>) {
    forall p, q :: p in m && q in m && m[p] == m[q] ==> p == q
  }

  /** The listeners are the bindings' host ports, one each. */
  ghost predicate Reservation(m: map<nat, Port>, listeners: seq<Port>) {
    Injective(m) && NoRepeats(listeners) && PortReservation.Ports(listeners) == m.Values
  }

  lemma Grown(m: map<nat, Port>, listeners: seq<Port>, p: nat, l: Port)
    requires Reservation(m, listeners) && p !in m && l !in m.Values
    ensures Reservation(m[p := l], listeners + [l]) && m[p := l].Values == m.Values + {l}
  {
    var m' := m[p := l];
    assert m'[p] == l;
    assert forall q :: q in m ==> q in m' && m'[q] == m[q];
    assert m'.Values == m.Values + {l};
    assert l !in listeners by {
      assert l !in PortReservation.Ports(listeners);
    }
    assert PortReservation.Ports(listeners + [l]) == PortReservation.Ports(listeners) + {l};
  }

  /** The kernel's first n answers are ports not in use and different from each other. */
  ghost predicate Grants(offers: nat -> Option<Port>, n: nat, used: set<Port>) {
    forall k: nat :: k < n ==>
      && offers(k).Some? && offers(k).value !in used
      && forall j: nat :: j < k ==> offers(j) != offers(k)
  }

  /** The listeners are on the ports offered, in that order. */
  ghost predicate Taken(offers: nat -> Option<Port>, listeners: seq<Port>) {
    forall k :: 0 <= k < |listeners| ==> offers(k) == Some(listeners[k])
  }

  /** One more answer, and whether it is granted. */
  lemma GrantsOneMore(offers: nat -> Option<Port>, listeners: seq<Port>, used: set<Port>)
    requires Grants(offers, |listeners|, used) && Taken(offers, listeners)
    ensures Grants(offers, |listeners| + 1, used) <==>
            offers(|listeners|).Some? && offers(|listeners|).value !in used + PortReservation.Ports(listeners)
  {
    var n := |listeners|;
    if offers(n).Some? && offers(n).value in PortReservation.Ports(listeners) {
      var j :| 0 <= j < n && listeners[j] == offers(n).value;
      assert offers(j) == offers(n);
    }
    if offers(n).Some? && offers(n).value !in PortReservation.Ports(listeners) {
      forall j: nat | j < n ensures offers(j) != offers(n) {
        assert listeners[j] in PortReservation.Ports(listeners);
      }
    }
  }

  lemma GrantsFewer(offers: nat -> Option<Port>, n: nat, m: nat, used: set<Port>)
    requires n <= m && !Grants(offers, n, used)
    ensures !Grants(offers, m, used)
  {
  }

  /** The host's TCP ports and the package mutex `mu`, as this process sees them. */
  class Host {
    var open: set<Port>
    var bound: set<Port>
    var writeLocked: bool
    var readLocks: nat

    ghost predicate Unlocked()
      reads this
    {
      !writeLocked && readLocks == 0
    }

    constructor ()
      ensures Unlocked() && open == {} && bound == {}
    {
      open, bound, writeLocked, readLocks := {}, {}, false, 0;
    }

    /** net.ListenTCP on port 0: the kernel offers a port; one in use is never given. */
    method Listen(offer: Option<Port>) returns (r: Option<Port>)
      modifies this`open
      ensures r.Some? <==> offer.Some? && offer.value !in old(open) + bound
      ensures r.Some? ==> r == offer && open == old(open) + {offer.value}
      ensures r.None? ==> open == old(open)
    {
      if offer.Some? && offer.value !in open + bound {
        open := open + {offer.value};
        r := offer;
      } else {
        r := None;
      }
    }

    method OpenListenerOnFreePort(offer: Option<Port>) returns (r: Option<Port>)
      requires Unlocked()
      modifies this`open, this`writeLocked
      ensures Unlocked()
      ensures r.Some? <==> offer.Some? && offer.value !in old(open) + bound
      ensures r.Some? ==> r == offer && open == old(open) + {offer.value}
      ensures r.None? ==> open == old(open)
    {
      writeLocked := true;
      r := Listen(offer);
      writeLocked := false;
    }

    method CloseAll(listeners: seq<Port>)
      modifies this`open
      ensures open == old(open) - PortReservation.Ports(listeners)
    {
      for i := 0 to |listeners|
        invariant open == old(open) - PortReservation.Ports(listeners[..i])
      {
        open := open - {listeners[i]};
        assert listeners[..i + 1] == listeners[..i] + [listeners[i]];
      }
      assert listeners[..|listeners|] == listeners;
    }

    /** One free port per exposed port, visited in whatever order the map iterates; `offers`
        is what the kernel answers, call by call. */
    method GeneratePortBindings(portSet: set<nat>, offers: nat -> Option<Port>)
      returns (ok: bool, m: map<nat, Port>, listeners: seq<Port>)
      requires Unlocked()
      modifies this`open, this`writeLocked
      ensures Unlocked()
      ensures ok <==> Grants(offers, |portSet|, old(open) + bound)
      ensures ok ==> m.Keys == portSet && |listeners| == |portSet| && Reservation(m, listeners) && Taken(offers, listeners)
      ensures ok ==> open == old(open) + m.Values && m.Values !! old(open) + bound
      ensures !ok ==> open == old(open) && m == map[] && listeners == []
    {
      m, listeners := map[], [];
      var todo := portSet;
      while todo != {}
        invariant Unlocked()
        invariant m.Keys == portSet - todo && todo <= portSet
        invariant |listeners| + |todo| == |portSet|
        invariant Reservation(m, listeners) && Taken(offers, listeners)
        invariant Grants(offers, |listeners|, old(open) + bound)
        invariant open == old(open) + m.Values && m.Values !! old(open) + bound
        decreases todo
      {
        var p :| p in todo;
        GrantsOneMore(offers, listeners, old(open) + bound);
        var l := OpenListenerOnFreePort(offers(|listeners|));
        if l.None? {
          GrantsFewer(offers, |listeners| + 1, |portSet|, old(open) + bound);
          CloseAll(listeners);
          return false, map[], [];
        }
        Grown(m, listeners, p, l.value);
        listeners := listeners + [l.value];
        m := m[p := l.value];
        todo := todo - {p};
      }
      ok := true;
    }
  }

  class ContainerLifecycle {
    const host: Host
    var id: Option<nat>
    var preStartListeners: seq<Port>
    var bindings: map<nat, Port>   // what docker was given for the container `id`
    var up: bool                   // docker runs it

    constructor (host: Host)
      ensures this.host == host && id == None && preStartListeners == [] && bindings == map[] && !up
    {
      this.host, id, preStartListeners, bindings, up := host, None, [], map[], false;
    }

    /** `answer` is docker's reply to ContainerCreate: the id of a new container, or a refusal. */
    method CreateContainer(ports: set<nat>, offers: nat -> Option<Port>, answer: Option<nat>) returns (ok: bool)
      requires host.Unlocked()
      modifies this, host`open, host`writeLocked
      ensures host.Unlocked()
      ensures ok <==> Grants(offers, |ports|, old(host.open) + host.bound) && answer.Some?
      ensures ok ==> Taken(offers, preStartListeners)
      ensures ok ==> id == answer && answer.Some? && bindings.Keys == ports && !up
      ensures ok ==> Reservation(bindings, preStartListeners)
      ensures ok ==> host.open == old(host.open) + bindings.Values && bindings.Values !! old(host.open) + host.bound
      ensures !ok ==> host.open == old(host.open) && id == old(id) && bindings == old(bindings) && up == old(up)
      ensures !ok ==> preStartListeners == [] || preStartListeners == old(preStartListeners)
    {
      var pb, listeners;
      ok, pb, listeners := host.GeneratePortBindings(ports, offers);
      if !ok {
        return;
      }
      preStartListeners := listeners;
      if answer.None? {
        ghost var held := PortReservation.Ports(listeners);
        assert held == pb.Values;
        host.CloseAll(listeners);
        assert host.open == old(host.open) + held - held;
        preStartListeners := [];
        return false;
      }
      id, bindings, up := answer, pb, false;
    }

    /** `starts` is whether docker, finding the ports free, manages to start the container. Starting a
        running container again changes nothing, and without a container docker refuses. */
    method StartContainer(starts: bool) returns (ok: bool)
      requires host.Unlocked()
      modifies this`preStartListeners, this`up, host
      ensures host.Unlocked() && preStartListeners == []
      ensures host.open == old(host.open) - PortReservation.Ports(old(preStartListeners))
      ensures ok <==> id.Some? && starts && (old(up) || bindings.Values !! host.open + old(host.bound))
      ensures up == (ok || old(up))
      ensures host.bound == if ok && !old(up) then old(host.bound) + bindings.Values else old(host.bound)
    {
      host.readLocks := host.readLocks + 1;
      host.CloseAll(preStartListeners);
      preStartListeners := [];
      ok := id.Some? && starts && (up || bindings.Values !! host.open + host.bound);
      if ok && !up {
        host.bound := host.bound + bindings.Values;
        up := true;
      }
      host.readLocks := host.readLocks - 1;
    }
  }

  /** Created, then started: the container gets every port it was promised, and the host's
      listeners are as they were before. */
  method CreateThenStart(c: ContainerLifecycle, ports: set<nat>, offers: nat -> Option<Port>, answer: Option<nat>)
    returns (created: bool, started: bool)
    requires c.host.Unlocked()
    modifies c, c.host
    ensures created <==> Grants(offers, |ports|, old(c.host.open) + old(c.host.bound)) && answer.Some?
    ensures created ==> started && c.up && c.id == answer && c.bindings.Keys == ports && Injective(c.bindings)
    ensures created ==> c.host.bound == old(c.host.bound) + c.bindings.Values && c.bindings.Values !! old(c.host.bound)
    ensures c.host.open == old(c.host.open)
  {
    started := false;
    created := c.CreateContainer(ports, offers, answer);
    if created {
      started := c.StartContainer(true);
    }
  }
}
