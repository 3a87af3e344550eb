/**
 The setup builder (setup.go): chains, relayers and links are added one by one, a misuse panics, and
 the relayers' wallets are then generated.
*/
module SetupBuilder {
  import opened Outcomes
  import opened Sequences
  import opened Chains
  import opened SliceRemoval
  import opened HubRollApps

  datatype Relayer = Relayer(ref: nat)
  datatype RelayerPath = RelayerPath(relayer: Relayer, path: string)
  datatype Link = Link(first: Chain, second: Chain)
  datatype RelayerChain = RelayerChain(relayer: Relayer, chain: Chain)
  datatype Wallet = Wallet(owner: Chain, accountName: string)

  /** strings.Split(s, "-")[0]. */
  function FirstPart(s: string): string {
    if s == "" || s[0] == '-' then "" else [s[0]] + FirstPart(s[1..])
  }

  predicate IsRollApp(c: Chain) { FirstPart(c.kind) == "rollapp" }

  /** The ID a chain is registered under. */
  function SetupID(c: Chain): ChainID {
    if IsRollApp(c) then ChainID("ra_" + c.chainID.text) else c.chainID
  }

  /** The kinds of rollapps: "rollapp" itself, or anything behind "rollapp-". */
  lemma {:induction false} FirstPartIs(s: string, part: string)
    requires '-' !in part
    ensures FirstPart(s) == part <==> s == part || (|part| < |s| && s[..|part|] == part && s[|part|] == '-')
  {
    if s != "" && s[0] != '-' && part != "" {
      assert forall c :: c in part[1..] ==> c in part;
      FirstPartIs(s[1..], part[1..]);
      if s[0] == part[0] {
        assert s == [s[0]] + s[1..] && part == [part[0]] + part[1..];
        assert |part| < |s| ==> s[..|part|] == [s[0]] + s[1..][..|part| - 1];
      }
    }
  }

  /** Exactly the rollapps get a prefix of three letters, so a hub and a rollapp of one chain ID do not clash. */
  lemma SetupIDIs(c: Chain)
    ensures IsRollApp(c) <==> c.kind == "rollapp" || (|c.kind| > 7 && c.kind[..7] == "rollapp" && c.kind[7] == '-')
    ensures IsRollApp(c) ==> SetupID(c).text[..3] == "ra_" && SetupID(c).text[3..] == c.chainID.text
    ensures !IsRollApp(c) ==> SetupID(c) == c.chainID
  {
    FirstPartIs(c.kind, "rollapp");
  }

  lemma HubAndRollApp(hub: Chain, r: Chain)
    requires !IsRollApp(hub) && IsRollApp(r) && hub.chainID == r.chainID
    ensures SetupID(hub) != SetupID(r)
  {
    SetupIDIs(hub);
    SetupIDIs(r);
    assert |SetupID(r).text| == |SetupID(hub).text| + 3;
  }

  /** Rollapps registered under different IDs have different chain IDs. */
  lemma RollAppIDs(a: Chain, b: Chain)
    requires IsRollApp(a) && IsRollApp(b)
    ensures SetupID(a) == SetupID(b) <==> a.chainID == b.chainID
  {
    var x, y := "ra_" + a.chainID.text, "ra_" + b.chainID.text;
    assert x[3..] == a.chainID.text && y[3..] == b.chainID.text;
  }

  /** A new chain clashes with one that was added. */
  predicate Clash(c: Chain, d: Chain) {
    c == d || SetupID(c) == SetupID(d) || c.name == d.name
  }

  /** A chain that is there and clashes with none that was added. */
  ghost predicate Admits(taken: set<Chain>, c: Option<Chain>) {
    c.Some? && forall d :: d in taken ==> c.value != d && SetupID(c.value) != SetupID(d) && c.value.name != d.name
  }

  /** Adding the chains one after another never clashes. */
  ghost predicate Admissible(taken: set<Chain>, cs: seq<Option<Chain>>)
    decreases |cs|
  {
    cs != [] ==>
      && Admits(taken, cs[0])
      && Admissible(taken + {cs[0].value}, cs[1..])
  }

  lemma AdmitFirst(taken: set<Chain>, c: Option<Chain>, cs: seq<Option<Chain>>)
    ensures Admissible(taken, [c] + cs) <==> (
      && Admits(taken, c)
      && Admissible(taken + {c.value}, cs))
  {
    assert ([c] + cs)[1..] == cs;
  }

  lemma AdmitOne(taken: set<Chain>, cs: seq<Option<Chain>>, i: nat)
    requires i < |cs|
    ensures Admissible(taken, cs[i..]) <==> (
      && Admits(taken, cs[i])
      && Admissible(taken + {cs[i].value}, cs[i + 1..]))
  {
    assert cs[i..][1..] == cs[i + 1..];
  }

  /** What every sequence of builder calls keeps. */
  ghost predicate Sound(chains: map<Chain, ChainID>, relayers: map<Relayer, string>, links: map<RelayerPath, Link>) {
    && (forall c :: c in chains ==> chains[c] == SetupID(c))
    && (forall c, d :: c in chains && d in chains && c != d ==> SetupID(c) != SetupID(d) && c.name != d.name)
    && (forall r, q :: r in relayers && q in relayers && r != q ==> relayers[r] != relayers[q])
    && (forall p :: p in links ==>
          p.relayer in relayers && links[p].first in chains && links[p].second in chains && links[p].first != links[p].second)
  }

  class Setup {
    var chains: map<Chain, ChainID>
    var relayers: map<Relayer, string>
    var links: map<RelayerPath, Link>
    var relayerWallets: Option<map<RelayerChain, Wallet>>

    ghost predicate Valid()
      reads this
    {
      Sound(chains, relayers, links)
    }

    constructor ()
      ensures Valid() && chains == map[] && relayers == map[] && links == map[] && relayerWallets == None
    {
      chains, relayers, links, relayerWallets := map[], map[], map[], None;
    }

    /** `chain` is None for a nil chain. The loop over the map runs in any order. */
    method AddChain(chain: Option<Chain>) returns (panicked: bool)
      requires Valid()
      modifies this`chains
      ensures Valid()
      ensures panicked <==> !Admits(old(chains).Keys, chain)
      ensures chains == if panicked then old(chains) else old(chains)[chain.value := SetupID(chain.value)]
    {
      if chain.None? {
        return true;
      }
      var newID := SetupID(chain.value);
      var todo := chains.Keys;
      while todo != {}
        invariant todo <= chains.Keys
        invariant forall c :: c in chains && c !in todo ==> !Clash(chain.value, c)
        decreases todo
      {
        var c :| c in todo;
        if c == chain.value || chains[c] == newID || c.name == chain.value.name {
          return true;
        }
        todo := todo - {c};
      }
      chains := chains[chain.value := newID];
      panicked := false;
    }

    method AddRelayer(relayer: Option<Relayer>, name: string) returns (panicked: bool)
      requires Valid()
      modifies this`relayers
      ensures Valid()
      ensures panicked <==> relayer.None? || relayer.value in old(relayers) || name in old(relayers).Values
      ensures relayers == if panicked then old(relayers) else old(relayers)[relayer.value := name]
    {
      if relayer.None? {
        return true;
      }
      var todo := relayers.Keys;
      while todo != {}
        invariant todo <= relayers.Keys
        invariant forall r :: r in relayers && r !in todo ==> r != relayer.value && relayers[r] != name
        decreases todo
      {
        var r :| r in todo;
        if r == relayer.value || relayers[r] == name {
          return true;
        }
        todo := todo - {r};
      }
      relayers := relayers[relayer.value := name];
      panicked := false;
    }

    method AddLink(first: Chain, second: Chain, relayer: Relayer, path: string) returns (panicked: bool)
      requires Valid()
      modifies this`links
      ensures Valid()
      ensures panicked <==>
              first !in chains || second !in chains || relayer !in relayers || first == second
              || RelayerPath(relayer, path) in old(links)
      ensures links == if panicked then old(links) else old(links)[RelayerPath(relayer, path) := Link(first, second)]
    {
      if first !in chains || second !in chains || relayer !in relayers || first == second {
        return true;
      }
      var key := RelayerPath(relayer, path);
      if key in links {
        return true;
      }
      links := links[key := Link(first, second)];
      panicked := false;
    }

    /** The first i rollapps are in: the hub lists them behind `list`, the builder has them beside `keys`. */
    ghost predicate Adding(h: DymHub, rollApps: seq<Option<Chain>>, i: nat, added: seq<Chain>, list: seq<Chain>, keys: set<Chain>)
      reads this, h, h.backing
    {
      && Valid() && h.Valid() && i <= |rollApps|
      && (forall r :: r in rollApps[..i] ==> r.Some?) && added == Unwrapped(rollApps[..i]) && NoClashes(added)
      && h.RollApps() == list + added
      && chains.Keys == keys + Members(added)
      && (Admissible(keys, rollApps) <==> Admissible(chains.Keys, rollApps[i..]))
    }

    /** The body of the loop over rollapps: the hub takes it first. None is a chain that is no rollapp. */
    method AddRollApp(h: DymHub, rollApps: seq<Option<Chain>>, i: nat, ghost added: seq<Chain>, ghost list: seq<Chain>, ghost keys: set<Chain>)
      returns (panicked: bool)
      requires Adding(h, rollApps, i, added, list, keys) && i < |rollApps|
      modifies this`chains, h, h.backing
      ensures Valid() && h.Valid() && (h.backing == old(h.backing) || fresh(h.backing))
      ensures panicked ==> !Admissible(keys, rollApps)
      ensures !panicked ==> rollApps[i].Some? && Adding(h, rollApps, i + 1, added + [rollApps[i].value], list, keys)
    {
      ghost var taken := chains.Keys;
      AdmitOne(taken, rollApps, i);
      if rollApps[i].None? {
        return true;
      }
      h.SetRollApp(rollApps[i].value);
      panicked := AddChain(rollApps[i]);
      if !panicked {
        assert chains.Keys == taken + {rollApps[i].value};
        AddedSnoc(rollApps, i, added, list, taken);
      }
    }

    /** The loop over rollapps. A panic leaves behind what was added before it. */
    method AddRollApps(h: DymHub, rollApps: seq<Option<Chain>>) returns (panicked: bool)
      requires Valid() && h.Valid()
      modifies this`chains, h, h.backing
      ensures Valid() && h.Valid() && (h.backing == old(h.backing) || fresh(h.backing))
      ensures panicked <==> !Admissible(old(chains).Keys, rollApps)
      ensures !panicked ==> (forall r :: r in rollApps ==> r.Some?) && NoClashes(Unwrapped(rollApps))
      ensures !panicked ==> h.RollApps() == old(h.RollApps()) + Unwrapped(rollApps)
      ensures !panicked ==> chains.Keys == old(chains).Keys + Members(Unwrapped(rollApps))
    {
      ghost var keys, list := chains.Keys, h.RollApps();
      ghost var added: seq<Chain> := [];
      assert rollApps[0..] == rollApps && list + added == list && keys + Members(added) == keys;
      for i := 0 to |rollApps|
        invariant Adding(h, rollApps, i, added, list, keys) == true
        invariant h.backing == old(h.backing) || fresh(h.backing)
      {
        panicked := AddRollApp(h, rollApps, i, added, list, keys);
        if panicked {
          return;
        }
        added := added + [rollApps[i].value];
      }
      assert rollApps[..|rollApps|] == rollApps;
      panicked := false;
    }

    /** `hub` is None for a chain that is not a hub. */
    method AddRollUp(hub: Option<DymHub>, hubChain: Chain, rollApps: seq<Option<Chain>>) returns (panicked: bool)
      requires Valid() && (hub.Some? ==> hub.value.Valid())
      modifies this`chains
      modifies if hub.Some? then {hub.value, hub.value.backing} else {}
      ensures Valid() && (hub.Some? ==> hub.value.Valid())
      ensures hub.Some? ==> hub.value.backing == old(hub.value.backing) || fresh(hub.value.backing)
      ensures panicked <==> hub.None? || !Admissible(old(chains).Keys, [Some(hubChain)] + rollApps)
      ensures !panicked ==> hub.Some? && (forall r :: r in rollApps ==> r.Some?) && NoClashes(Unwrapped(rollApps))
      ensures !panicked ==> hub.value.RollApps() == old(hub.value.RollApps()) + Unwrapped(rollApps)
      ensures !panicked ==> chains.Keys == old(chains).Keys + {hubChain} + Members(Unwrapped(rollApps))
    {
      if hub.None? {
        return true;
      }
      AdmitFirst(chains.Keys, Some(hubChain), rollApps);
      panicked := AddChain(Some(hubChain));
      if panicked {
        return;
      }
      assert chains.Keys == old(chains).Keys + {hubChain};
      panicked := AddRollApps(hub.value, rollApps);
    }

    /** The chains each linked relayer connects, in any order but without repetition. */
    method RelayerChains() returns (out: map<Relayer, seq<Chain>>)
      ensures forall r :: r in out ==> NoRepeats(out[r])
      ensures forall r, c :: RelayerChain(r, c) in Pairs(links, links.Keys) <==> r in out && c in out[r]
      ensures JoinsEnds(links, out)
    {
      var uniq: map<Relayer, set<Chain>> := map[];
      var todo := links.Keys;
      while todo != {}
        invariant todo <= links.Keys && Collected(uniq, Pairs(links, links.Keys - todo)) == true
        decreases todo
      {
        var rp :| rp in todo;
        var r, link := rp.relayer, links[rp];
        OneMoreLink(links, links.Keys - todo, rp);
        CollectedMore(uniq, Pairs(links, links.Keys - todo), r, link);
        assert links.Keys - todo + {rp} == links.Keys - (todo - {rp});
        if r !in uniq {
          uniq := uniq[r := {}];
        }
        uniq := uniq[r := uniq[r] + {link.first, link.second}];
        todo := todo - {rp};
      }
      assert links.Keys - todo == links.Keys;
      out := ToSlices(uniq);
      EndsJoined(links, out);
    }

    /** The wallets built so far belong to linked pairs and carry their account names. */
    ghost predicate Built(pairs: set<RelayerChain>)
      reads this
    {
      && relayerWallets.Some? && relayerWallets.value.Keys <= pairs
      && forall rc :: rc in relayerWallets.value ==>
           && rc.relayer in relayers && rc.chain in chains
           && relayerWallets.value[rc] == Wallet(rc.chain, AccountName(relayers[rc.relayer], chains[rc.chain]))
    }

    /** The inner loop: one relayer's wallets. `fails(k)` says whether the k-th BuildRelayerWallet call does. */
    method BuildWallets(r: Relayer, cs: seq<Chain>, ghost pairs: set<RelayerChain>, fails: nat -> bool, call: nat)
      returns (err: bool, next: nat)
      requires Built(pairs)
      requires forall c :: c in cs ==> r in relayers && c in chains && RelayerChain(r, c) in pairs
      modifies this`relayerWallets
      ensures Built(pairs) && old(relayerWallets).value.Keys <= relayerWallets.value.Keys
      ensures !err ==> forall c :: c in cs ==> RelayerChain(r, c) in relayerWallets.value
      ensures err <==> call <= next < call + |cs| && fails(next)
    {
      next := call;
      for i := 0 to |cs|
        invariant next == call + i && Built(pairs) && old(relayerWallets).value.Keys <= relayerWallets.value.Keys
        invariant forall k :: 0 <= k < i ==> RelayerChain(r, cs[k]) in relayerWallets.value
      {
        assert cs[i] in cs;
        if fails(next) {
          return true, next;
        }
        var wallet := Wallet(cs[i], AccountName(relayers[r], chains[cs[i]]));
        relayerWallets := Some(relayerWallets.value[RelayerChain(r, cs[i]) := wallet]);
        next := next + 1;
      }
      err := false;
    }

    /** The outer loop: every relayer's wallets. */
    method BuildAllWallets(byRelayer: map<Relayer, seq<Chain>>, ghost pairs: set<RelayerChain>, fails: nat -> bool)
      returns (err: bool)
      requires Built(pairs) && forall rc :: rc in pairs ==> rc.relayer in relayers && rc.chain in chains
      requires forall r, c :: RelayerChain(r, c) in pairs <==> r in byRelayer && c in byRelayer[r]
      modifies this`relayerWallets
      ensures Built(pairs) && (!err ==> relayerWallets.value.Keys == pairs)
      ensures err ==> exists k: nat :: fails(k)
    {
      var todo, calls := byRelayer.Keys, 0;
      assert forall rc :: rc in pairs ==> rc == RelayerChain(rc.relayer, rc.chain);
      while todo != {}
        invariant todo <= byRelayer.Keys && Built(pairs)
        invariant forall rc :: rc in pairs && rc.relayer !in todo ==> rc in relayerWallets.value
        decreases todo
      {
        var r :| r in todo;
        assert forall c :: c in byRelayer[r] ==> RelayerChain(r, c) in pairs;
        err, calls := BuildWallets(r, byRelayer[r], pairs, fails, calls);
        if err {
          return;
        }
        todo := todo - {r};
      }
      err := false;
    }

    /** On an error the wallets built so far stay, so that a second call panics as well. */
    method GenerateRelayerWallets(fails: nat -> bool) returns (panicked: bool, err: bool)
      requires Valid()
      modifies this`relayerWallets
      ensures panicked <==> old(relayerWallets).Some?
      ensures panicked ==> relayerWallets == old(relayerWallets) && !err
      ensures !panicked ==> Built(Pairs(links, links.Keys))
      ensures !panicked && !err ==> relayerWallets.value.Keys == Pairs(links, links.Keys)
      ensures !panicked && !err ==> forall p :: p in links ==>
                && RelayerChain(p.relayer, links[p].first) in relayerWallets.value
                && RelayerChain(p.relayer, links[p].second) in relayerWallets.value
      ensures !panicked ==> forall rc :: rc in relayerWallets.value ==> Links(links, rc.relayer, rc.chain)
      ensures err ==> exists k: nat :: fails(k)
    {
      if relayerWallets.Some? {
        return true, false;
      }
      var byRelayer := RelayerChains();
      PairsAdded(links, chains, relayers);
      PairsExactly(links);
      relayerWallets := Some(map[]);
      err := BuildAllWallets(byRelayer, Pairs(links, links.Keys), fails);
      assert forall rc :: rc in relayerWallets.value ==> rc == RelayerChain(rc.relayer, rc.chain);
      panicked := false;
    }
  }

  /** Rollapps that all came in through one AddRollUp are removed exactly. */
  method RollUpThenRemove(s: Setup, hub: DymHub, hubChain: Chain, rollApps: seq<Option<Chain>>, id: ChainID)
    returns (refused: bool, panicked: bool)
    requires s.Valid() && hub.Valid() && hub.RollApps() == []
    modifies s`chains, hub, hub.backing
    ensures !refused ==> forall r :: r in rollApps ==> r.Some?
    ensures !refused && AllRollApps(Unwrapped(rollApps)) ==>
              !panicked && hub.Valid() && hub.RollApps() == Without(Unwrapped(rollApps), 0, id)
  {
    refused := s.AddRollUp(Some(hub), hubChain, rollApps);
    if refused {
      return true, false;
    }
    NoClashesDistinct(Unwrapped(rollApps));
    ghost var all := hub.RollApps();
    assert all == Unwrapped(rollApps);
    if AllRollApps(all) {
      DistinctIDsRemoveExactly(all, id);
    }
    panicked := hub.RemoveRollApp(id);
  }

  ghost predicate AllRollApps(cs: seq<Chain>) {
    forall c :: c in cs ==> IsRollApp(c)
  }

  /** The relayer-chain pairs that the given links join. */
  function Pairs(links: map<RelayerPath, Link>, paths: set<RelayerPath>): set<RelayerChain> {
    (set p | p in paths && p in links :: RelayerChain(p.relayer, links[p].first))
    + (set p | p in paths && p in links :: RelayerChain(p.relayer, links[p].second))
  }

  /** Some link of the relayer ends at the chain. */
  ghost predicate Links(links: map<RelayerPath, Link>, r: Relayer, c: Chain) {
    exists p :: p in links && p.relayer == r && (links[p].first == c || links[p].second == c)
  }

  /** Each relayer is given both ends of all its links, and nothing else. */
  ghost predicate JoinsEnds(links: map<RelayerPath, Link>, out: map<Relayer, seq<Chain>>) {
    && (forall p :: p in links ==>
          p.relayer in out && links[p].first in out[p.relayer] && links[p].second in out[p.relayer])
    && (forall r, c :: r in out && c in out[r] ==> Links(links, r, c))
  }

  lemma EndsJoined(links: map<RelayerPath, Link>, out: map<Relayer, seq<Chain>>)
    requires forall r, c :: RelayerChain(r, c) in Pairs(links, links.Keys) <==> r in out && c in out[r]
    ensures JoinsEnds(links, out)
  {
    PairsExactly(links);
  }

  /** The pairs are both ends of every link, and nothing else. */
  lemma PairsExactly(links: map<RelayerPath, Link>)
    ensures forall p :: p in links ==>
              && RelayerChain(p.relayer, links[p].first) in Pairs(links, links.Keys)
              && RelayerChain(p.relayer, links[p].second) in Pairs(links, links.Keys)
    ensures forall r, c :: RelayerChain(r, c) in Pairs(links, links.Keys) ==> Links(links, r, c)
  {
  }

  lemma OneMoreLink(links: map<RelayerPath, Link>, paths: set<RelayerPath>, p: RelayerPath)
    requires p in links
    ensures Pairs(links, paths + {p})
      == Pairs(links, paths) + {RelayerChain(p.relayer, links[p].first), RelayerChain(p.relayer, links[p].second)}
  {
  }

  lemma PairsAdded(links: map<RelayerPath, Link>, chains: map<Chain, ChainID>, relayers: map<Relayer, string>)
    requires Sound(chains, relayers, links)
    ensures forall rc :: rc in Pairs(links, links.Keys) ==> rc.relayer in relayers && rc.chain in chains
  {
  }

  /** Appending the elements of a Go map used as a set. */
  method ToSlice(chainSet: set<Chain>) returns (cs: seq<Chain>)
    ensures NoRepeats(cs) && forall c :: c in cs <==> c in chainSet
  {
    cs := [];
    var todo := chainSet;
    while todo != {}
      invariant todo <= chainSet && NoRepeats(cs)
      invariant forall c :: c in cs <==> c in chainSet && c !in todo
      decreases todo
    {
      var c :| c in todo;
      cs := cs + [c];
      todo := todo - {c};
    }
  }

  /** The nested maps hold exactly the given pairs. */
  ghost predicate Collected(uniq: map<Relayer, set<Chain>>, pairs: set<RelayerChain>) {
    forall r, c :: RelayerChain(r, c) in pairs <==> r in uniq && c in uniq[r]
  }

  lemma CollectedMore(uniq: map<Relayer, set<Chain>>, pairs: set<RelayerChain>, r: Relayer, link: Link)
    requires Collected(uniq, pairs)
    ensures var ends := {link.first, link.second};
      Collected(uniq[r := if r in uniq then uniq[r] + ends else {} + ends],
                pairs + {RelayerChain(r, link.first), RelayerChain(r, link.second)})
  {
  }

  /** The second loop: every set becomes a slice. */
  method ToSlices(uniq: map<Relayer, set<Chain>>) returns (out: map<Relayer, seq<Chain>>)
    ensures out.Keys == uniq.Keys
    ensures forall r :: r in out ==> NoRepeats(out[r]) && forall c :: c in out[r] <==> c in uniq[r]
  {
    out := map[];
    var left := uniq.Keys;
    while left != {}
      invariant left <= uniq.Keys && out.Keys == uniq.Keys - left
      invariant forall r :: r in out ==> NoRepeats(out[r]) && forall c :: c in out[r] <==> c in uniq[r]
      decreases left
    {
      var r :| r in left;
      var chainList := ToSlice(uniq[r]);
      out := out[r := chainList];
      left := left - {r};
    }
  }

  function AccountName(relayerName: string, setupID: ChainID): string {
    relayerName + "-" + setupID.text
  }

  /** The relayer's name, a dash, and the chain's registered ID. */
  lemma AccountNameIs(relayerName: string, setupID: ChainID)
    ensures var t, n := AccountName(relayerName, setupID), |relayerName|;
      |t| == n + 1 + |setupID.text| && t[..n] == relayerName && t[n] == '-' && t[n + 1..] == setupID.text
  {
  }

  lemma AccountNameInjective(a: string, b: string, setupID: ChainID)
    requires AccountName(a, setupID) == AccountName(b, setupID)
    ensures a == b
  {
    var x, y := AccountName(a, setupID), AccountName(b, setupID);
    assert |a| == |b|;
    assert x[..|a|] == a && y[..|b|] == b;
  }

  /** Two relayers never share an account name on one chain, so no key overwrites another. */
  lemma AccountNamesDistinct(s: Setup, r: Relayer, q: Relayer, c: Chain)
    requires s.Valid() && r in s.relayers && q in s.relayers && c in s.chains && r != q
    ensures AccountName(s.relayers[r], s.chains[c]) != AccountName(s.relayers[q], s.chains[c])
  {
    if AccountName(s.relayers[r], s.chains[c]) == AccountName(s.relayers[q], s.chains[c]) {
      AccountNameInjective(s.relayers[r], s.relayers[q], s.chains[c]);
    }
  }

  function Members(cs: seq<Chain>): set<Chain> { set c | c in cs }

  lemma MembersSnoc(cs: seq<Chain>, c: Chain)
    ensures Members(cs + [c]) == Members(cs) + {c}
  {
  }

  ghost predicate NoClashes(cs: seq<Chain>) {
    forall i, j :: 0 <= i < j < |cs| ==> !Clash(cs[j], cs[i])
  }

  lemma NoClashesSnoc(cs: seq<Chain>, c: Chain)
    requires NoClashes(cs) && forall d :: d in cs ==> !Clash(c, d)
    ensures NoClashes(cs + [c])
  {
  }

  /** One more rollapp added, none of the earlier ones clashing with it. */
  lemma AddedSnoc(rollApps: seq<Option<Chain>>, i: nat, added: seq<Chain>, list: seq<Chain>, taken: set<Chain>)
    requires i < |rollApps| && rollApps[i].Some? && forall r :: r in rollApps[..i] ==> r.Some?
    requires added == Unwrapped(rollApps[..i]) && NoClashes(added)
    requires Members(added) <= taken && Admits(taken, rollApps[i])
    ensures var more := added + [rollApps[i].value];
      && (forall r :: r in rollApps[..i + 1] ==> r.Some?) && more == Unwrapped(rollApps[..i + 1])
      && NoClashes(more) && Members(more) == Members(added) + {rollApps[i].value}
      && list + more == list + added + [rollApps[i].value]
  {
    UnwrappedSnoc(rollApps, i);
    assert forall d :: d in added ==> d in Members(added);
    NoClashesSnoc(added, rollApps[i].value);
    MembersSnoc(added, rollApps[i].value);
  }

  lemma NoClashesDistinct(cs: seq<Chain>)
    requires NoClashes(cs)
    ensures AllRollApps(cs) ==> DistinctIDs(cs)
  {
    forall i, j | 0 <= i < j < |cs| && IsRollApp(cs[i]) && IsRollApp(cs[j]) ensures cs[i].chainID != cs[j].chainID {
      RollAppIDs(cs[j], cs[i]);
      assert !Clash(cs[j], cs[i]);
    }
  }

  function Unwrapped(rollApps: seq<Option<Chain>>): seq<Chain>
    requires forall r :: r in rollApps ==> r.Some?
  {
    seq(|rollApps|, i requires 0 <= i < |rollApps| => rollApps[i].value)
  }

  lemma UnwrappedSnoc(rollApps: seq<Option<Chain>>, i: nat)
    requires i < |rollApps| && rollApps[i].Some? && forall r :: r in rollApps[..i] ==> r.Some?
    ensures forall r :: r in rollApps[..i + 1] ==> r.Some?
    ensures Unwrapped(rollApps[..i + 1]) == Unwrapped(rollApps[..i]) + [rollApps[i].value]
  {
  }
}
