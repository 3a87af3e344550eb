/**
 Recursive TOML overrides (testutil/toml.go): modifications merged in place into a decoded
 configuration, a tree of Go maps.
*/
module TomlMerge {
  import opened Outcomes

  /** A modification: nested `Toml` maps, anything else is a leaf. */
  datatype Mod<L> = Set(leaf: L) | Sub(entries: map<string, Mod<L>>)

  /** What a configuration represents: leaves and sections. */
  datatype Tree<L> = Leaf(leaf: L) | Node(entries: map<string, Tree<L>>)

  /* ---------- the merge on values ---------- */

  /** Nothing stops the merge: every section it descends into exists and is a section. A missing one
      is created as a `Toml`, which the assertion to map[string]any that follows rejects. */
  ghost predicate Mergeable<L>(c: Tree<L>, m: Mod<L>)
    decreases m
  {
    m.Sub? ==> c.Node? && forall k :: k in m.entries && m.entries[k].Sub? ==>
      k in c.entries && Mergeable(c.entries[k], m.entries[k])
  }

  /** The configuration after a merge that returned without error. */
  ghost function Merged<L>(c: Tree<L>, m: Mod<L>): (t: Tree<L>)
    requires m.Sub? && Mergeable(c, m)
    ensures t.Node?
    decreases m
  {
    Node(map k | k in c.entries.Keys + m.entries.Keys ::
      if k !in m.entries then c.entries[k]
      else if m.entries[k].Set? then Leaf(m.entries[k].leaf)
      else Merged(c.entries[k], m.entries[k]))
  }

  function Lookup<L>(t: Tree<L>, path: seq<string>): Option<Tree<L>> {
    if path == [] then Some(t)
    else if t.Node? && path[0] in t.entries then Lookup(t.entries[path[0]], path[1..])
    else None
  }

  /** How a path meets a modification. */
  datatype Touch<L> = Untouched | Overridden(leaf: L) | BelowOverride | Opened

  function TouchOf<L>(m: Mod<L>, path: seq<string>): Touch<L> {
    if path == [] then (if m.Set? then Overridden(m.leaf) else Opened)
    else if m.Set? then BelowOverride
    else if path[0] !in m.entries then Untouched
    else TouchOf(m.entries[path[0]], path[1..])
  }

  /** Every path of the result: a leaf of the modification has the modification's value and nothing
      below it, a path the modification does not touch is as before, the rest are sections. */
  lemma {:induction false} MergePathByPath<L>(c: Tree<L>, m: Mod<L>, path: seq<string>)
    requires m.Sub? && Mergeable(c, m)
    ensures match TouchOf(m, path)
      case Untouched => Lookup(Merged(c, m), path) == Lookup(c, path)
      case Overridden(leaf) => Lookup(Merged(c, m), path) == Some(Leaf(leaf))
      case BelowOverride => Lookup(Merged(c, m), path) == None
      case Opened => Lookup(Merged(c, m), path).Some? && Lookup(Merged(c, m), path).value.Node?
    decreases m
  {
    if path != [] && path[0] in m.entries {
      var k := path[0];
      assert TouchOf(m, path) == TouchOf(m.entries[k], path[1..]);
      if m.entries[k].Sub? {
        assert Lookup(Merged(c, m), path) == Lookup(Merged(c.entries[k], m.entries[k]), path[1..]);
        MergePathByPath(c.entries[k], m.entries[k], path[1..]);
      } else {
        assert Lookup(Merged(c, m), path) == Lookup(Leaf(m.entries[k].leaf), path[1..]);
      }
    }
  }

  /** Applying the same modification again is possible and changes nothing. */
  lemma {:induction false} MergeIsIdempotent<L>(c: Tree<L>, m: Mod<L>)
    requires m.Sub? && Mergeable(c, m)
    ensures Mergeable(Merged(c, m), m) && Merged(Merged(c, m), m) == Merged(c, m)
    decreases m
  {
    forall k | k in m.entries && m.entries[k].Sub?
      ensures Mergeable(Merged(c, m).entries[k], m.entries[k])
      ensures Merged(Merged(c, m).entries[k], m.entries[k]) == Merged(c, m).entries[k]
    {
      MergeIsIdempotent(c.entries[k], m.entries[k]);
    }
  }

  /** The path leads to a section of the configuration. */
  predicate HasSection<L>(c: Tree<L>, path: seq<string>) {
    Lookup(c, path).Some? && Lookup(c, path).value.Node?
  }

  ghost predicate SectionsExist<L>(c: Tree<L>, m: Mod<L>) {
    forall path :: TouchOf(m, path) == Opened ==> HasSection(c, path)
  }

  lemma {:induction false} OpenedExists<L>(c: Tree<L>, m: Mod<L>, path: seq<string>)
    requires Mergeable(c, m) && TouchOf(m, path) == Opened
    ensures HasSection(c, path)
  {
    if path != [] {
      OpenedExists(c.entries[path[0]], m.entries[path[0]], path[1..]);
    }
  }

  lemma OneLevelDown<L>(c: Tree<L>, m: Mod<L>, k: string, path: seq<string>)
    requires m.Sub? && k in m.entries && c.Node? && k in c.entries
    ensures TouchOf(m, [k] + path) == TouchOf(m.entries[k], path)
    ensures HasSection(c, [k] + path) <==> HasSection(c.entries[k], path)
  {
    assert ([k] + path)[1..] == path;
  }

  lemma {:induction false} AllExist<L>(c: Tree<L>, m: Mod<L>)
    requires SectionsExist(c, m)
    ensures Mergeable(c, m)
    decreases m
  {
    if m.Sub? {
      assert TouchOf(m, []) == Opened && HasSection(c, []);
      forall k | k in m.entries && m.entries[k].Sub? ensures k in c.entries && Mergeable(c.entries[k], m.entries[k]) {
        assert [k][1..] == [] && TouchOf(m, [k]) == TouchOf(m.entries[k], []) == Opened;
        assert HasSection(c, [k]);
        forall path | TouchOf(m.entries[k], path) == Opened ensures HasSection(c.entries[k], path) {
          OneLevelDown(c, m, k, path);
          assert HasSection(c, [k] + path);
        }
        AllExist(c.entries[k], m.entries[k]);
      }
    }
  }

  /** The merge succeeds exactly when every section the modification opens is a section of the
      configuration already. The comment promises that a missing one is populated afresh. */
  lemma MergeableExactly<L>(c: Tree<L>, m: Mod<L>)
    ensures Mergeable(c, m) <==> SectionsExist(c, m)
  {
    if Mergeable(c, m) {
      forall path | TouchOf(m, path) == Opened ensures HasSection(c, path) {
        OpenedExists(c, m, path);
      }
    }
    if SectionsExist(c, m) {
      AllExist(c, m);
    }
  }

  /** The smallest case in which it does not: one new, empty section. */
  lemma FreshSectionFails<L>(k: string)
    ensures !Mergeable<L>(Node(map[]), Sub(map[k := Sub(map[])]))
  {
    var m: Mod<L> := Sub(map[k := Sub(map[])]);
    assert m.entries[k].Sub?;
  }

  /* ---------- the merge in place ---------- */

  datatype Value<L> = Scalar(leaf: L) | Table(section: Section<L>)

  /** A Go map[string]any of the decoded configuration. */
  class Section<L> {
    var entries: map<string, Value<L>>
    ghost var repr: set<Section<L>>

    ghost predicate Valid()
      reads this, repr
      ensures Valid() ==> this in repr
      decreases repr
    {
      && this in repr
      && (forall k | k in entries && entries[k].Table? ::
            && entries[k].section in repr && entries[k].section.repr <= repr - {this}
            && entries[k].section.Valid())
      && (forall j, k | j in entries && k in entries && j != k && entries[j].Table? && entries[k].Table? ::
            entries[j].section.repr !! entries[k].section.repr)
    }

    ghost function ToTree(): (t: Tree<L>)
      requires Valid()
      reads this, repr
      ensures t.Node? && t.entries.Keys == entries.Keys
      decreases repr
    {
      Node(map k | k in entries :: ValueTree(k))
    }

    ghost function ValueTree(k: string): Tree<L>
      requires Valid() && k in entries
      reads this, repr
      decreases repr, 0
    {
      match entries[k]
      case Scalar(leaf) => Leaf(leaf)
      case Table(section) => section.ToTree()
    }

    constructor ()
      ensures Valid() && ToTree() == Node(map[])
    {
      entries := map[];
      repr := {this};
    }
  }

  ghost function Restricted<L>(m: Mod<L>, keys: set<string>): Mod<L>
    requires m.Sub? && keys <= m.entries.Keys
  {
    Sub(map k | k in keys :: m.entries[k])
  }

  /** What one key of a modification makes of its entry, None when the merge cannot go on. */
  ghost function MergedEntry<L>(c: Tree<L>, k: string, m: Mod<L>): Option<Tree<L>>
    requires c.Node?
  {
    if m.Set? then Some(Leaf(m.leaf))
    else if k in c.entries && Mergeable(c.entries[k], m) then Some(Merged(c.entries[k], m))
    else None
  }

  /** One more key of the modification, merged on its own. */
  lemma MergeOneMore<L>(c: Tree<L>, m: Mod<L>, done: set<string>, k: string)
    requires m.Sub? && done <= m.entries.Keys && k in m.entries && k !in done
    requires c.Node? && Mergeable(c, Restricted(m, done))
    requires MergedEntry(c, k, m.entries[k]).Some?
    ensures Mergeable(c, Restricted(m, done + {k}))
    ensures Merged(c, Restricted(m, done + {k})).entries
         == Merged(c, Restricted(m, done)).entries[k := MergedEntry(c, k, m.entries[k]).value]
  {
  }

  lemma AllKeys<L>(m: Mod<L>)
    requires m.Sub?
    ensures Restricted(m, m.entries.Keys) == m
  {
    assert Restricted(m, m.entries.Keys).entries == m.entries;
  }

  lemma NoKeys<L>(c: Tree<L>, m: Mod<L>)
    requires m.Sub? && c.Node?
    ensures Mergeable(c, Restricted(m, {})) && Merged(c, Restricted(m, {})) == c
  {
    assert Merged(c, Restricted(m, {})).entries == c.entries;
  }

  /** The loop body: one key of the modification. */
  method MergeEntry<L>(c: Section<L>, k: string, m: Mod<L>) returns (ok: bool)
    requires c.Valid()
    modifies c.repr`entries
    ensures c.Valid()
    ensures ok <==> MergedEntry(old(c.ToTree()), k, m).Some?
    ensures ok ==> c.ToTree().entries == old(c.ToTree().entries)[k := MergedEntry(old(c.ToTree()), k, m).value]
    decreases m, 1
  {
    if m.Set? {
      c.entries := c.entries[k := Scalar(m.leaf)];
      return true;
    }
    if k !in c.entries || c.entries[k].Scalar? {
      return false;
    }
    ok := RecursiveModifyToml(c.entries[k].section, m);
  }

  /**
   recursiveModifyToml. Keys are visited in whatever order the iteration picks, at every depth;
   the outcome is fixed by the contents alone.
  */
  method RecursiveModifyToml<L>(c: Section<L>, m: Mod<L>) returns (ok: bool)
    requires c.Valid() && m.Sub?
    modifies c.repr`entries
    ensures c.Valid()
    ensures ok <==> Mergeable(old(c.ToTree()), m)
    ensures ok ==> c.ToTree() == Merged(old(c.ToTree()), m)
    decreases m, 0
  {
    ghost var before := c.ToTree();
    ghost var done: set<string> := {};
    var todo := m.entries.Keys;
    NoKeys(before, m);
    while todo != {}
      invariant todo + done == m.entries.Keys && todo !! done
      invariant c.Valid()
      invariant Mergeable(before, Restricted(m, done))
      invariant c.ToTree() == Merged(before, Restricted(m, done))
      decreases todo
    {
      var k :| k in todo;
      ok := MergeEntry(c, k, m.entries[k]);
      if !ok {
        return;
      }
      MergeOneMore(before, m, done, k);
      todo, done := todo - {k}, done + {k};
    }
    AllKeys(m);
    ok := true;
  }
}
