/** The filter panel's lists (src/components/panels/FiltersPanel.tsx): the
    owners and types offered, derived from the nodes, and the two selection
    lists the check boxes toggle. */
module FiltersPanel {
  import opened Collections
  import opened Topology

  /** A node's owner when it is truthy: present and non-empty. */
  function TruthyOwner(n: NetworkNode): Option<string> {
    if n.owner.Some? && n.owner.value != "" then n.owner else None
  }

  /** `owners`: the distinct truthy owners, in first-occurrence order. */
  function Owners(nodes: seq<NetworkNode>): seq<string> {
    Distinct(FilterMap(nodes, TruthyOwner))
  }

  /** The type of each node, in node order. */
  function TypesOf(nodes: seq<NetworkNode>): (r: seq<string>)
    ensures |r| == |nodes| && forall i :: 0 <= i < |nodes| ==> r[i] == nodes[i].nodeType
  {
    seq(|nodes|, i requires 0 <= i < |nodes| => nodes[i].nodeType)
  }

  /** `types`: the distinct node types, in first-occurrence order. */
  function Types(nodes: seq<NetworkNode>): seq<string> {
    Distinct(TypesOf(nodes))
  }

  /** The owners offered are each listed once, are exactly the non-empty
      owners some node has, and come in the order of their first node. */
  lemma OwnersSpec(nodes: seq<NetworkNode>)
    ensures NoDuplicates(Owners(nodes))
    ensures forall o :: o in Owners(nodes) <==>
      o != "" && exists i :: 0 <= i < |nodes| && nodes[i].owner == Some(o)
    ensures forall o :: o in Owners(nodes) <==> o in FilterMap(nodes, TruthyOwner)
    ensures forall i, j :: 0 <= i < j < |Owners(nodes)| ==>
      FirstIndex(FilterMap(nodes, TruthyOwner), Owners(nodes)[i]) <
      FirstIndex(FilterMap(nodes, TruthyOwner), Owners(nodes)[j])
  {
    var owned := FilterMap(nodes, TruthyOwner);
    DistinctSpec(owned);
    forall o
      ensures o in owned <==> o != "" && exists i :: 0 <= i < |nodes| && nodes[i].owner == Some(o)
    {
      FilterMapMembership(nodes, TruthyOwner, o);
      if o in owned {
        var n :| n in nodes && TruthyOwner(n) == Some(o);
        var i :| 0 <= i < |nodes| && nodes[i] == n;
      }
      if o != "" && exists i :: 0 <= i < |nodes| && nodes[i].owner == Some(o) {
        var i :| 0 <= i < |nodes| && nodes[i].owner == Some(o);
        assert nodes[i] in nodes && TruthyOwner(nodes[i]) == Some(o);
      }
    }
  }

  /** The types offered are each listed once, are exactly the types some
      node has, and come in the order of their first node. */
  lemma TypesSpec(nodes: seq<NetworkNode>)
    ensures NoDuplicates(Types(nodes))
    ensures forall t :: t in Types(nodes) <==> exists i :: 0 <= i < |nodes| && nodes[i].nodeType == t
    ensures forall t :: t in Types(nodes) <==> t in TypesOf(nodes)
    ensures forall i, j :: 0 <= i < j < |Types(nodes)| ==>
      FirstIndex(TypesOf(nodes), Types(nodes)[i]) < FirstIndex(TypesOf(nodes), Types(nodes)[j])
  {
    DistinctSpec(TypesOf(nodes));
    forall t | t in TypesOf(nodes)
      ensures exists i :: 0 <= i < |nodes| && nodes[i].nodeType == t
    {
      var i :| 0 <= i < |nodes| && TypesOf(nodes)[i] == t;
    }
    forall t | exists i :: 0 <= i < |nodes| && nodes[i].nodeType == t
      ensures t in TypesOf(nodes)
    {
      var i :| 0 <= i < |nodes| && nodes[i].nodeType == t;
      assert TypesOf(nodes)[i] == t;
    }
  }

  // -----------------------------------------------------------------------
  // Selections

  /** `toggleOwner`/`toggleType`: drop every occurrence of a listed value,
      or append an unlisted one. */
  function Toggle(list: seq<string>, v: string): seq<string> {
    if v in list then Filter(list, (x: string) => x != v) else list + [v]
  }

  /** A toggle flips the membership of the toggled value and of no other. */
  lemma ToggleMembership(list: seq<string>, v: string, x: string)
    ensures x in Toggle(list, v) <==> if x == v then v !in list else x in list
  {
    FilterMembership(list, (y: string) => y != v, x);
  }

  /** A toggle keeps a list free of duplicates. */
  lemma ToggleNoDuplicates(list: seq<string>, v: string)
    requires NoDuplicates(list)
    ensures NoDuplicates(Toggle(list, v))
  {
    if v in list {
      FilterNoDuplicates(list, (x: string) => x != v);
    }
  }

  /** Toggling an unlisted value twice gives the list back. */
  lemma ToggleTwice(list: seq<string>, v: string)
    requires v !in list
    ensures Toggle(Toggle(list, v), v) == list
  {
    var p := (x: string) => x != v;
    FilterAppend(list, [v], p);
    FilterKeepsAll(list, p);
    assert Filter([v], p) == [];
  }

  /** Toggling a listed value removes it and keeps the others in order. */
  lemma ToggleRemoves(list: seq<string>, v: string)
    requires v in list
    ensures v !in Toggle(list, v)
    ensures Toggle(list, v) == Filter(list, (x: string) => x != v)
    ensures |Toggle(list, v)| < |list|
  {
    var p := (x: string) => x != v;
    FilterMembership(list, p, v);
    FilterMultiset(list, p, v);
    assert multiset(list)[v] > 0;
    FilterSmaller(list, p, v);
  }

  lemma {:induction false} FilterSmaller(list: seq<string>, p: string -> bool, v: string)
    requires v in list && !p(v)
    ensures |Filter(list, p)| < |list|
  {
    var init := list[..|list| - 1];
    if list[|list| - 1] != v {
      assert v in init by {
        var k :| 0 <= k < |list| && list[k] == v;
        assert init[k] == v;
      }
      FilterSmaller(init, p, v);
    }
  }

  /** The two selection lists. */
  class FilterSelection {
    var selectedOwners: seq<string>
    var selectedTypes: seq<string>

    constructor ()
      ensures selectedOwners == [] && selectedTypes == []
    {
      selectedOwners := [];
      selectedTypes := [];
    }

    /** The number on the closed panel's button. */
    function Badge(): nat
      reads this
    {
      |selectedOwners| + |selectedTypes|
    }

    /** Whether the clear button is shown. */
    predicate ShowsClear()
      reads this
    {
      |selectedOwners| > 0 || |selectedTypes| > 0
    }

    method ToggleOwner(owner: string)
      modifies this
      ensures selectedOwners == Toggle(old(selectedOwners), owner)
      ensures selectedTypes == old(selectedTypes)
    {
      if owner in selectedOwners {
        selectedOwners := Filter(selectedOwners, (o: string) => o != owner);
      } else {
        selectedOwners := selectedOwners + [owner];
      }
    }

    method ToggleType(nodeType: string)
      modifies this
      ensures selectedTypes == Toggle(old(selectedTypes), nodeType)
      ensures selectedOwners == old(selectedOwners)
    {
      if nodeType in selectedTypes {
        selectedTypes := Filter(selectedTypes, (t: string) => t != nodeType);
      } else {
        selectedTypes := selectedTypes + [nodeType];
      }
    }

    /** The clear button: both lists emptied, so the badge shows 0. */
    method Clear()
      modifies this
      ensures selectedOwners == [] && selectedTypes == []
      ensures Badge() == 0 && !ShowsClear()
    {
      selectedOwners := [];
      selectedTypes := [];
    }
  }

  /** The clear button is shown exactly when the badge is non-zero. */
  lemma ClearShownIffBadge(sel: FilterSelection)
    ensures sel.ShowsClear() <==> sel.Badge() > 0
  {
  }
}
