/** Groups below "all" at any depth: which of them the two listings show. */
module NestedGroups {
  import opened Options
  import opened Yaml
  import opened Inventory
  import opened GroupForest
  import opened GroupTree

  /** The group that a path of child names leads to. */
  function NodeAt(children: Yaml, path: seq<string>): Option<Doc>
    decreases |path|
  {
    if path == [] || !children.Map? || Sub(children.entries, path[0]).None? then None
    else
      var node := Sub(children.entries, path[0]).value;
      if |path| == 1 then Some(node)
      else if "children" in node then NodeAt(node["children"], path[1..])
      else None
  }

  /** A path to a group of this name that lists the host. */
  predicate LeadsTo(children: Yaml, path: seq<string>, host: string, group: string) {
    && path != [] && path[|path| - 1] == group
    && NodeAt(children, path).Some? && host in SubOrEmpty(NodeAt(children, path).value, "hosts")
  }

  lemma {:induction false} PathDown(children: Yaml, host: string, group: string) returns (path: seq<string>)
    requires NestedLists(children, host, group)
    ensures LeadsTo(children, path, host, group)
    decreases children
  {
    var n :| n in children.entries && NodeLists(n, children.entries[n], host, group);
    var node := children.entries[n].entries;
    if n == group && host in SubOrEmpty(node, "hosts") {
      path := [n];
    } else {
      var below := PathDown(node["children"], host, group);
      path := [n] + below;
      assert path[1..] == below;
    }
  }

  lemma {:induction false} PathLists(children: Yaml, path: seq<string>, host: string, group: string)
    requires LeadsTo(children, path, host, group)
    ensures NestedLists(children, host, group)
    decreases |path|
  {
    var node := Sub(children.entries, path[0]).value;
    if |path| > 1 { PathLists(node["children"], path[1..], host, group); }
    assert NodeLists(path[0], children.entries[path[0]], host, group);
  }

  /** The groups a host is listed with are exactly the top-level ones that list it and those along whose
      path of child names from "all" one of that name does. */
  lemma HostGroupsExactly(hs: seq<InventoryHost>, inv: Doc, h: InventoryHost, g: string)
    requires HostListing(hs, inv) && h in hs
    ensures g in h.groups <==>
              || (g != "all" && h.name in Members(inv, g))
              || exists path :: LeadsTo(Map(NestedGroups(inv)), path, h.name, g)
  {
    var i :| 0 <= i < |hs| && hs[i] == h;
    assert g in hs[i].groups <==> ListsHost(inv, hs[i].name, g);
    var children := Map(NestedGroups(inv));
    if NestedLists(children, h.name, g) {
      var path := PathDown(children, h.name, g);
    }
    if path :| LeadsTo(children, path, h.name, g) {
      PathLists(children, path, h.name, g);
    }
  }

  predicate Names(gs: seq<InventoryGroup>, n: string) {
    exists g :: g in gs && g.name == n
  }

  lemma NamesIn(gs: seq<InventoryGroup>, d: Doc, n: string)
    requires ListsGroups(gs, d)
    ensures Names(gs, n) <==> Sub(d, n).Some?
  {
    if g :| g in gs && g.name == n {
      var i :| 0 <= i < |gs| && gs[i] == g;
      assert Describes(gs[i], d);
    }
    if Sub(d, n).Some? {
      var i :| 0 <= i < |gs| && gs[i].name == n;
      assert gs[i] in gs;
    }
  }

  lemma NamesInEither(gs: seq<InventoryGroup>, k: nat, n: string)
    requires k <= |gs|
    ensures Names(gs, n) <==> Names(gs[..k], n) || Names(gs[k..], n)
  {
    assert gs == gs[..k] + gs[k..];
    if Names(gs, n) {
      var g :| g in gs && g.name == n;
      assert g in gs[..k] || g in gs[k..];
    }
  }

  /** The groups listed are exactly those at the top and those directly below "all". */
  lemma GroupNamesExactly(gs: seq<InventoryGroup>, inv: Doc, n: string)
    requires GroupListing(gs, inv)
    ensures Names(gs, n) <==> (n != "all" && Sub(inv, n).Some?) || Sub(NestedGroups(inv), n).Some?
  {
    var k :| 0 <= k <= |gs| && ListsGroups(gs[..k], inv - {"all"}) && ListsGroups(gs[k..], NestedGroups(inv));
    NamesIn(gs[..k], inv - {"all"}, n);
    NamesIn(gs[k..], NestedGroups(inv), n);
    NamesInEither(gs, k, n);
    assert Sub(inv - {"all"}, n).Some? <==> n != "all" && Sub(inv, n).Some?;
  }
}
