/** The two views of the inventory, by host and by group, and the tree of groups built from the
    second. */
module GroupTree {
  import opened Text
  import opened Yaml
  import opened Fields
  import opened Inventory
  import opened GroupForest

  /* ---- shape of the hierarchy ---- */

  ghost predicate IsPath(inv: Doc, path: seq<string>) {
    path != [] && forall i | 0 <= i < |path| - 1 :: Edge(inv, path[i], path[i + 1])
  }

  ghost predicate IsRoot(inv: Doc, group: string) {
    group in Groups(inv) && forall p :: !Edge(inv, p, group)
  }

  ghost predicate RootPath(inv: Doc, path: seq<string>, group: string) {
    IsPath(inv, path) && IsRoot(inv, path[0]) && path[|path| - 1] == group
  }

  lemma {:induction false} PathRises(inv: Doc, rank: string -> nat, path: seq<string>)
    requires RankedBy(inv, rank) && IsPath(inv, path) && |path| > 1
    ensures rank(path[0]) < rank(path[|path| - 1])
    decreases |path|
  {
    assert Edge(inv, path[0], path[1]);
    if |path| > 2 {
      var rest := path[1..];
      forall i | 0 <= i < |rest| - 1
        ensures Edge(inv, rest[i], rest[i + 1])
      {
        assert Edge(inv, path[i + 1], path[i + 1 + 1]);
      }
      PathRises(inv, rank, rest);
    }
  }

  /** Following child references never comes back. */
  lemma NoCycles(inv: Doc, path: seq<string>)
    requires Forest(inv) && IsPath(inv, path) && |path| > 1
    ensures path[0] != path[|path| - 1]
  {
    var rank: string -> nat :| RankedBy(inv, rank);
    PathRises(inv, rank, path);
  }

  lemma {:induction false} ClimbToRoot(inv: Doc, rank: string -> nat, group: string) returns (path: seq<string>)
    requires ChildrenAreGroups(inv) && RankedBy(inv, rank) && group in Groups(inv)
    ensures RootPath(inv, path, group)
    decreases rank(group)
  {
    if p :| Edge(inv, p, group) {
      assert p in inv;
      var above := ClimbToRoot(inv, rank, p);
      path := above + [group];
    } else {
      path := [group];
    }
  }

  lemma {:induction false} RootPathUnique(inv: Doc, a: seq<string>, b: seq<string>, group: string)
    requires ChildrenAreGroups(inv) && RootPath(inv, a, group) && RootPath(inv, b, group)
    ensures a == b
    decreases |a|
  {
    var m, n := |a| - 1, |b| - 1;
    if m > 0 { assert Edge(inv, a[m - 1], a[m - 1 + 1]); }
    if n > 0 { assert Edge(inv, b[n - 1], b[n - 1 + 1]); }
    if m > 0 && n > 0 {
      assert Edge(inv, a[m - 1], group) && Edge(inv, b[n - 1], group);
      RootPathUnique(inv, a[..m], b[..n], a[m - 1]);
      assert a == a[..m] + [group] && b == b[..n] + [group];
    }
  }

  /** Every group is reached from exactly one root, along exactly one path. */
  lemma ExactlyOneRootPath(inv: Doc, group: string)
    requires Forest(inv) && group in Groups(inv)
    ensures exists path :: RootPath(inv, path, group) && forall other | RootPath(inv, other, group) :: other == path
  {
    var rank: string -> nat :| RankedBy(inv, rank);
    var path := ClimbToRoot(inv, rank, group);
    forall other | RootPath(inv, other, group)
      ensures other == path
    {
      RootPathUnique(inv, other, path, group);
    }
  }

  /* ---- the groups as listed ---- */

  datatype InventoryGroup = InventoryGroup(name: string, hosts: seq<string>, children: seq<string>, fields: Fields)
  datatype InventoryHost = InventoryHost(name: string, groups: seq<string>, fields: Fields)

  predicate NoDuplicates(s: seq<string>) {
    forall i, j | 0 <= i < j < |s| :: s[i] != s[j]
  }

  /** The iteration order of a mapping is arbitrary; each key comes once. */
  ghost predicate Enumerates(s: seq<string>, keys: set<string>) {
    NoDuplicates(s) && forall x :: x in s <==> x in keys
  }

  lemma AppendNew(s: seq<string>, x: string)
    requires NoDuplicates(s) && x !in s
    ensures NoDuplicates(s + [x])
  {
  }

  method KeysOf(d: Doc) returns (s: seq<string>)
    ensures Enumerates(s, d.Keys)
  {
    s := [];
    var keys: set<string> := d.Keys;
    while keys != {}
      invariant keys <= d.Keys && NoDuplicates(s) && forall x :: x in s <==> x in d.Keys - keys
      decreases |keys|
    {
      var k: string :| k in keys;
      AppendNew(s, k);
      s := s + [k];
      keys := keys - {k};
    }
  }

  /** One listed group agrees with its mapping. */
  ghost predicate Describes(g: InventoryGroup, d: Doc) {
    && Sub(d, g.name).Some?
    && Enumerates(g.hosts, SubOrEmpty(SubOrEmpty(d, g.name), "hosts").Keys)
    && Enumerates(g.children, SubOrEmpty(SubOrEmpty(d, g.name), "children").Keys)
  }

  /** The list has every group of one mapping of groups, once. */
  ghost predicate ListsGroups(gs: seq<InventoryGroup>, d: Doc) {
    && (forall i | 0 <= i < |gs| :: Describes(gs[i], d))
    && (forall i, j | 0 <= i < j < |gs| :: gs[i].name != gs[j].name)
    && (forall k | Sub(d, k).Some? :: exists i :: 0 <= i < |gs| && gs[i].name == k)
  }

  function NestedGroups(inv: Doc): Doc {
    SubOrEmpty(SubOrEmpty(inv, "all"), "children")
  }

  /** Top-level groups first, then the direct children of "all". */
  ghost predicate GroupListing(gs: seq<InventoryGroup>, inv: Doc) {
    exists k :: 0 <= k <= |gs| && ListsGroups(gs[..k], inv - {"all"}) && ListsGroups(gs[k..], NestedGroups(inv))
  }

  /** The groups' own vars and metadata, under the key "vars". */
  predicate GroupFieldsRead(gs: seq<InventoryGroup>, d: Doc, defaultOwner: string) {
    gs == [] ||
    (var g := gs[|gs| - 1];
     && g.fields == WithDefaultOwner(ReadFields(SubOrEmpty(SubOrEmpty(d, g.name), "vars"), false), defaultOwner)
     && GroupFieldsRead(gs[..|gs| - 1], d, defaultOwner))
  }

  method ParseGroup(d: Doc, name: string, defaultOwner: string) returns (g: InventoryGroup)
    requires Sub(d, name).Some?
    ensures g.name == name && Describes(g, d)
    ensures g.fields == WithDefaultOwner(ReadFields(SubOrEmpty(SubOrEmpty(d, name), "vars"), false), defaultOwner)
  {
    var group := SubOrEmpty(d, name);
    var hosts := KeysOf(SubOrEmpty(group, "hosts"));
    var children := KeysOf(SubOrEmpty(group, "children"));
    var fields := ParseFields(SubOrEmpty(group, "vars"), false, defaultOwner);
    g := InventoryGroup(name, hosts, children, fields);
  }

  /** The list has the groups among the first `n` names, once. */
  ghost predicate ListsSome(gs: seq<InventoryGroup>, d: Doc, names: seq<string>, n: nat)
    requires n <= |names|
  {
    && (forall i | 0 <= i < |gs| :: Describes(gs[i], d) && gs[i].name in names[..n])
    && (forall i, j | 0 <= i < j < |gs| :: gs[i].name != gs[j].name)
    && (forall m | 0 <= m < n && Sub(d, names[m]).Some? :: exists i :: 0 <= i < |gs| && gs[i].name == names[m])
  }

  lemma ListsOneMore(gs: seq<InventoryGroup>, d: Doc, names: seq<string>, n: nat, g: InventoryGroup)
    requires n < |names| && NoDuplicates(names) && ListsSome(gs, d, names, n)
    requires g.name == names[n] && Describes(g, d)
    ensures ListsSome(gs + [g], d, names, n + 1)
  {
    var gs' := gs + [g];
    assert names[..n + 1] == names[..n] + [names[n]] && names[n] !in names[..n];
    assert gs'[|gs|] == g && forall i | 0 <= i < |gs| :: gs'[i] == gs[i];
    forall m | 0 <= m < n + 1 && Sub(d, names[m]).Some?
      ensures exists i :: 0 <= i < |gs'| && gs'[i].name == names[m]
    {
      if m < n {
        var i :| 0 <= i < |gs| && gs[i].name == names[m];
        assert gs'[i].name == names[m];
      }
    }
  }

  lemma ListsNoMore(gs: seq<InventoryGroup>, d: Doc, names: seq<string>, n: nat)
    requires n < |names| && ListsSome(gs, d, names, n) && Sub(d, names[n]).None?
    ensures ListsSome(gs, d, names, n + 1)
  {
    assert names[..n + 1] == names[..n] + [names[n]];
  }

  lemma ListsAll(gs: seq<InventoryGroup>, d: Doc, names: seq<string>)
    requires Enumerates(names, d.Keys) && ListsSome(gs, d, names, |names|)
    ensures ListsGroups(gs, d)
  {
    forall k | Sub(d, k).Some?
      ensures exists i :: 0 <= i < |gs| && gs[i].name == k
    {
      assert k in names;
      var m :| 0 <= m < |names| && names[m] == k;
    }
  }

  lemma FieldsReadMore(gs: seq<InventoryGroup>, d: Doc, defaultOwner: string, g: InventoryGroup)
    requires GroupFieldsRead(gs, d, defaultOwner)
    requires g.fields == WithDefaultOwner(ReadFields(SubOrEmpty(SubOrEmpty(d, g.name), "vars"), false), defaultOwner)
    ensures GroupFieldsRead(gs + [g], d, defaultOwner)
  {
    assert (gs + [g])[..|gs|] == gs;
  }

  method ListGroups(d: Doc, defaultOwner: string) returns (gs: seq<InventoryGroup>)
    ensures ListsGroups(gs, d) && GroupFieldsRead(gs, d, defaultOwner)
  {
    gs := [];
    var names := KeysOf(d);
    for n := 0 to |names|
      invariant ListsSome(gs, d, names, n) && GroupFieldsRead(gs, d, defaultOwner)
    {
      if d[names[n]].Map? {
        var g := ParseGroup(d, names[n], defaultOwner);
        ListsOneMore(gs, d, names, n, g);
        FieldsReadMore(gs, d, defaultOwner, g);
        gs := gs + [g];
      } else {
        ListsNoMore(gs, d, names, n);
      }
    }
    ListsAll(gs, d, names);
  }

  /** The listing with all fields. */
  ghost predicate FullListing(gs: seq<InventoryGroup>, inv: Doc, defaultOwner: string) {
    exists k :: 0 <= k <= |gs|
      && ListsGroups(gs[..k], inv - {"all"}) && GroupFieldsRead(gs[..k], inv - {"all"}, defaultOwner)
      && ListsGroups(gs[k..], NestedGroups(inv)) && GroupFieldsRead(gs[k..], NestedGroups(inv), defaultOwner)
  }

  method GetGroups(data: Stored, defaultOwner: string) returns (gs: seq<InventoryGroup>)
    ensures FullListing(gs, Decode(data), defaultOwner) && GroupListing(gs, Decode(data))
  {
    var inv := Decode(data);
    var top := ListGroups(inv - {"all"}, defaultOwner);
    var nested := ListGroups(NestedGroups(inv), defaultOwner);
    gs := top + nested;
    assert gs[..|top|] == top && gs[|top|..] == nested;
  }

  lemma ListedExists(gs: seq<InventoryGroup>, d: Doc)
    requires ListsGroups(gs, d)
    ensures gs != [] ==> d != map[]
  {
    if gs != [] {
      assert Describes(gs[0], d);
      assert gs[0].name in d;
    }
  }

  /** In a good inventory "all" has no children, so the list is that of the top-level groups. */
  lemma GoodListing(gs: seq<InventoryGroup>, inv: Doc)
    requires Forest(inv) && GroupListing(gs, inv)
    ensures ListsGroups(gs, inv - {"all"})
  {
    var k :| 0 <= k <= |gs| && ListsGroups(gs[..k], inv - {"all"}) && ListsGroups(gs[k..], NestedGroups(inv));
    assert NestedGroups(inv) == map[] by {
      if c :| c in NestedGroups(inv) { assert Edge(inv, "all", c); }
    }
    ListedExists(gs[k..], NestedGroups(inv));
    assert gs[..k] == gs;
  }

  /* ---- the tree ---- */

  predicate HasParent(gs: seq<InventoryGroup>, name: string) {
    exists i | 0 <= i < |gs| :: name in gs[i].children
  }

  function RootGroups(gs: seq<InventoryGroup>, from: seq<InventoryGroup>): seq<InventoryGroup> {
    if from == [] then []
    else (if HasParent(gs, from[0].name) then [] else [from[0]]) + RootGroups(gs, from[1..])
  }

  lemma RootGroupsGrow(rootGroups: seq<InventoryGroup>, gs: seq<InventoryGroup>, n: nat)
    requires n < |gs| && rootGroups + RootGroups(gs, gs[n..]) == RootGroups(gs, gs)
    ensures var grown := if HasParent(gs, gs[n].name) then rootGroups else rootGroups + [gs[n]];
            grown + RootGroups(gs, gs[n + 1..]) == RootGroups(gs, gs)
  {
    assert gs[n..][1..] == gs[n + 1..];
    Assoc(rootGroups, [gs[n]], RootGroups(gs, gs[n + 1..]));
  }

  /** The second pass of the tree handler: groups that no group lists as a child. */
  method GetGroupTree(groups: seq<InventoryGroup>) returns (rootGroups: seq<InventoryGroup>)
    ensures rootGroups == RootGroups(groups, groups)
  {
    rootGroups := [];
    assert groups[0..] == groups;
    for n := 0 to |groups|
      invariant rootGroups + RootGroups(groups, groups[n..]) == RootGroups(groups, groups)
    {
      var g := groups[n];
      var hasParent := false;
      for i := 0 to |groups|
        invariant !hasParent && forall j | 0 <= j < i :: g.name !in groups[j].children
      {
        for c := 0 to |groups[i].children|
          invariant !hasParent && g.name !in groups[i].children[..c]
        {
          if groups[i].children[c] == g.name {
            hasParent := true;
            break;
          }
        }
        assert hasParent <==> g.name in groups[i].children by {
          if !hasParent { assert groups[i].children[..|groups[i].children|] == groups[i].children; }
        }
        if hasParent { break; }
      }
      assert hasParent <==> HasParent(groups, g.name);
      RootGroupsGrow(rootGroups, groups, n);
      if !hasParent {
        rootGroups := rootGroups + [g];
      }
    }
  }

  lemma {:induction false} RootGroupsAre(gs: seq<InventoryGroup>, from: seq<InventoryGroup>)
    ensures forall g :: g in RootGroups(gs, from) <==> g in from && !HasParent(gs, g.name)
    decreases |from|
  {
    if from != [] { RootGroupsAre(gs, from[1..]); }
  }

  lemma ParentIsEdge(gs: seq<InventoryGroup>, inv: Doc, name: string)
    requires Forest(inv) && ListsGroups(gs, inv - {"all"})
    ensures HasParent(gs, name) <==> exists p :: Edge(inv, p, name)
  {
    var top := inv - {"all"};
    forall i | 0 <= i < |gs|
      ensures name in gs[i].children <==> Edge(inv, gs[i].name, name)
    {
      assert Describes(gs[i], top);
      assert SubOrEmpty(top, gs[i].name) == SubOrEmpty(inv, gs[i].name);
    }
    if p :| Edge(inv, p, name) {
      assert p in top && Sub(top, p).Some?;
      var i :| 0 <= i < |gs| && gs[i].name == p;
      assert name in gs[i].children;
    }
  }

  lemma ListedRoots(gs: seq<InventoryGroup>, inv: Doc, g: InventoryGroup)
    requires Forest(inv) && ListsGroups(gs, inv - {"all"}) && g in gs
    ensures g.name in Groups(inv) && Sub(inv, g.name).Some?
    ensures g in RootGroups(gs, gs) <==> IsRoot(inv, g.name)
  {
    RootGroupsAre(gs, gs);
    ParentIsEdge(gs, inv, g.name);
    var i :| 0 <= i < |gs| && gs[i] == g;
    assert Describes(gs[i], inv - {"all"});
  }

  /** The handler's roots are exactly the roots of the forest, and every listed group is below
      exactly one of them, along exactly one path. */
  lemma TreeCoversEveryGroupOnce(gs: seq<InventoryGroup>, inv: Doc, g: InventoryGroup) returns (path: seq<string>)
    requires Forest(inv) && GroupListing(gs, inv) && g in gs
    ensures g in RootGroups(gs, gs) <==> IsRoot(inv, g.name)
    ensures RootPath(inv, path, g.name) && forall other | RootPath(inv, other, g.name) :: other == path
    ensures exists r :: r in RootGroups(gs, gs) && r.name == path[0]
  {
    GoodListing(gs, inv);
    ListedRoots(gs, inv, g);
    ExactlyOneRootPath(inv, g.name);
    path :| RootPath(inv, path, g.name) && forall other | RootPath(inv, other, g.name) :: other == path;
    RootIsListed(gs, inv, path, g);
  }

  lemma RootIsListed(gs: seq<InventoryGroup>, inv: Doc, path: seq<string>, g: InventoryGroup)
    requires Forest(inv) && ListsGroups(gs, inv - {"all"}) && g in gs && RootPath(inv, path, g.name)
    ensures exists r :: r in RootGroups(gs, gs) && r.name == path[0]
  {
    ListedRoots(gs, inv, g);
    if |path| > 1 {
      assert Edge(inv, path[0], path[0 + 1]);
    }
    assert Sub(inv - {"all"}, path[0]).Some?;
    var k :| 0 <= k < |gs| && gs[k].name == path[0];
    ListedRoots(gs, inv, gs[k]);
  }

  /** The handler returns exactly the roots of the forest. */
  lemma TreeRootsExactly(gs: seq<InventoryGroup>, inv: Doc)
    requires Forest(inv) && GroupListing(gs, inv)
    ensures forall g | g in RootGroups(gs, gs) :: IsRoot(inv, g.name)
    ensures forall n | IsRoot(inv, n) && Sub(inv, n).Some? :: exists g :: g in RootGroups(gs, gs) && g.name == n
  {
    GoodListing(gs, inv);
    RootGroupsAre(gs, gs);
    forall g | g in RootGroups(gs, gs)
      ensures IsRoot(inv, g.name)
    {
      ListedRoots(gs, inv, g);
    }
    forall n | IsRoot(inv, n) && Sub(inv, n).Some?
      ensures exists g :: g in RootGroups(gs, gs) && g.name == n
    {
      assert Sub(inv - {"all"}, n).Some?;
      var i :| 0 <= i < |gs| && gs[i].name == n;
      ListedRoots(gs, inv, gs[i]);
    }
  }

  lemma OwnChildIsHidden(gs: seq<InventoryGroup>, inv: Doc, name: string)
    requires GroupListing(gs, inv) && name != "all" && Edge(inv, name, name)
    ensures (exists g :: g in gs && g.name == name) && forall g | g in RootGroups(gs, gs) :: g.name != name
  {
    var top := inv - {"all"};
    var k :| 0 <= k <= |gs| && ListsGroups(gs[..k], top) && ListsGroups(gs[k..], NestedGroups(inv));
    assert Sub(top, name).Some? && Children(top, name) == Children(inv, name);
    var i :| 0 <= i < k && gs[..k][i].name == name;
    assert Describes(gs[..k][i], top);
    assert gs[i] in gs && name in gs[i].children;
    RootGroupsAre(gs, gs);
  }

  lemma OwnParentEdge(data: Stored, name: string, m: Metadata)
    requires name != "" && name != "all" && CreateGroup(data, name, name, m).Save?
    ensures Edge(CreateGroup(data, name, name, m).doc, name, name)
  {
    var inv := if data.None? then map["all" := Map(map["hosts" := EMPTY, "children" := EMPTY])] else data.value;
    var inv1 := inv[name := Map(NewGroup(WithMetadata(map[], m)))];
    WithChildSees(inv1, name, name);
    assert CreateGroup(data, name, name, m).doc == WithChild(inv1, name, name);
  }

  /** A group created as its own parent is listed, but the tree does not show it. */
  lemma OwnParentVanishes(data: Stored, name: string, m: Metadata, gs: seq<InventoryGroup>)
    requires name != "" && name != "all" && CreateGroup(data, name, name, m).Save?
    requires GroupListing(gs, CreateGroup(data, name, name, m).doc)
    ensures (exists g :: g in gs && g.name == name) && forall g | g in RootGroups(gs, gs) :: g.name != name
  {
    OwnParentEdge(data, name, m);
    OwnChildIsHidden(gs, CreateGroup(data, name, name, m).doc, name);
  }

  /* ---- the hosts as listed ---- */

  type HostGroups = map<string, seq<string>>

  function GroupsOf(hg: HostGroups, host: string): seq<string> {
    if host in hg then hg[host] else []
  }

  predicate TopLists(inv: Doc, host: string, group: string) {
    group != "all" && Sub(inv, group).Some? && host in SubOrEmpty(SubOrEmpty(inv, group), "hosts")
  }

  /** Some group of that name, at any depth below these children, lists the host. */
  ghost predicate NestedLists(children: Yaml, host: string, group: string)
    decreases children, 0
  {
    children.Map? && exists n | n in children.entries :: NodeLists(n, children.entries[n], host, group)
  }

  ghost predicate NodeLists(name: string, node: Yaml, host: string, group: string)
    decreases node, 1
  {
    && node.Map?
    && ((name == group && host in SubOrEmpty(node.entries, "hosts"))
        || ("children" in node.entries && NestedLists(node.entries["children"], host, group)))
  }

  /** These hosts gained a group, the others none. */
  ghost predicate Gained(before: HostGroups, after: HostGroups, hosts: set<string>, name: string) {
    forall h :: GroupsOf(after, h) == GroupsOf(before, h) + if h in hosts then [name] else []
  }

  lemma GainedMore(before: HostGroups, after: HostGroups, hosts: set<string>, name: string, x: string)
    requires Gained(before, after, hosts, name) && x !in hosts
    ensures Gained(before, after[x := GroupsOf(after, x) + [name]], hosts + {x}, name)
  {
    assert GroupsOf(after, x) == GroupsOf(before, x);
  }

  lemma GainedAll(before: HostGroups, after: HostGroups, hosts: set<string>, all: set<string>, name: string)
    requires Gained(before, after, hosts, name) && hosts == all
    ensures Gained(before, after, all, name)
  {
  }

  method AppendMembers(hg: HostGroups, name: string, hosts: Doc) returns (hg': HostGroups)
    ensures Gained(hg, hg', hosts.Keys, name)
  {
    hg' := hg;
    var keys: set<string> := hosts.Keys;
    ghost var done: set<string> := {};
    while keys != {}
      invariant done !! keys && done + keys == hosts.Keys
      invariant Gained(hg, hg', done, name)
      decreases |keys|
    {
      var hostname: string :| hostname in keys;
      GainedMore(hg, hg', done, name, hostname);
      hg' := hg'[hostname := GroupsOf(hg', hostname) + [name]];
      keys, done := keys - {hostname}, done + {hostname};
    }
    GainedAll(hg, hg', done, hosts.Keys, name);
  }

  method ProcessChildGroups(children: Yaml, hg: HostGroups) returns (hg': HostGroups)
    ensures forall h, g :: g in GroupsOf(hg', h) <==> g in GroupsOf(hg, h) || NestedLists(children, h, g)
    ensures children == EMPTY ==> hg' == hg
    decreases children, 0
  {
    hg' := hg;
    if children.Map? {
      var m := children.entries;
      var names := KeysOf(m);
      for n := 0 to |names|
        invariant forall h, g :: g in GroupsOf(hg', h) <==> g in GroupsOf(hg, h) || AmongLists(m, names[..n], h, g)
        invariant children == EMPTY ==> hg' == hg
      {
        hg' := ProcessChildGroup(names[n], m[names[n]], hg');
        AmongStep(m, names, n);
      }
      AmongAll(m, names);
    }
  }

  /** The body of the loop over children: the group's own hosts, then its children. */
  method ProcessChildGroup(name: string, group: Yaml, hg: HostGroups) returns (hg': HostGroups)
    ensures forall h, g :: g in GroupsOf(hg', h) <==> g in GroupsOf(hg, h) || NodeLists(name, group, h, g)
    decreases group, 1
  {
    hg' := hg;
    if group.Map? {
      hg' := AppendMembers(hg', name, SubOrEmpty(group.entries, "hosts"));
      if "children" in group.entries {
        hg' := ProcessChildGroups(group.entries["children"], hg');
      }
    }
  }

  ghost predicate AmongLists(m: Doc, names: seq<string>, host: string, group: string) {
    exists i | 0 <= i < |names| :: names[i] in m && NodeLists(names[i], m[names[i]], host, group)
  }

  lemma AmongStep(m: Doc, names: seq<string>, n: nat)
    requires n < |names| && names[n] in m
    ensures forall h, g :: AmongLists(m, names[..n + 1], h, g) <==>
              AmongLists(m, names[..n], h, g) || NodeLists(names[n], m[names[n]], h, g)
  {
    forall h, g
      ensures AmongLists(m, names[..n + 1], h, g) <==> AmongLists(m, names[..n], h, g) || NodeLists(names[n], m[names[n]], h, g)
    {
      assert names[..n + 1] == names[..n] + [names[n]];
      if NodeLists(names[n], m[names[n]], h, g) {
        assert names[..n + 1][n] == names[n];
      }
      if AmongLists(m, names[..n], h, g) {
        var i :| 0 <= i < n && names[..n][i] in m && NodeLists(names[..n][i], m[names[..n][i]], h, g);
        assert names[..n + 1][i] == names[..n][i];
      }
    }
  }

  lemma AmongAll(m: Doc, names: seq<string>)
    requires Enumerates(names, m.Keys)
    ensures forall h, g :: AmongLists(m, names[..|names|], h, g) <==> NestedLists(Map(m), h, g)
  {
    assert names[..|names|] == names;
    forall h, g
      ensures AmongLists(m, names, h, g) <==> NestedLists(Map(m), h, g)
    {
      if NestedLists(Map(m), h, g) {
        var n :| n in m && NodeLists(n, m[n], h, g);
        assert n in names;
        var i :| 0 <= i < |names| && names[i] == n;
      }
    }
  }

  ghost predicate ListsHost(inv: Doc, host: string, group: string) {
    TopLists(inv, host, group) || NestedLists(Map(NestedGroups(inv)), host, group)
  }

  /** Those of the names that list the host, in order. */
  function TopGroups(inv: Doc, names: seq<string>, host: string): seq<string> {
    if names == [] then []
    else
      var n := |names| - 1;
      TopGroups(inv, names[..n], host) + if TopLists(inv, host, names[n]) then [names[n]] else []
  }

  lemma {:induction false} TopGroupsAre(inv: Doc, names: seq<string>, host: string)
    requires NoDuplicates(names)
    ensures NoDuplicates(TopGroups(inv, names, host))
    ensures forall g :: g in TopGroups(inv, names, host) <==> g in names && TopLists(inv, host, g)
    decreases |names|
  {
    if names != [] {
      var n := |names| - 1;
      TopGroupsAre(inv, names[..n], host);
      assert names == names[..n] + [names[n]] && names[n] !in names[..n];
      AppendNew(TopGroups(inv, names[..n], host), names[n]);
    }
  }

  lemma TopGroupsStep(inv: Doc, names: seq<string>, n: nat)
    requires n < |names|
    ensures forall h :: TopGroups(inv, names[..n + 1], h) ==
              TopGroups(inv, names[..n], h) + if TopLists(inv, h, names[n]) then [names[n]] else []
  {
    assert names[..n + 1][..n] == names[..n];
  }

  /** The body of the loop over top-level groups. */
  method ProcessTopGroup(inv: Doc, name: string, hg: HostGroups) returns (hg': HostGroups)
    requires name in inv
    ensures forall h :: GroupsOf(hg', h) == GroupsOf(hg, h) + if TopLists(inv, h, name) then [name] else []
  {
    hg' := hg;
    if name != "all" && inv[name].Map? {
      hg' := AppendMembers(hg, name, SubOrEmpty(inv[name].entries, "hosts"));
    }
  }

  /** The loop over top-level groups. */
  method ProcessTopGroups(inv: Doc) returns (hg: HostGroups)
    ensures forall h, g :: g in GroupsOf(hg, h) <==> TopLists(inv, h, g)
    ensures forall h :: NoDuplicates(GroupsOf(hg, h))
  {
    hg := map[];
    var names := KeysOf(inv);
    for n := 0 to |names|
      invariant forall h :: GroupsOf(hg, h) == TopGroups(inv, names[..n], h)
    {
      hg := ProcessTopGroup(inv, names[n], hg);
      TopGroupsStep(inv, names, n);
    }
    assert names[..|names|] == names;
    forall h
      ensures NoDuplicates(GroupsOf(hg, h)) && forall g :: g in GroupsOf(hg, h) <==> TopLists(inv, h, g)
    {
      TopGroupsAre(inv, names, h);
    }
  }

  method ProcessGroups(inv: Doc) returns (hg: HostGroups)
    ensures forall h, g :: g in GroupsOf(hg, h) <==> ListsHost(inv, h, g)
    ensures NestedGroups(inv) == map[] ==> forall h :: NoDuplicates(GroupsOf(hg, h))
  {
    hg := ProcessTopGroups(inv);
    hg := ProcessChildGroups(Map(NestedGroups(inv)), hg);
  }

  /** Every host of "all" once, with the groups that list it. */
  ghost predicate HostListing(hs: seq<InventoryHost>, inv: Doc) {
    && (forall i, j | 0 <= i < j < |hs| :: hs[i].name != hs[j].name)
    && (forall n :: n in Members(inv, "all") <==> exists i :: 0 <= i < |hs| && hs[i].name == n)
    && (forall i, g | 0 <= i < |hs| :: g in hs[i].groups <==> ListsHost(inv, hs[i].name, g))
    && (NestedGroups(inv) == map[] ==> forall i | 0 <= i < |hs| :: NoDuplicates(hs[i].groups))
  }

  /** The variables of a host below "all". */
  function HostVars(inv: Doc, name: string): Doc {
    SubOrEmpty(SubOrEmpty(SubOrEmpty(inv, "all"), "hosts"), name)
  }

  predicate HostFieldsRead(hs: seq<InventoryHost>, inv: Doc, defaultOwner: string) {
    hs == [] ||
    (var h := hs[|hs| - 1];
     && h.fields == WithDefaultOwner(ReadFields(HostVars(inv, h.name), true), defaultOwner)
     && HostFieldsRead(hs[..|hs| - 1], inv, defaultOwner))
  }

  method ParseHost(inv: Doc, name: string, hg: HostGroups, defaultOwner: string) returns (h: InventoryHost)
    ensures h.name == name && h.groups == GroupsOf(hg, name)
    ensures h.fields == WithDefaultOwner(ReadFields(HostVars(inv, name), true), defaultOwner)
  {
    var fields := ParseFields(HostVars(inv, name), true, defaultOwner);
    h := InventoryHost(name, GroupsOf(hg, name), fields);
  }

  lemma HostFieldsReadMore(hs: seq<InventoryHost>, inv: Doc, defaultOwner: string, h: InventoryHost)
    requires HostFieldsRead(hs, inv, defaultOwner)
    requires h.fields == WithDefaultOwner(ReadFields(HostVars(inv, h.name), true), defaultOwner)
    ensures HostFieldsRead(hs + [h], inv, defaultOwner)
  {
    assert (hs + [h])[..|hs|] == hs;
  }

  /** One host per name, with its groups. */
  ghost predicate HostPerName(hs: seq<InventoryHost>, names: seq<string>, hg: HostGroups) {
    |hs| <= |names| && forall i | 0 <= i < |hs| :: hs[i].name == names[i] && hs[i].groups == GroupsOf(hg, names[i])
  }

  lemma HostPerNameMore(hs: seq<InventoryHost>, names: seq<string>, hg: HostGroups, h: InventoryHost)
    requires HostPerName(hs, names, hg) && |hs| < |names|
    requires h.name == names[|hs|] && h.groups == GroupsOf(hg, h.name)
    ensures HostPerName(hs + [h], names, hg)
  {
  }

  lemma HostPerNameLists(hs: seq<InventoryHost>, names: seq<string>, hg: HostGroups, inv: Doc)
    requires HostPerName(hs, names, hg) && |hs| == |names| && Enumerates(names, Members(inv, "all"))
    requires forall h, g :: g in GroupsOf(hg, h) <==> ListsHost(inv, h, g)
    requires NestedGroups(inv) == map[] ==> forall h :: NoDuplicates(GroupsOf(hg, h))
    ensures HostListing(hs, inv)
  {
    forall n
      ensures n in Members(inv, "all") <==> exists i :: 0 <= i < |hs| && hs[i].name == n
    {
      if n in Members(inv, "all") {
        assert n in names;
        var i :| 0 <= i < |names| && names[i] == n;
        assert hs[i].name == n;
      }
    }
  }

  /** The loop over the hosts of "all". */
  method ListHosts(inv: Doc, names: seq<string>, hg: HostGroups, defaultOwner: string) returns (hs: seq<InventoryHost>)
    ensures HostPerName(hs, names, hg) && |hs| == |names| && HostFieldsRead(hs, inv, defaultOwner)
  {
    hs := [];
    for n := 0 to |names|
      invariant |hs| == n && HostPerName(hs, names, hg) && HostFieldsRead(hs, inv, defaultOwner)
    {
      var h := ParseHost(inv, names[n], hg, defaultOwner);
      HostFieldsReadMore(hs, inv, defaultOwner, h);
      HostPerNameMore(hs, names, hg, h);
      hs := hs + [h];
    }
  }

  method GetHosts(data: Stored, defaultOwner: string) returns (hs: seq<InventoryHost>)
    ensures HostListing(hs, Decode(data)) && HostFieldsRead(hs, Decode(data), defaultOwner)
  {
    var inv := Decode(data);
    var hostGroups := ProcessGroups(inv);
    var names := KeysOf(SubOrEmpty(SubOrEmpty(inv, "all"), "hosts"));
    hs := ListHosts(inv, names, hostGroups, defaultOwner);
    HostPerNameLists(hs, names, hostGroups, inv);
  }

  /* ---- the two views agree ---- */

  /** A listed host names a listed group exactly when the group names the host, and every host a
      group names is listed. */
  lemma ViewsAgree(hs: seq<InventoryHost>, gs: seq<InventoryGroup>, inv: Doc)
    requires Forest(inv) && HostsExist(inv) && HostListing(hs, inv) && GroupListing(gs, inv)
    ensures forall h, g | h in hs && g in gs :: g.name in h.groups <==> h.name in g.hosts
    ensures forall h, n | h in hs && n in h.groups :: exists g :: g in gs && g.name == n
    ensures forall g, n | g in gs && n in g.hosts :: exists h :: h in hs && h.name == n
    ensures forall h | h in hs :: NoDuplicates(h.groups)
    ensures forall g | g in gs :: NoDuplicates(g.hosts) && NoDuplicates(g.children)
  {
    GoodListing(gs, inv);
    forall h | h in hs
      ensures NoDuplicates(h.groups) && forall n | n in h.groups :: exists g :: g in gs && g.name == n
    {
      HostGroupsListed(hs, gs, inv, h);
    }
    forall g | g in gs
      ensures NoDuplicates(g.hosts) && NoDuplicates(g.children)
      ensures forall n | n in g.hosts :: exists h :: h in hs && h.name == n
    {
      GroupHostsListed(hs, gs, inv, g);
    }
    forall h, g | h in hs && g in gs
      ensures g.name in h.groups <==> h.name in g.hosts
    {
      ListedHost(hs, inv, h);
      ListedGroup(gs, inv, g);
    }
  }

  lemma ListedGroup(gs: seq<InventoryGroup>, inv: Doc, g: InventoryGroup)
    requires ListsGroups(gs, inv - {"all"}) && g in gs
    ensures g.name != "all" && Sub(inv, g.name).Some?
    ensures Enumerates(g.hosts, Members(inv, g.name)) && NoDuplicates(g.children)
  {
    var i :| 0 <= i < |gs| && gs[i] == g;
    assert Describes(gs[i], inv - {"all"});
  }

  lemma ListedHost(hs: seq<InventoryHost>, inv: Doc, h: InventoryHost)
    requires Forest(inv) && HostListing(hs, inv) && h in hs
    ensures NoDuplicates(h.groups) && forall n :: n in h.groups <==> TopLists(inv, h.name, n)
  {
    NothingNested(inv);
    var i :| 0 <= i < |hs| && hs[i] == h;
    forall n
      ensures n in h.groups <==> TopLists(inv, h.name, n)
    {
      assert n in hs[i].groups <==> ListsHost(inv, hs[i].name, n);
    }
  }

  lemma HostGroupsListed(hs: seq<InventoryHost>, gs: seq<InventoryGroup>, inv: Doc, h: InventoryHost)
    requires Forest(inv) && HostListing(hs, inv) && ListsGroups(gs, inv - {"all"}) && h in hs
    ensures NoDuplicates(h.groups) && forall n | n in h.groups :: exists g :: g in gs && g.name == n
  {
    ListedHost(hs, inv, h);
    forall n | n in h.groups
      ensures exists g :: g in gs && g.name == n
    {
      assert Sub(inv - {"all"}, n).Some?;
    }
  }

  lemma GroupHostsListed(hs: seq<InventoryHost>, gs: seq<InventoryGroup>, inv: Doc, g: InventoryGroup)
    requires HostsExist(inv) && HostListing(hs, inv) && ListsGroups(gs, inv - {"all"}) && g in gs
    ensures NoDuplicates(g.hosts) && NoDuplicates(g.children)
    ensures forall n | n in g.hosts :: exists h :: h in hs && h.name == n
  {
    ListedGroup(gs, inv, g);
    forall n | n in g.hosts
      ensures exists h :: h in hs && h.name == n
    {
      assert n in Members(inv, "all");
      var i :| 0 <= i < |hs| && hs[i].name == n;
      assert hs[i] in hs;
    }
  }

  lemma NothingNested(inv: Doc)
    requires Forest(inv)
    ensures NestedGroups(inv) == map[] && forall h, g :: !NestedLists(Map(NestedGroups(inv)), h, g)
  {
    assert NestedGroups(inv) == map[] by {
      if c :| c in NestedGroups(inv) { assert Edge(inv, "all", c); }
    }
  }
}
