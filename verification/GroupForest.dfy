/** What every edit of the inventory keeps: the group hierarchy is a forest and every listed host
    exists. */
module GroupForest {
  import opened Options
  import opened Yaml
  import opened Inventory

  /** The names in a section of a top-level group. */
  function Names(inv: Doc, group: string, section: string): set<string> {
    SubOrEmpty(SubOrEmpty(inv, group), section).Keys
  }

  function Children(inv: Doc, group: string): set<string> {
    Names(inv, group, "children")
  }

  function Members(inv: Doc, group: string): set<string> {
    Names(inv, group, "hosts")
  }

  /** "all" is the host list, not a group. */
  function Groups(inv: Doc): set<string> {
    inv.Keys - {"all"}
  }

  predicate Edge(inv: Doc, group: string, child: string) {
    child in Children(inv, group)
  }

  predicate HasVars(inv: Doc, group: string) {
    !IsNull(SubOrEmpty(inv, group), "vars")
  }

  /* ---- the forest ---- */

  /** Every child is a group with vars, and the child of one group only. */
  ghost predicate ChildrenAreGroups(inv: Doc) {
    && (forall g, c :: Edge(inv, g, c) ==> g != "all" && c in Groups(inv) && HasVars(inv, c))
    && (forall g, h, c :: Edge(inv, g, c) && Edge(inv, h, c) ==> g == h)
  }

  /** A parent ranks below its children. */
  ghost predicate RankedBy(inv: Doc, rank: string -> nat) {
    forall g, c :: Edge(inv, g, c) ==> rank(g) < rank(c)
  }

  /** The inductive invariant.  That children have vars is what protects them from being dropped
      with their last host. */
  ghost predicate Forest(inv: Doc) {
    ChildrenAreGroups(inv) && exists rank: string -> nat :: RankedBy(inv, rank)
  }

  ghost predicate HostsExist(inv: Doc) {
    forall g | g in Groups(inv) :: Members(inv, g) <= Members(inv, "all")
  }

  ghost predicate Good(data: Stored) {
    Forest(Decode(data)) && HostsExist(Decode(data))
  }

  /** The stored document after an edit. */
  function Next(data: Stored, e: Edit): Stored {
    if e.Save? then Some(e.doc) else data
  }

  lemma ForestWithRank(inv: Doc, rank: string -> nat)
    requires ChildrenAreGroups(inv) && RankedBy(inv, rank)
    ensures Forest(inv)
  {
  }

  /** An edit that adds no child and takes vars from no child keeps the forest. */
  lemma ForestShrinks(inv: Doc, inv': Doc)
    requires Forest(inv)
    requires forall g, c :: Edge(inv', g, c) ==> Edge(inv, g, c) && c in inv' && HasVars(inv', c)
    ensures Forest(inv')
  {
    var rank: string -> nat :| RankedBy(inv, rank);
    ForestWithRank(inv', rank);
  }

  /* ---- how an edit of one group or of all of them is seen ---- */

  lemma ReplaceGroup(inv: Doc, name: string, group: Doc)
    ensures var inv' := inv[name := Map(group)];
      && inv'.Keys == inv.Keys + {name}
      && (forall g | g != name :: Children(inv', g) == Children(inv, g) && Members(inv', g) == Members(inv, g))
      && (forall g | g != name :: HasVars(inv', g) == HasVars(inv, g))
      && Children(inv', name) == SubOrEmpty(group, "children").Keys && Members(inv', name) == SubOrEmpty(group, "hosts").Keys
      && HasVars(inv', name) == !IsNull(group, "vars")
  {
  }

  /** Replacing a group by one with no new child that has vars if the old one had them. */
  lemma ReplaceKeepsForest(inv: Doc, name: string, group: Doc)
    requires Forest(inv)
    requires SubOrEmpty(group, "children").Keys <= Children(inv, name)
    requires HasVars(inv, name) ==> !IsNull(group, "vars")
    ensures Forest(inv[name := Map(group)])
  {
    var inv' := inv[name := Map(group)];
    ReplaceGroup(inv, name, group);
    forall g, c | Edge(inv', g, c)
      ensures Edge(inv, g, c) && c in inv' && HasVars(inv', c)
    {
      assert Edge(inv, g, c);
    }
    ForestShrinks(inv, inv');
  }

  lemma UnlistSees(inv: Doc, section: string, key: string, g: string)
    requires section == "hosts" || section == "children"
    ensures var inv' := UnlistAll(inv, section, key);
      && inv'.Keys == inv.Keys
      && Children(inv', g) == (if section == "children" then Children(inv, g) - {key} else Children(inv, g))
      && Members(inv', g) == (if section == "hosts" then Members(inv, g) - {key} else Members(inv, g))
      && HasVars(inv', g) == HasVars(inv, g)
  {
    assert UnlistAll(inv, section, key).Keys == inv.Keys;
    if g in inv {
      assert UnlistAll(inv, section, key)[g] == Unlist(inv[g], section, key);
    }
  }

  lemma RemoveGroupSees(inv: Doc, name: string, g: string)
    ensures var inv' := inv - {name};
      && inv'.Keys == inv.Keys - {name}
      && Children(inv', g) == (if g == name then {} else Children(inv, g))
      && Members(inv', g) == (if g == name then {} else Members(inv, g))
      && (g != name ==> HasVars(inv', g) == HasVars(inv, g))
  {
  }

  /* ---- creating a group ---- */

  function NewGroup(vars: Doc): Doc {
    map["hosts" := EMPTY, "vars" := Map(vars)]
  }

  lemma EmptyInventoryIsGood()
    ensures Good(None)
  {
    ForestWithRank(map[], x => 0);
  }

  lemma StartDocument()
    ensures var inv: Doc := map["all" := Map(map["hosts" := EMPTY, "children" := EMPTY])];
            Forest(inv) && HostsExist(inv)
  {
    var inv: Doc := map["all" := Map(map["hosts" := EMPTY, "children" := EMPTY])];
    forall g
      ensures Children(inv, g) == {}
    {
    }
    ForestWithRank(inv, x => 0);
  }

  /** A fresh group is nobody's child and has no children. */
  lemma AddFreshGroup(inv: Doc, name: string, vars: Doc)
    requires Forest(inv) && HostsExist(inv) && name !in inv && name != "all"
    ensures var inv' := inv[name := Map(NewGroup(vars))];
            Forest(inv') && HostsExist(inv') && HasVars(inv', name) && forall g :: !Edge(inv', g, name) && !Edge(inv', name, g)
  {
    ReplaceGroup(inv, name, NewGroup(vars));
    ReplaceKeepsForest(inv, name, NewGroup(vars));
    var inv' := inv[name := Map(NewGroup(vars))];
    forall g
      ensures !Edge(inv', g, name) && !Edge(inv', name, g)
    {
      assert Edge(inv, g, name) ==> name in Groups(inv);
      assert Children(inv', name) == {};
      assert g != name ==> Children(inv', g) == Children(inv, g);
    }
  }

  function WithChild(inv: Doc, parent: string, name: string): Doc {
    var group := SubOrEmpty(inv, parent);
    inv[parent := Map(group["children" := Map(SubOrEmpty(group, "children")[name := EMPTY])])]
  }

  lemma WithChildSees(inv: Doc, parent: string, name: string)
    requires parent in inv
    ensures var inv' := WithChild(inv, parent, name);
      && inv'.Keys == inv.Keys
      && (forall g, c :: Edge(inv', g, c) <==> Edge(inv, g, c) || (g == parent && c == name))
      && (forall g :: Members(inv', g) == Members(inv, g) && HasVars(inv', g) == HasVars(inv, g))
  {
    var group := SubOrEmpty(inv, parent);
    ReplaceGroup(inv, parent, group["children" := Map(SubOrEmpty(group, "children")[name := EMPTY])]);
  }

  /** Hanging a childless, parentless group with vars under another group. */
  lemma AddChild(inv: Doc, parent: string, name: string)
    requires Forest(inv) && HostsExist(inv) && parent in Groups(inv) && parent != name
    requires name in Groups(inv) && HasVars(inv, name) && forall g :: !Edge(inv, g, name) && !Edge(inv, name, g)
    ensures Forest(WithChild(inv, parent, name)) && HostsExist(WithChild(inv, parent, name))
  {
    var inv' := WithChild(inv, parent, name);
    WithChildSees(inv, parent, name);
    var rank: string -> nat :| RankedBy(inv, rank);
    var rank': string -> nat := x => if x == name then rank(parent) + 1 else rank(x);
    assert RankedBy(inv', rank');
    ForestWithRank(inv', rank');
  }

  /** An entry "all" put into a document without one; no group can have listed a host. */
  lemma AddAll(inv: Doc, vars: Doc)
    requires Forest(inv) && HostsExist(inv) && "all" !in inv
    ensures var inv' := inv["all" := Map(NewGroup(vars))]; Forest(inv') && HostsExist(inv')
  {
    ReplaceGroup(inv, "all", NewGroup(vars));
    ReplaceKeepsForest(inv, "all", NewGroup(vars));
  }

  lemma AllAsChild(inv: Doc, group: string)
    requires Edge(inv, group, "all")
    ensures !Forest(inv)
  {
  }

  /** The edit hangs the new entry under itself, or hangs an entry "all" under a group. */
  predicate Misplaces(data: Stored, name: string, parent: string) {
    if name == "all" then parent != "" && parent != "all" && Sub(Decode(data), parent).Some?
    else parent == name && name != ""
  }

  /** Creating a group keeps the forest exactly if it is not named as its own parent, which would make
      it its own child, and is not a missing "all" created below a group. */
  lemma CreateGroupKeepsForestExactly(data: Stored, name: string, parent: string, m: Metadata)
    requires Good(data) && CreateGroup(data, name, parent, m).Save?
    ensures Forest(CreateGroup(data, name, parent, m).doc) <==> !Misplaces(data, name, parent)
    ensures Forest(CreateGroup(data, name, parent, m).doc) ==> HostsExist(CreateGroup(data, name, parent, m).doc)
  {
    StartDocument();
    var inv := if data.None? then map["all" := Map(map["hosts" := EMPTY, "children" := EMPTY])] else data.value;
    var vars := WithMetadata(map[], m);
    var inv1 := inv[name := Map(NewGroup(vars))];
    if name == "all" { AddAll(inv, vars); } else { AddFreshGroup(inv, name, vars); }
    if parent != "" && parent != "all" && Sub(inv1, parent).Some? {
      assert CreateGroup(data, name, parent, m).doc == WithChild(inv1, parent, name);
      WithChildSees(inv1, parent, name);
      if name == "all" {
        AllAsChild(WithChild(inv1, parent, name), parent);
      } else if parent != name {
        AddChild(inv1, parent, name);
      } else {
        OwnParent(WithChild(inv1, name, name), name);
      }
    }
  }

  lemma OwnParent(inv: Doc, name: string)
    requires Edge(inv, name, name)
    ensures !Forest(inv)
  {
    forall rank: string -> nat
      ensures !RankedBy(inv, rank)
    {
      if RankedBy(inv, rank) { assert false; }
    }
  }

  /* ---- the other edits ---- */

  lemma DeleteGroupKeeps(data: Stored, name: string)
    requires Good(data)
    ensures Forest(DeleteGroup(data, name).doc)
    ensures HostsExist(DeleteGroup(data, name).doc)
      <==> name != "all" || forall g | g in Groups(Decode(data)) :: Members(Decode(data), g) == {}
  {
    var inv := Decode(data);
    var inv1 := inv - {name};
    var inv' := DeleteGroup(data, name).doc;
    forall g
      ensures inv'.Keys == inv.Keys - {name}
      ensures Children(inv', g) == (if g == name then {} else Children(inv, g)) - {name}
      ensures Members(inv', g) == (if g == name then {} else Members(inv, g))
      ensures g != name ==> HasVars(inv', g) == HasVars(inv, g)
    {
      RemoveGroupSees(inv, name, g);
      UnlistSees(inv1, "children", name, g);
    }
    ForestShrinks(inv, inv');
    if name == "all" {
      assert forall g | g in Groups(inv) :: g in Groups(inv');
    }
  }

  lemma AddHostKeeps(data: Stored, host: string, name: string)
    requires Good(data) && AddHostToGroup(data, host, name).Save?
    ensures Good(Some(AddHostToGroup(data, host, name).doc))
  {
    var inv := Decode(data);
    var group := SubOrEmpty(inv, name);
    var group' := group["hosts" := Map(SubOrEmpty(group, "hosts")[host := EMPTY])];
    var inv' := inv[name := Map(group')];
    ReplaceGroup(inv, name, group');
    assert Members(inv', name) == Members(inv, name) + {host};
    assert host in Members(inv, "all");
    ReplaceKeepsForest(inv, name, group');
  }

  /** Taking a host out of a group, which may drop the group, keeps the forest; from "all" it also
      takes the host itself, and groups that list it are left with a name that does not exist. */
  lemma RemoveHostKeeps(data: Stored, host: string, name: string)
    requires Good(data)
    ensures Forest(RemoveHostFromGroup(data, host, name).doc)
    ensures HostsExist(RemoveHostFromGroup(data, host, name).doc)
      <==> name != "all" || forall g | g in Groups(Decode(data)) :: host !in Members(Decode(data), g)
  {
    var inv := Decode(data);
    var inv' := RemoveHostFromGroup(data, host, name).doc;
    if Sub(inv, name).Some? && Sub(Sub(inv, name).value, "hosts").Some? {
      var group := Sub(inv, name).value;
      var hosts := Sub(group, "hosts").value - {host};
      if hosts == map[] && IsNull(group, "vars") && IsNull(group, "children") {
        DropGroup(inv, name, host);
      } else {
        KeepGroup(inv, name, host);
      }
    } else {
      assert Members(inv, name) == {};
    }
  }

  lemma KeepGroup(inv: Doc, name: string, host: string)
    requires Forest(inv) && HostsExist(inv) && Sub(inv, name).Some? && Sub(Sub(inv, name).value, "hosts").Some?
    ensures var group := Sub(inv, name).value;
            var inv' := inv[name := Map(group["hosts" := Map(Sub(group, "hosts").value - {host})])];
      && Forest(inv')
      && (HostsExist(inv') <==> name != "all" || forall g | g in Groups(inv) :: host !in Members(inv, g))
  {
    var group := Sub(inv, name).value;
    var group' := group["hosts" := Map(Sub(group, "hosts").value - {host})];
    var inv' := inv[name := Map(group')];
    ReplaceGroup(inv, name, group');
    ReplaceKeepsForest(inv, name, group');
    TakenFromAll(inv, inv', name, host);
  }

  lemma DropGroup(inv: Doc, name: string, host: string)
    requires Forest(inv) && HostsExist(inv) && !HasVars(inv, name) && Children(inv, name) == {}
    requires Members(inv, name) <= {host}
    ensures Forest(inv - {name})
    ensures HostsExist(inv - {name}) <==> name != "all" || forall g | g in Groups(inv) :: host !in Members(inv, g)
  {
    var inv' := inv - {name};
    forall g
      ensures inv'.Keys == inv.Keys - {name}
      ensures Children(inv', g) == Children(inv, g)
      ensures Members(inv', g) == if g == name then {} else Members(inv, g)
      ensures g != name ==> HasVars(inv', g) == HasVars(inv, g)
    {
      RemoveGroupSees(inv, name, g);
    }
    ForestShrinks(inv, inv');
    TakenFromAll(inv, inv', name, host);
  }

  /** Only the member lists of one group lost a name. */
  lemma TakenFromAll(inv: Doc, inv': Doc, name: string, host: string)
    requires HostsExist(inv) && Groups(inv') <= Groups(inv) && (name == "all" ==> Groups(inv') == Groups(inv))
    requires Members(inv', name) == Members(inv, name) - {host}
    requires forall g | g != name :: Members(inv', g) == Members(inv, g)
    ensures HostsExist(inv') <==> name != "all" || forall g | g in Groups(inv) :: host !in Members(inv, g)
  {
    if name == "all" {
      if g :| g in Groups(inv) && host in Members(inv, g) {
        assert host in Members(inv', g) && host !in Members(inv', "all");
      }
    }
  }

  lemma MetadataKeeps(data: Stored, name: string, m: Metadata)
    requires Good(data) && UpdateGroupMetadata(data, name, m).Save?
    ensures Good(Some(UpdateGroupMetadata(data, name, m).doc))
  {
    var inv := Decode(data);
    var group := Sub(inv, name).value;
    var group' := group["vars" := Map(WithMetadata(Sub(group, "vars").value, m))];
    ReplaceGroup(inv, name, group');
    var inv' := inv[name := Map(group')];
    assert Members(inv', name) == Members(inv, name);
    ReplaceKeepsForest(inv, name, group');
  }

  /** An edit of the host list itself. */
  lemma HostListKeeps(inv: Doc, hosts: Doc)
    requires Forest(inv) && HostsExist(inv) && Members(inv, "all") <= hosts.Keys
    ensures Good(Some(inv["all" := Map(SubOrEmpty(inv, "all")["hosts" := Map(hosts)])]))
  {
    var all := SubOrEmpty(inv, "all")["hosts" := Map(hosts)];
    var inv' := inv["all" := Map(all)];
    ReplaceGroup(inv, "all", all);
    ReplaceKeepsForest(inv, "all", all);
  }

  lemma CreateHostKeeps(data: Stored, name: string, address: string, m: Metadata, defaultOwner: string)
    requires Good(data) && CreateHost(data, name, address, m, defaultOwner).Save?
    ensures Good(Some(CreateHost(data, name, address, m, defaultOwner).doc))
  {
    var inv := Decode(data);
    var all := SubOrEmpty(inv, "all");
    var m1 := Normalized(m);
    var m2 := if m1.owner == "" then m1.(owner := defaultOwner) else m1;
    HostListKeeps(inv, SubOrEmpty(all, "hosts")[name := Map(WithMetadata(map["ansible_host" := Scalar(address)], m2))]);
  }

  lemma UpdateHostKeeps(data: Stored, name: string, address: string, m: Metadata)
    requires Good(data) && UpdateHost(data, name, address, m).Save?
    ensures Good(Some(UpdateHost(data, name, address, m).doc))
  {
    var inv := Decode(data);
    var all := Sub(inv, "all").value;
    var hosts := Sub(all, "hosts").value;
    HostListKeeps(inv, hosts[name := Map(UpdatedHost(Sub(hosts, name).value, address, m))]);
  }

  lemma DeleteHostKeeps(data: Stored, name: string)
    requires Good(data) && DeleteHost(data, name).Save?
    ensures Good(Some(DeleteHost(data, name).doc))
  {
    var inv := Decode(data);
    var inv' := DeleteHost(data, name).doc;
    forall g
      ensures inv'.Keys == inv.Keys
      ensures Children(inv', g) == Children(inv, g) && Members(inv', g) == Members(inv, g) - {name}
      ensures HasVars(inv', g) == HasVars(inv, g)
    {
      UnlistSees(inv, "hosts", name, g);
    }
    ForestShrinks(inv, inv');
  }

  /* ---- whole runs ---- */

  datatype Op =
    | OpCreateGroup(name: string, parent: string, m: Metadata)
    | OpDeleteGroup(name: string)
    | OpAddHost(host: string, name: string)
    | OpRemoveHost(host: string, name: string)
    | OpGroupMetadata(name: string, m: Metadata)
    | OpCreateHost(name: string, address: string, m: Metadata, defaultOwner: string)
    | OpUpdateHost(name: string, address: string, m: Metadata)
    | OpDeleteHost(name: string)
  {
    /** No group is made its own parent, and "all" is not made a child or edited as a group. */
    predicate Careful() {
      match this
      case OpCreateGroup(name, parent, _) =>
        if name == "all" then parent == "" || parent == "all" else !(parent == name && name != "")
      case OpDeleteGroup(name) => name != "all"
      case OpRemoveHost(_, name) => name != "all"
      case _ => true
    }
  }

  function Perform(data: Stored, op: Op): Edit {
    match op
    case OpCreateGroup(name, parent, m) => CreateGroup(data, name, parent, m)
    case OpDeleteGroup(name) => DeleteGroup(data, name)
    case OpAddHost(host, name) => AddHostToGroup(data, host, name)
    case OpRemoveHost(host, name) => RemoveHostFromGroup(data, host, name)
    case OpGroupMetadata(name, m) => UpdateGroupMetadata(data, name, m)
    case OpCreateHost(name, address, m, owner) => CreateHost(data, name, address, m, owner)
    case OpUpdateHost(name, address, m) => UpdateHost(data, name, address, m)
    case OpDeleteHost(name) => DeleteHost(data, name)
  }

  function Run(data: Stored, ops: seq<Op>): Stored
    decreases |ops|
  {
    if ops == [] then data else Run(Next(data, Perform(data, ops[0])), ops[1..])
  }

  lemma EditKeepsGood(data: Stored, op: Op)
    requires Good(data) && op.Careful()
    ensures Good(Next(data, Perform(data, op)))
  {
    if Perform(data, op).Save? {
      match op
      case OpCreateGroup(name, parent, m) => CreateGroupKeepsForestExactly(data, name, parent, m);
      case OpDeleteGroup(name) => DeleteGroupKeeps(data, name);
      case OpAddHost(host, name) => AddHostKeeps(data, host, name);
      case OpRemoveHost(host, name) => RemoveHostKeeps(data, host, name);
      case OpGroupMetadata(name, m) => MetadataKeeps(data, name, m);
      case OpCreateHost(name, address, m, owner) => CreateHostKeeps(data, name, address, m, owner);
      case OpUpdateHost(name, address, m) => UpdateHostKeeps(data, name, address, m);
      case OpDeleteHost(name) => DeleteHostKeeps(data, name);
    }
  }

  /** From an empty inventory, every run of such edits ends in a forest whose hosts exist. */
  lemma {:induction false} RunsStayGood(data: Stored, ops: seq<Op>)
    requires Good(data) && forall op | op in ops :: op.Careful()
    ensures Good(Run(data, ops))
    decreases |ops|
  {
    if ops != [] {
      EditKeepsGood(data, ops[0]);
      RunsStayGood(Next(data, Perform(data, ops[0])), ops[1..]);
    }
  }
}
