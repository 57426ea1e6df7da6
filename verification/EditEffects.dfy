/** What each edit of the inventory does to every group and every host, and how the listings show it. */
module EditEffects {
  import opened Options
  import opened Yaml
  import opened Inventory
  import opened GroupForest
  import opened GroupTree
  import opened Fields
  import opened ReadBack

  predicate Member(inv: Doc, group: string, host: string) {
    host in Members(inv, group)
  }

  /** There is a mapping of that name at the top. */
  predicate IsEntry(inv: Doc, name: string) {
    Sub(inv, name).Some?
  }

  function VarsOf(inv: Doc, group: string): Doc {
    SubOrEmpty(SubOrEmpty(inv, group), "vars")
  }

  /* ---- what there is after an edit ---- */

  /** A group is hung below its parent if that is another entry than "all", or the new group itself. */
  predicate HangsBelow(inv: Doc, op: Op, g: string, c: string) {
    && op.OpCreateGroup? && g == op.parent && c == op.name && op.parent != "" && op.parent != "all"
    && (IsEntry(inv, op.parent) || op.parent == op.name)
  }

  predicate EdgeAfter(inv: Doc, op: Op, g: string, c: string) {
    || (Edge(inv, g, c) && (op.OpDeleteGroup? ==> g != op.name && c != op.name))
    || HangsBelow(inv, op, g, c)
  }

  predicate MemberAfter(inv: Doc, op: Op, g: string, h: string) {
    match op
    case OpDeleteGroup(name) => Member(inv, g, h) && g != name
    case OpAddHost(host, name) => Member(inv, g, h) || (g == name && h == host)
    case OpRemoveHost(host, name) => Member(inv, g, h) && !(g == name && h == host)
    case OpCreateHost(name, _, _, _) => Member(inv, g, h) || (g == "all" && h == name)
    case OpDeleteHost(name) => Member(inv, g, h) && h != name
    case _ => Member(inv, g, h)
  }

  /** Taking the last host out of a group without vars and children drops the group. */
  predicate Drops(inv: Doc, op: Op) {
    && op.OpRemoveHost? && IsEntry(inv, op.name) && Sub(SubOrEmpty(inv, op.name), "hosts").Some?
    && Members(inv, op.name) <= {op.host}
    && IsNull(SubOrEmpty(inv, op.name), "vars") && IsNull(SubOrEmpty(inv, op.name), "children")
  }

  predicate EntryAfter(data: Stored, op: Op, g: string) {
    var inv := Decode(data);
    match op
    case OpCreateGroup(name, _, _) => IsEntry(inv, g) || g == name || (data.None? && g == "all")
    case OpDeleteGroup(name) => IsEntry(inv, g) && g != name
    case OpAddHost(_, name) => IsEntry(inv, g) || g == name
    case OpRemoveHost(_, name) => IsEntry(inv, g) && !(g == name && Drops(inv, op))
    case OpCreateHost(_, _, _, _) => IsEntry(inv, g) || g == "all"
    case _ => IsEntry(inv, g)
  }

  /** The edit is refused. */
  predicate Refused(data: Stored, op: Op) {
    var inv := Decode(data);
    match op
    case OpCreateGroup(name, _, _) => name in inv || (data.None? && name == "all")
    case OpDeleteGroup(_) => false
    case OpAddHost(host, _) => !Member(inv, "all", host)
    case OpRemoveHost(_, _) => false
    case OpGroupMetadata(name, _) => Sub(SubOrEmpty(inv, name), "vars").None?
    case OpCreateHost(name, _, _, _) => name == "" || ' ' in name || Member(inv, "all", name)
    case OpUpdateHost(name, _, _) => Sub(SubOrEmpty(SubOrEmpty(inv, "all"), "hosts"), name).None?
    case OpDeleteHost(name) => Sub(SubOrEmpty(inv, "all"), "hosts").Some? && !Member(inv, "all", name)
  }

  /** And this is what the refusal says. */
  function Complaint(data: Stored, op: Op): Error
    requires Refused(data, op)
  {
    var inv := Decode(data);
    match op
    case OpCreateGroup(_, _, _) => AlreadyExists
    case OpCreateHost(name, _, _, _) => if name == "" || ' ' in name then InvalidName else AlreadyExists
    case OpGroupMetadata(name, _) => if IsEntry(inv, name) then SelfDeadlock else NotFound
    case OpDeleteHost(_) => NotFound
    case _ =>
      if !IsEntry(inv, "all") then MissingAll
      else if Sub(SubOrEmpty(inv, "all"), "hosts").None? then MissingHosts
      else NotFound
  }

  lemma RefusedExactly(data: Stored, op: Op)
    ensures Perform(data, op).Refuse? <==> Refused(data, op)
    ensures Refused(data, op) ==> Perform(data, op).error == Complaint(data, op)
  {
  }

  function VarsAfter(inv: Doc, op: Op, g: string): Doc {
    match op
    case OpCreateGroup(name, _, m) => if g == name then WithMetadata(map[], m) else VarsOf(inv, g)
    case OpDeleteGroup(name) => if g == name then map[] else VarsOf(inv, g)
    case OpGroupMetadata(name, m) => if g == name then WithMetadata(VarsOf(inv, g), m) else VarsOf(inv, g)
    case _ => VarsOf(inv, g)
  }

  /** What an edit makes of one group, as to one child or host. */
  predicate Effect(data: Stored, op: Op, inv': Doc, g: string, x: string) {
    && (Edge(inv', g, x) <==> EdgeAfter(Decode(data), op, g, x))
    && (Member(inv', g, x) <==> MemberAfter(Decode(data), op, g, x))
    && (IsEntry(inv', g) <==> EntryAfter(data, op, g))
    && VarsOf(inv', g) == VarsAfter(Decode(data), op, g)
  }

  lemma ReplacedGroup(inv: Doc, name: string, group: Doc, g: string)
    ensures var inv' := inv[name := Map(group)];
      && (g != name ==> SubOrEmpty(inv', g) == SubOrEmpty(inv, g) && (IsEntry(inv', g) <==> IsEntry(inv, g)))
      && (g == name ==> SubOrEmpty(inv', g) == group && IsEntry(inv', g))
  {
  }

  /** The document a creation starts from. */
  function Started(data: Stored): Doc {
    if data.None? then map["all" := Map(map["hosts" := EMPTY, "children" := EMPTY])] else data.value
  }

  lemma StartedSees(data: Stored, g: string)
    ensures Children(Started(data), g) == Children(Decode(data), g) && Members(Started(data), g) == Members(Decode(data), g)
    ensures VarsOf(Started(data), g) == VarsOf(Decode(data), g)
    ensures IsEntry(Started(data), g) <==> IsEntry(Decode(data), g) || (data.None? && g == "all")
  {
  }

  /** A new entry, before it is hung below another. */
  lemma EntryAdded(inv: Doc, name: string, vars: Doc, g: string)
    requires name !in inv
    ensures var inv' := inv[name := Map(NewGroup(vars))];
      && Children(inv', g) == Children(inv, g) && Members(inv', g) == Members(inv, g)
      && VarsOf(inv', g) == (if g == name then vars else VarsOf(inv, g))
      && (IsEntry(inv', g) <==> IsEntry(inv, g) || g == name)
  {
    ReplacedGroup(inv, name, NewGroup(vars), g);
  }

  lemma EntryHung(inv: Doc, parent: string, name: string, g: string)
    requires IsEntry(inv, parent)
    ensures var inv' := WithChild(inv, parent, name);
      && Children(inv', g) == (if g == parent then Children(inv, g) + {name} else Children(inv, g))
      && Members(inv', g) == Members(inv, g) && VarsOf(inv', g) == VarsOf(inv, g)
      && (IsEntry(inv', g) <==> IsEntry(inv, g))
  {
    var group := SubOrEmpty(inv, parent);
    ReplacedGroup(inv, parent, group["children" := Map(SubOrEmpty(group, "children")[name := EMPTY])], g);
  }

  lemma CreatedDoc(data: Stored, name: string, parent: string, m: Metadata) returns (inv1: Doc)
    requires CreateGroup(data, name, parent, m).Save?
    ensures name !in Started(data) && inv1 == Started(data)[name := Map(NewGroup(WithMetadata(map[], m)))]
    ensures var hung := parent != "" && parent != "all" && IsEntry(inv1, parent);
            CreateGroup(data, name, parent, m).doc == if hung then WithChild(inv1, parent, name) else inv1
  {
    inv1 := Started(data)[name := Map(NewGroup(WithMetadata(map[], m)))];
  }

  /** The new entry, seen from the document before the edit. */
  lemma EntrySees(data: Stored, name: string, vars: Doc, g: string)
    requires name !in Started(data)
    ensures var inv1 := Started(data)[name := Map(NewGroup(vars))];
      && Children(inv1, g) == Children(Decode(data), g) && Members(inv1, g) == Members(Decode(data), g)
      && VarsOf(inv1, g) == (if g == name then vars else VarsOf(Decode(data), g))
      && (IsEntry(inv1, g) <==> IsEntry(Decode(data), g) || (data.None? && g == "all") || g == name)
  {
    StartedSees(data, g);
    EntryAdded(Started(data), name, vars, g);
  }

  lemma CreatedSees(data: Stored, name: string, parent: string, vars: Doc, doc: Doc, hung: bool, g: string)
    requires name !in Started(data)
    requires var inv1 := Started(data)[name := Map(NewGroup(vars))];
      && hung == (parent != "" && parent != "all" && IsEntry(inv1, parent))
      && doc == if hung then WithChild(inv1, parent, name) else inv1
    ensures Children(doc, g) == Children(Decode(data), g) + (if hung && g == parent then {name} else {})
    ensures Members(doc, g) == Members(Decode(data), g)
    ensures VarsOf(doc, g) == (if g == name then vars else VarsOf(Decode(data), g))
    ensures IsEntry(doc, g) <==> IsEntry(Decode(data), g) || (data.None? && g == "all") || g == name
    ensures hung <==> parent != "" && parent != "all" && (IsEntry(Decode(data), parent) || parent == name)
  {
    EntrySees(data, name, vars, g);
    EntrySees(data, name, vars, parent);
    if hung { EntryHung(Started(data)[name := Map(NewGroup(vars))], parent, name, g); }
  }

  lemma SeenEffect(data: Stored, name: string, parent: string, m: Metadata, doc: Doc, hung: bool, g: string, x: string)
    requires Children(doc, g) == Children(Decode(data), g) + (if hung && g == parent then {name} else {})
    requires Members(doc, g) == Members(Decode(data), g)
    requires VarsOf(doc, g) == (if g == name then WithMetadata(map[], m) else VarsOf(Decode(data), g))
    requires IsEntry(doc, g) <==> IsEntry(Decode(data), g) || (data.None? && g == "all") || g == name
    requires hung <==> parent != "" && parent != "all" && (IsEntry(Decode(data), parent) || parent == name)
    ensures Effect(data, OpCreateGroup(name, parent, m), doc, g, x)
  {
  }

  lemma CreatedEffect(data: Stored, name: string, parent: string, m: Metadata, doc: Doc, hung: bool, g: string, x: string)
    requires name !in Started(data)
    requires var inv1 := Started(data)[name := Map(NewGroup(WithMetadata(map[], m)))];
      && hung == (parent != "" && parent != "all" && IsEntry(inv1, parent))
      && doc == if hung then WithChild(inv1, parent, name) else inv1
    ensures Effect(data, OpCreateGroup(name, parent, m), doc, g, x)
  {
    CreatedSees(data, name, parent, WithMetadata(map[], m), doc, hung, g);
    SeenEffect(data, name, parent, m, doc, hung, g, x);
  }

  lemma CreateGroupEffect(data: Stored, name: string, parent: string, m: Metadata, g: string, x: string)
    requires CreateGroup(data, name, parent, m).Save?
    ensures Effect(data, OpCreateGroup(name, parent, m), CreateGroup(data, name, parent, m).doc, g, x)
  {
    var inv1 := CreatedDoc(data, name, parent, m);
    CreatedEffect(data, name, parent, m, CreateGroup(data, name, parent, m).doc,
                  parent != "" && parent != "all" && IsEntry(inv1, parent), g, x);
  }

  lemma UnlistedGroup(inv: Doc, section: string, key: string, g: string)
    ensures var inv' := UnlistAll(inv, section, key);
      && (IsEntry(inv', g) <==> IsEntry(inv, g))
      && (forall other | other != section :: SubOrEmpty(SubOrEmpty(inv', g), other) == SubOrEmpty(SubOrEmpty(inv, g), other))
      && SubOrEmpty(SubOrEmpty(inv', g), section) == SubOrEmpty(SubOrEmpty(inv, g), section) - {key}
  {
    var inv' := UnlistAll(inv, section, key);
    if g in inv { assert inv'[g] == Unlist(inv[g], section, key); }
  }

  lemma DeleteGroupEffect(data: Stored, name: string, g: string, x: string)
    ensures Effect(data, OpDeleteGroup(name), DeleteGroup(data, name).doc, g, x)
  {
    var inv1 := Decode(data) - {name};
    UnlistedGroup(inv1, "children", name, g);
    assert g != name ==> SubOrEmpty(inv1, g) == SubOrEmpty(Decode(data), g);
  }

  lemma AddHostEffect(data: Stored, host: string, name: string, g: string, x: string)
    requires AddHostToGroup(data, host, name).Save?
    ensures Effect(data, OpAddHost(host, name), AddHostToGroup(data, host, name).doc, g, x)
  {
    var group := SubOrEmpty(Decode(data), name);
    ReplacedGroup(Decode(data), name, group["hosts" := Map(SubOrEmpty(group, "hosts")[host := EMPTY])], g);
  }

  lemma RemoveHostEffect(data: Stored, host: string, name: string, g: string, x: string)
    ensures Effect(data, OpRemoveHost(host, name), RemoveHostFromGroup(data, host, name).doc, g, x)
  {
    var inv := Decode(data);
    if Sub(inv, name).Some? && Sub(Sub(inv, name).value, "hosts").Some? {
      var group := Sub(inv, name).value;
      var hosts := Sub(group, "hosts").value - {host};
      assert hosts.Keys == Members(inv, name) - {host};
      assert hosts == map[] <==> hosts.Keys == {};
      ReplacedGroup(inv, name, group["hosts" := Map(hosts)], g);
    }
  }

  lemma MetadataEffect(data: Stored, name: string, m: Metadata, g: string, x: string)
    requires UpdateGroupMetadata(data, name, m).Save?
    ensures Effect(data, OpGroupMetadata(name, m), UpdateGroupMetadata(data, name, m).doc, g, x)
  {
    var group := Sub(Decode(data), name).value;
    ReplacedGroup(Decode(data), name, group["vars" := Map(WithMetadata(Sub(group, "vars").value, m))], g);
  }

  lemma HostListReplaced(inv: Doc, hosts: Doc, g: string)
    ensures var inv' := inv["all" := Map(SubOrEmpty(inv, "all")["hosts" := Map(hosts)])];
      && Children(inv', g) == Children(inv, g) && VarsOf(inv', g) == VarsOf(inv, g)
      && Members(inv', g) == (if g == "all" then hosts.Keys else Members(inv, g))
      && (IsEntry(inv', g) <==> IsEntry(inv, g) || g == "all")
  {
    ReplacedGroup(inv, "all", SubOrEmpty(inv, "all")["hosts" := Map(hosts)], g);
  }

  lemma CreateHostEffect(data: Stored, name: string, address: string, m: Metadata, owner: string, g: string, x: string)
    requires CreateHost(data, name, address, m, owner).Save?
    ensures Effect(data, OpCreateHost(name, address, m, owner), CreateHost(data, name, address, m, owner).doc, g, x)
  {
    var hosts := SubOrEmpty(SubOrEmpty(CreateHost(data, name, address, m, owner).doc, "all"), "hosts");
    HostListReplaced(Decode(data), hosts, g);
  }

  lemma UpdateHostEffect(data: Stored, name: string, address: string, m: Metadata, g: string, x: string)
    requires UpdateHost(data, name, address, m).Save?
    ensures Effect(data, OpUpdateHost(name, address, m), UpdateHost(data, name, address, m).doc, g, x)
  {
    var hosts := SubOrEmpty(SubOrEmpty(UpdateHost(data, name, address, m).doc, "all"), "hosts");
    HostListReplaced(Decode(data), hosts, g);
  }

  lemma DeleteHostEffect(data: Stored, name: string, g: string, x: string)
    requires DeleteHost(data, name).Save?
    ensures Effect(data, OpDeleteHost(name), DeleteHost(data, name).doc, g, x)
  {
    UnlistedGroup(Decode(data), "hosts", name, g);
  }

  /** Every edit that is saved has exactly this effect: which groups there are, which is whose child,
      who is a member of what, and the vars of each. */
  lemma EditsExactly(data: Stored, op: Op, g: string, x: string)
    requires Perform(data, op).Save?
    ensures Effect(data, op, Perform(data, op).doc, g, x)
  {
    match op
    case OpCreateGroup(name, parent, m) => CreateGroupEffect(data, name, parent, m, g, x);
    case OpDeleteGroup(name) => DeleteGroupEffect(data, name, g, x);
    case OpAddHost(host, name) => AddHostEffect(data, host, name, g, x);
    case OpRemoveHost(host, name) => RemoveHostEffect(data, host, name, g, x);
    case OpGroupMetadata(name, m) => MetadataEffect(data, name, m, g, x);
    case OpCreateHost(name, address, m, owner) => CreateHostEffect(data, name, address, m, owner, g, x);
    case OpUpdateHost(name, address, m) => UpdateHostEffect(data, name, address, m, g, x);
    case OpDeleteHost(name) => DeleteHostEffect(data, name, g, x);
  }

  /* ---- as listed ---- */

  /** The groups listed after a careful edit of a good inventory are exactly those there are, each once,
      with exactly the hosts and children the edit left. */
  lemma EditsShowInGroups(data: Stored, op: Op, gs: seq<InventoryGroup>)
    requires Good(data) && op.Careful() && Perform(data, op).Save? && GroupListing(gs, Perform(data, op).doc)
    ensures forall n :: (exists g :: g in gs && g.name == n) <==> n != "all" && EntryAfter(data, op, n)
    ensures forall g, c | g in gs :: c in g.children <==> EdgeAfter(Decode(data), op, g.name, c)
    ensures forall g, h | g in gs :: h in g.hosts <==> MemberAfter(Decode(data), op, g.name, h)
  {
    var inv' := Perform(data, op).doc;
    EditKeepsGood(data, op);
    GoodListing(gs, inv');
    forall n
      ensures (exists g :: g in gs && g.name == n) <==> n != "all" && EntryAfter(data, op, n)
    {
      EditsExactly(data, op, n, "");
      NamesListed(gs, inv', n);
    }
    forall g, x | g in gs
      ensures x in g.children <==> EdgeAfter(Decode(data), op, g.name, x)
      ensures x in g.hosts <==> MemberAfter(Decode(data), op, g.name, x)
    {
      EditsExactly(data, op, g.name, x);
      ListedContents(gs, inv', g, x);
    }
  }

  lemma NamesListed(gs: seq<InventoryGroup>, inv: Doc, n: string)
    requires ListsGroups(gs, inv - {"all"})
    ensures (exists g :: g in gs && g.name == n) <==> n != "all" && IsEntry(inv, n)
  {
    if g :| g in gs && g.name == n { ListedGroup(gs, inv, g); }
    if n != "all" && IsEntry(inv, n) {
      assert Sub(inv - {"all"}, n).Some?;
      var i :| 0 <= i < |gs| && gs[i].name == n;
      assert gs[i] in gs;
    }
  }

  lemma ListedContents(gs: seq<InventoryGroup>, inv: Doc, g: InventoryGroup, x: string)
    requires ListsGroups(gs, inv - {"all"}) && g in gs
    ensures x in g.children <==> Edge(inv, g.name, x)
    ensures x in g.hosts <==> Member(inv, g.name, x)
  {
    var i :| 0 <= i < |gs| && gs[i] == g;
    assert Describes(gs[i], inv - {"all"});
    assert SubOrEmpty(inv - {"all"}, g.name) == SubOrEmpty(inv, g.name);
  }

  /** And each host listed names exactly the groups it is then in. */
  lemma EditsShowInHosts(data: Stored, op: Op, hs: seq<InventoryHost>)
    requires Good(data) && op.Careful() && Perform(data, op).Save? && HostListing(hs, Perform(data, op).doc)
    ensures forall n :: (exists h :: h in hs && h.name == n) <==> MemberAfter(Decode(data), op, "all", n)
    ensures forall h, g | h in hs :: g in h.groups <==>
              g != "all" && EntryAfter(data, op, g) && MemberAfter(Decode(data), op, g, h.name)
  {
    var inv' := Perform(data, op).doc;
    EditKeepsGood(data, op);
    forall n
      ensures (exists h :: h in hs && h.name == n) <==> MemberAfter(Decode(data), op, "all", n)
    {
      EditsExactly(data, op, "all", n);
      HostsListed(hs, inv', n);
    }
    forall h, g | h in hs
      ensures g in h.groups <==> g != "all" && EntryAfter(data, op, g) && MemberAfter(Decode(data), op, g, h.name)
    {
      EditsExactly(data, op, g, h.name);
      ListedHost(hs, inv', h);
    }
  }

  lemma HostsListed(hs: seq<InventoryHost>, inv: Doc, n: string)
    requires HostListing(hs, inv)
    ensures (exists h :: h in hs && h.name == n) <==> Member(inv, "all", n)
  {
    if Member(inv, "all", n) {
      var i :| 0 <= i < |hs| && hs[i].name == n;
      assert hs[i] in hs;
    }
    if h :| h in hs && h.name == n {
      var i :| 0 <= i < |hs| && hs[i] == h;
    }
  }

  /** And each group, edited or not, is listed with the variables and metadata the edit left it. */
  lemma EditsShowInFields(data: Stored, op: Op, gs: seq<InventoryGroup>, defaultOwner: string, name: string)
    returns (g: InventoryGroup)
    requires Perform(data, op).Save? && FullListing(gs, Perform(data, op).doc, defaultOwner)
    requires name != "all" && EntryAfter(data, op, name)
    ensures g in gs && g.name == name
    ensures g.fields == WithDefaultOwner(ReadFields(VarsAfter(Decode(data), op, name), false), defaultOwner)
  {
    EditsExactly(data, op, name, "");
    g := ListedGroupFields(gs, Perform(data, op).doc, name, defaultOwner);
  }

  /** A created group is listed with exactly the metadata it was created with, and no other variables. */
  lemma CreatedGroupReadsBack(data: Stored, name: string, parent: string, m: Metadata, defaultOwner: string,
                              doc: Doc, gs: seq<InventoryGroup>) returns (g: InventoryGroup)
    requires name != "all" && CreateGroup(data, name, parent, m) == Save(doc) && FullListing(gs, doc, defaultOwner)
    ensures g in gs && g.name == name && g.fields == Fields("", map[], OwnedBy(m, defaultOwner))
  {
    var op := OpCreateGroup(name, parent, m);
    g := EditsShowInFields(data, op, gs, defaultOwner, name);
    OnlyMetadata(m, defaultOwner);
  }

  lemma OnlyMetadata(m: Metadata, defaultOwner: string)
    ensures WithDefaultOwner(ReadFields(WithMetadata(map[], m), false), defaultOwner) == Fields("", map[], OwnedBy(m, defaultOwner))
  {
    MetadataReadsBack(map[], m);
    GroupFieldsReadBack(map[], m);
  }
}
