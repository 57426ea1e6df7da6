/** What is written about a host or a group is what the listings show, until it is written again. */
module ReadBack {
  import opened Yaml
  import opened Fields
  import opened Inventory
  import opened GroupForest
  import opened GroupTree

  function OwnedBy(m: Metadata, defaultOwner: string): Metadata {
    if m.owner == "" then m.(owner := defaultOwner) else m
  }

  /** Variables of a host without metadata, and the metadata added to them. */
  lemma HostFieldsReadBack(d: Doc, m: Metadata)
    requires forall k | k in d :: !OwnKey(k)
    ensures ReadFields(WithMetadata(d, m), true) == Fields(StringAt(d, "ansible_host"), d - {"ansible_host"}, m)
  {
    var all := WithMetadata(d, m);
    MetadataReadsBack(d, m);
    assert !OwnKey("ansible_host") by { assert "ansible_host"[0] == 'a' && "dd_ui_"[0] == 'd'; }
    OthersKept(d, m, "ansible_host");
    OtherVars(d, m);
  }

  lemma OtherVars(d: Doc, m: Metadata)
    requires forall k | k in d :: !OwnKey(k)
    ensures ReadFields(WithMetadata(d, m), true).vars == d - {"ansible_host"}
  {
    var all, kept := WithMetadata(d, m), d - {"ansible_host"};
    forall k
      ensures k in all && !IsField(k, true) <==> k in kept
      ensures k in kept ==> all[k] == kept[k]
    {
      if OwnKey(k) { OnlyFieldsAreOwn(d, m, k); } else { OthersKept(d, m, k); }
      assert k in METADATA_KEYS ==> OwnKey(k);
    }
  }

  lemma OnlyFieldsAreOwn(d: Doc, m: Metadata, k: string)
    requires k !in d
    ensures k in WithMetadata(d, m) ==> k in METADATA_KEYS
  {
    if forall f | f in FieldsOf(m) :: f.key != k { PutAllElsewhere(d, FieldsOf(m), k); }
  }

  lemma ListedFields(hs: seq<InventoryHost>, inv: Doc, name: string, defaultOwner: string) returns (h: InventoryHost)
    requires HostListing(hs, inv) && HostFieldsRead(hs, inv, defaultOwner) && name in Members(inv, "all")
    ensures h in hs && h.name == name
    ensures h.fields == WithDefaultOwner(ReadFields(HostVars(inv, name), true), defaultOwner)
  {
    var i :| 0 <= i < |hs| && hs[i].name == name;
    h := hs[i];
    FieldsAt(hs, inv, defaultOwner, i);
  }

  lemma {:induction false} FieldsAt(hs: seq<InventoryHost>, inv: Doc, defaultOwner: string, i: nat)
    requires HostFieldsRead(hs, inv, defaultOwner) && i < |hs|
    ensures hs[i].fields == WithDefaultOwner(ReadFields(HostVars(inv, hs[i].name), true), defaultOwner)
    decreases |hs|
  {
    if i < |hs| - 1 { FieldsAt(hs[..|hs| - 1], inv, defaultOwner, i); }
  }

  lemma HostPut(inv: Doc, name: string, host: Doc)
    ensures var all := SubOrEmpty(inv, "all");
            var inv' := inv["all" := Map(all["hosts" := Map(SubOrEmpty(all, "hosts")[name := Map(host)])])];
            HostVars(inv', name) == host && name in Members(inv', "all")
  {
  }

  /** A created host is listed with the address and all the metadata it was created with. */
  lemma CreatedHostReadsBack(data: Stored, name: string, address: string, m: Metadata, defaultOwner: string,
                             doc: Doc, hs: seq<InventoryHost>)
    requires CreateHost(data, name, address, m, defaultOwner) == Save(doc)
    requires HostListing(hs, doc) && HostFieldsRead(hs, doc, defaultOwner)
    ensures exists h :: h in hs && h.name == name && h.fields == Fields(address, map[], OwnedBy(Normalized(m), defaultOwner))
  {
    var d: Doc := map["ansible_host" := Scalar(address)];
    var written := OwnedBy(Normalized(m), defaultOwner);
    HostPut(Decode(data), name, WithMetadata(d, written));
    var h := ListedFields(hs, doc, name, defaultOwner);
    CreatedFields(address, written);
  }

  lemma CreatedFields(address: string, m: Metadata)
    ensures ReadFields(WithMetadata(map["ansible_host" := Scalar(address)], m), true) == Fields(address, map[], m)
  {
    var d: Doc := map["ansible_host" := Scalar(address)];
    assert !OwnKey("ansible_host") by { assert "ansible_host"[0] == 'a' && "dd_ui_"[0] == 'd'; }
    HostFieldsReadBack(d, m);
    assert d - {"ansible_host"} == map[];
  }

  lemma UpdatedFields(old': Doc, address: string, m: Metadata)
    ensures ReadFields(UpdatedHost(old', address, m), true) ==
              Fields(if address != "" then address else StringAt(old', "ansible_host"),
                     map k | k in old' && !OwnKey(k) && k != "ansible_host" :: old'[k],
                     Normalized(m))
  {
    var put := Put(old', address != "", "ansible_host", Scalar(address));
    var d: Doc := map k | k in put && !OwnKey(k) :: put[k];
    HostFieldsReadBack(d, Normalized(m));
    ClearedVars(old', address);
  }

  /** Clearing the program's own keys after setting the address. */
  lemma ClearedVars(old': Doc, address: string)
    ensures var put := Put(old', address != "", "ansible_host", Scalar(address));
            var d: Doc := map k | k in put && !OwnKey(k) :: put[k];
      && StringAt(d, "ansible_host") == (if address != "" then address else StringAt(old', "ansible_host"))
      && d - {"ansible_host"} == map k | k in old' && !OwnKey(k) && k != "ansible_host" :: old'[k]
  {
    assert !OwnKey("ansible_host") by { assert "ansible_host"[0] == 'a' && "dd_ui_"[0] == 'd'; }
  }

  /** An updated host is listed with exactly the new metadata, with the new address if one was given
      and the old one otherwise, and with its other variables as they were. */
  lemma UpdatedHostReadsBack(data: Stored, name: string, address: string, m: Metadata, defaultOwner: string,
                             doc: Doc, hs: seq<InventoryHost>)
    requires UpdateHost(data, name, address, m) == Save(doc)
    requires HostListing(hs, doc) && HostFieldsRead(hs, doc, defaultOwner)
    ensures var old' := HostVars(Decode(data), name);
            exists h :: h in hs && h.name == name
              && h.fields.addr == (if address != "" then address else StringAt(old', "ansible_host"))
              && h.fields.metadata == OwnedBy(Normalized(m), defaultOwner)
              && h.fields.vars == map k | k in old' && !OwnKey(k) && k != "ansible_host" :: old'[k]
  {
    var old' := HostVars(Decode(data), name);
    HostPut(Decode(data), name, UpdatedHost(old', address, m));
    var h := ListedFields(hs, doc, name, defaultOwner);
    UpdatedFields(old', address, m);
  }

  /* ---- groups ---- */

  lemma {:induction false} GroupFieldsAt(gs: seq<InventoryGroup>, d: Doc, defaultOwner: string, i: nat)
    requires GroupFieldsRead(gs, d, defaultOwner) && i < |gs|
    ensures gs[i].fields ==
              WithDefaultOwner(ReadFields(SubOrEmpty(SubOrEmpty(d, gs[i].name), "vars"), false), defaultOwner)
    decreases |gs|
  {
    if i < |gs| - 1 { GroupFieldsAt(gs[..|gs| - 1], d, defaultOwner, i); }
  }

  lemma FieldsIn(gs: seq<InventoryGroup>, d: Doc, name: string, defaultOwner: string) returns (g: InventoryGroup)
    requires ListsGroups(gs, d) && GroupFieldsRead(gs, d, defaultOwner) && Sub(d, name).Some?
    ensures g in gs && g.name == name
    ensures g.fields == WithDefaultOwner(ReadFields(SubOrEmpty(SubOrEmpty(d, name), "vars"), false), defaultOwner)
  {
    var i :| 0 <= i < |gs| && gs[i].name == name;
    GroupFieldsAt(gs, d, defaultOwner, i);
    g := gs[i];
  }

  lemma TopLevelPart(gs: seq<InventoryGroup>, inv: Doc, defaultOwner: string) returns (top: seq<InventoryGroup>)
    requires FullListing(gs, inv, defaultOwner)
    ensures top <= gs && ListsGroups(top, inv - {"all"}) && GroupFieldsRead(top, inv - {"all"}, defaultOwner)
  {
    var k :| 0 <= k <= |gs|
      && ListsGroups(gs[..k], inv - {"all"}) && GroupFieldsRead(gs[..k], inv - {"all"}, defaultOwner)
      && ListsGroups(gs[k..], NestedGroups(inv)) && GroupFieldsRead(gs[k..], NestedGroups(inv), defaultOwner);
    top := gs[..k];
  }

  lemma ListedGroupFields(gs: seq<InventoryGroup>, inv: Doc, name: string, defaultOwner: string) returns (g: InventoryGroup)
    requires FullListing(gs, inv, defaultOwner) && name != "all" && Sub(inv, name).Some?
    ensures g in gs && g.name == name
    ensures g.fields == WithDefaultOwner(ReadFields(SubOrEmpty(SubOrEmpty(inv, name), "vars"), false), defaultOwner)
  {
    var top := TopLevelPart(gs, inv, defaultOwner);
    TopSame(inv, name);
    g := FieldsIn(top, inv - {"all"}, name, defaultOwner);
  }

  lemma TopSame(inv: Doc, name: string)
    requires name != "all"
    ensures Sub(inv - {"all"}, name) == Sub(inv, name) && SubOrEmpty(inv - {"all"}, name) == SubOrEmpty(inv, name)
  {
  }

  /** Metadata of a group is written over what it has; all its other variables stay. */
  lemma GroupFieldsReadBack(d: Doc, m: Metadata)
    ensures ReadFields(WithMetadata(d, m), false) == Fields("", ReadFields(d, false).vars, Merged(ReadMetadata(d), m))
  {
    MetadataMerges(d, m);
    var all := WithMetadata(d, m);
    forall k | k !in METADATA_KEYS
      ensures (k in all <==> k in d) && (k in d ==> all[k] == d[k])
    {
      NoFieldHas(m, k);
      PutAllElsewhere(d, FieldsOf(m), k);
    }
  }

  lemma NoFieldHas(m: Metadata, k: string)
    requires k !in METADATA_KEYS
    ensures forall f | f in FieldsOf(m) :: f.key != k
  {
  }

  lemma UpdatedVars(data: Stored, name: string, m: Metadata, doc: Doc)
    requires name != "all" && UpdateGroupMetadata(data, name, m) == Save(doc)
    ensures Sub(doc, name).Some?
    ensures SubOrEmpty(SubOrEmpty(doc, name), "vars") == WithMetadata(SubOrEmpty(SubOrEmpty(Decode(data), name), "vars"), m)
  {
  }

  /** An updated group is listed with the new metadata where there is any and the old elsewhere, and
      with its other variables as they were. */
  lemma UpdatedGroupReadsBack(data: Stored, name: string, m: Metadata, defaultOwner: string,
                              doc: Doc, gs: seq<InventoryGroup>)
    requires name != "all" && UpdateGroupMetadata(data, name, m) == Save(doc) && FullListing(gs, doc, defaultOwner)
    ensures var old' := SubOrEmpty(SubOrEmpty(Decode(data), name), "vars");
            exists g :: g in gs && g.name == name
              && g.fields == Fields("", ReadFields(old', false).vars, OwnedBy(Merged(ReadMetadata(old'), m), defaultOwner))
  {
    var old' := SubOrEmpty(SubOrEmpty(Decode(data), name), "vars");
    GroupFieldsReadBack(old', m);
    UpdatedVars(data, name, m, doc);
    var g := ListedGroupFields(gs, doc, name, defaultOwner);
  }

  /* ---- edits that are not about a host ---- */

  /** The edit writes the host's own entry. */
  predicate Writes(op: Op, host: string) {
    || (op.OpCreateHost? && op.name == host) || (op.OpUpdateHost? && op.name == host)
    || (op.OpDeleteHost? && op.name == host)
  }

  /** The edit replaces the host's entry as if "all" were a group, or drops "all". */
  predicate Erases(op: Op, host: string) {
    || (op.OpAddHost? && op.host == host && op.name == "all")
    || (op.OpRemoveHost? && op.host == host && op.name == "all")
    || (op.OpDeleteGroup? && op.name == "all")
  }

  lemma HostVarsElsewhere(inv: Doc, inv': Doc, host: string)
    requires SubOrEmpty(SubOrEmpty(inv', "all"), "hosts") == SubOrEmpty(SubOrEmpty(inv, "all"), "hosts")
    ensures HostVars(inv', host) == HostVars(inv, host)
  {
  }

  lemma CreateGroupKeepsHost(data: Stored, name: string, parent: string, m: Metadata, host: string)
    requires CreateGroup(data, name, parent, m).Save?
    ensures HostVars(CreateGroup(data, name, parent, m).doc, host) == HostVars(Decode(data), host)
  {
    var start: Doc := map["all" := Map(map["hosts" := EMPTY, "children" := EMPTY])];
    var inv := if data.None? then start else data.value;
    var inv1 := inv[name := Map(NewGroup(WithMetadata(map[], m)))];
    assert HostVars(inv, host) == HostVars(Decode(data), host);
    assert HostVars(inv1, host) == HostVars(inv, host);
  }

  lemma UnlistKeepsHost(inv: Doc, section: string, key: string, host: string)
    requires section == "children" || (section == "hosts" && key != host)
    ensures HostVars(UnlistAll(inv, section, key), host) == HostVars(inv, host)
  {
    var inv' := UnlistAll(inv, section, key);
    if "all" in inv {
      assert inv'["all"] == Unlist(inv["all"], section, key);
      assert "hosts" != "children" by { assert |"hosts"| != |"children"|; }
    }
  }

  lemma AddHostKeepsHost(data: Stored, added: string, name: string, host: string)
    requires AddHostToGroup(data, added, name).Save?
    ensures HostVars(AddHostToGroup(data, added, name).doc, host) ==
              if added == host && name == "all" then map[] else HostVars(Decode(data), host)
  {
  }

  lemma RemoveHostKeepsHost(data: Stored, removed: string, name: string, host: string)
    ensures HostVars(RemoveHostFromGroup(data, removed, name).doc, host) ==
              if removed == host && name == "all" then map[] else HostVars(Decode(data), host)
  {
  }

  lemma MetadataKeepsHost(data: Stored, name: string, m: Metadata, host: string)
    requires UpdateGroupMetadata(data, name, m).Save?
    ensures HostVars(UpdateGroupMetadata(data, name, m).doc, host) == HostVars(Decode(data), host)
  {
    assert "hosts" != "vars" by { assert |"hosts"| != |"vars"|; }
  }

  lemma HostListKeepsHost(inv: Doc, name: string, entry: Doc, host: string)
    requires name != host
    ensures var all := SubOrEmpty(inv, "all");
            var inv' := inv["all" := Map(all["hosts" := Map(SubOrEmpty(all, "hosts")[name := Map(entry)])])];
            HostVars(inv', host) == HostVars(inv, host)
  {
  }

  lemma DeleteGroupKeepsHost(data: Stored, name: string, host: string)
    ensures HostVars(DeleteGroup(data, name).doc, host) == if name == "all" then map[] else HostVars(Decode(data), host)
  {
    var inv := Decode(data);
    UnlistKeepsHost(inv - {name}, "children", name, host);
    if name != "all" { HostVarsElsewhere(inv, inv - {name}, host); }
  }

  lemma CreateHostKeepsHost(data: Stored, name: string, address: string, m: Metadata, defaultOwner: string, host: string)
    requires CreateHost(data, name, address, m, defaultOwner).Save? && name != host
    ensures HostVars(CreateHost(data, name, address, m, defaultOwner).doc, host) == HostVars(Decode(data), host)
  {
    var m1 := Normalized(m);
    var entry := WithMetadata(map["ansible_host" := Scalar(address)], if m1.owner == "" then m1.(owner := defaultOwner) else m1);
    HostListKeepsHost(Decode(data), name, entry, host);
  }

  lemma UpdateHostKeepsHost(data: Stored, name: string, address: string, m: Metadata, host: string)
    requires UpdateHost(data, name, address, m).Save? && name != host
    ensures HostVars(UpdateHost(data, name, address, m).doc, host) == HostVars(Decode(data), host)
  {
    HostListKeepsHost(Decode(data), name, UpdatedHost(HostVars(Decode(data), name), address, m), host);
  }

  /** An edit that is not about a host keeps the host's address, variables and metadata exactly if it
      does not add or remove it under "all" or delete "all", or there were none. */
  lemma HostVarsKeptExactly(data: Stored, op: Op, host: string)
    requires Perform(data, op).Save? && !Writes(op, host)
    ensures HostVars(Perform(data, op).doc, host) == HostVars(Decode(data), host)
      <==> !Erases(op, host) || HostVars(Decode(data), host) == map[]
  {
    match op
    case OpCreateGroup(name, parent, m) => CreateGroupKeepsHost(data, name, parent, m, host);
    case OpDeleteGroup(name) => DeleteGroupKeepsHost(data, name, host);
    case OpAddHost(added, name) => AddHostKeepsHost(data, added, name, host);
    case OpRemoveHost(removed, name) => RemoveHostKeepsHost(data, removed, name, host);
    case OpGroupMetadata(name, m) => MetadataKeepsHost(data, name, m, host);
    case OpCreateHost(name, address, m, owner) => CreateHostKeepsHost(data, name, address, m, owner, host);
    case OpUpdateHost(name, address, m) => UpdateHostKeepsHost(data, name, address, m, host);
    case OpDeleteHost(name) => UnlistKeepsHost(Decode(data), "hosts", name, host);
  }
}
