/** The inventory manager: one stored document, edited in place by its methods. */
module InventoryManager {
  import opened Options
  import opened Text
  import opened Yaml
  import opened Inventory
  import opened GroupForest
  import opened GroupTree

  /** How a call ends; `Blocked` calls never do. */
  datatype Outcome = Done | Failed(error: Error) | Blocked

  function Ending(e: Edit): Outcome {
    match e
    case Save(_) => Done
    case Refuse(SelfDeadlock) => Blocked
    case Refuse(error) => Failed(error)
  }

  class InventoryManager {
    /** The decoded content of the inventory file; nothing before the first edit. */
    var data: Stored

    constructor ()
      ensures data == None && Good(data)
    {
      data := None;
      EmptyInventoryIsGood();
    }

    method CreateGroup(name: string, parent: string, metadata: Metadata) returns (outcome: Outcome)
      modifies this
      ensures var e := Inventory.CreateGroup(old(data), name, parent, metadata);
              data == Next(old(data), e) && outcome == Ending(e)
      ensures Good(old(data)) && OpCreateGroup(name, parent, metadata).Careful() ==> Good(data)
    {
      ghost var before := data;
      var inv: Doc;
      if data.None? {
        inv := map["all" := Map(map["hosts" := EMPTY, "children" := EMPTY])];
      } else {
        inv := data.value;
      }
      if name in inv { return Failed(AlreadyExists); }
      var vars := WithMetadata(map[], metadata);
      inv := inv[name := Map(map["hosts" := EMPTY, "vars" := Map(vars)])];
      if parent != "" && parent != "all" {
        if Sub(inv, parent).Some? {
          var group := Sub(inv, parent).value;
          var children: Doc := map[];
          if Sub(group, "children").Some? { children := Sub(group, "children").value; }
          children := children[name := EMPTY];
          inv := inv[parent := Map(group["children" := Map(children)])];
        }
      }
      if Good(before) && OpCreateGroup(name, parent, metadata).Careful() {
        EditKeepsGood(before, OpCreateGroup(name, parent, metadata));
      }
      data := Some(inv);
      outcome := Done;
    }

    /** Go through every top-level entry and drop one name from one of its sections. */
    static method UnlistEverywhere(inv: Doc, section: string, key: string) returns (result: Doc)
      ensures result == UnlistAll(inv, section, key)
    {
      result := inv;
      var keys: set<string> := inv.Keys;
      while keys != {}
        invariant keys <= inv.Keys && result.Keys == inv.Keys
        invariant forall k | k in inv :: result[k] == if k in keys then inv[k] else Unlist(inv[k], section, key)
        decreases |keys|
      {
        var k: string :| k in keys;
        if result[k].Map? && Sub(result[k].entries, section).Some? {
          var names := Sub(result[k].entries, section).value - {key};
          result := result[k := Map(result[k].entries[section := Map(names)])];
        }
        keys := keys - {k};
      }
    }

    method DeleteGroup(name: string) returns (outcome: Outcome)
      modifies this
      ensures data == Some(Inventory.DeleteGroup(old(data), name).doc) && outcome == Done
      ensures Good(old(data)) && name != "all" ==> Good(data)
    {
      if Good(data) && name != "all" { EditKeepsGood(data, OpDeleteGroup(name)); }
      var inv := Decode(data);
      inv := inv - {name};
      inv := UnlistEverywhere(inv, "children", name);
      data := Some(inv);
      outcome := Done;
    }

    method AddHostToGroup(hostname: string, groupname: string) returns (outcome: Outcome)
      modifies this
      ensures var e := Inventory.AddHostToGroup(old(data), hostname, groupname);
              data == Next(old(data), e) && outcome == Ending(e)
      ensures Good(old(data)) ==> Good(data)
    {
      if Good(data) { EditKeepsGood(data, OpAddHost(hostname, groupname)); }
      var inv := Decode(data);
      if Sub(inv, "all").None? { return Failed(MissingAll); }
      var all := Sub(inv, "all").value;
      if Sub(all, "hosts").None? { return Failed(MissingHosts); }
      if hostname !in Sub(all, "hosts").value { return Failed(NotFound); }
      if Sub(inv, groupname).None? {
        inv := inv[groupname := Map(map["hosts" := Map(map[hostname := EMPTY])])];
      } else {
        var group := Sub(inv, groupname).value;
        var hosts: Doc := map[];
        if Sub(group, "hosts").Some? { hosts := Sub(group, "hosts").value; }
        hosts := hosts[hostname := EMPTY];
        inv := inv[groupname := Map(group["hosts" := Map(hosts)])];
      }
      data := Some(inv);
      outcome := Done;
    }

    method RemoveHostFromGroup(hostname: string, groupname: string) returns (outcome: Outcome)
      modifies this
      ensures data == Some(Inventory.RemoveHostFromGroup(old(data), hostname, groupname).doc) && outcome == Done
      ensures Good(old(data)) && groupname != "all" ==> Good(data)
    {
      if Good(data) && groupname != "all" { EditKeepsGood(data, OpRemoveHost(hostname, groupname)); }
      var inv := Decode(data);
      if Sub(inv, groupname).Some? {
        var group := Sub(inv, groupname).value;
        if Sub(group, "hosts").Some? {
          var hosts := Sub(group, "hosts").value - {hostname};
          if hosts == map[] && IsNull(group, "vars") && IsNull(group, "children") {
            inv := inv - {groupname};
          } else {
            inv := inv[groupname := Map(group["hosts" := Map(hosts)])];
          }
        }
      }
      data := Some(inv);
      outcome := Done;
    }

    /** A group without vars: the source stores an empty mapping in its copy and calls itself with
        the lock still held. */
    method UpdateGroupMetadata(name: string, metadata: Metadata) returns (outcome: Outcome)
      modifies this
      ensures var e := Inventory.UpdateGroupMetadata(old(data), name, metadata);
              data == Next(old(data), e) && outcome == Ending(e)
      ensures StripDoc(Decode(data)) == StripDoc(Decode(old(data)))
      ensures Good(old(data)) ==> Good(data)
    {
      UpdateGroupMetadataIsInvisible(data, name, metadata);
      if Good(data) { EditKeepsGood(data, OpGroupMetadata(name, metadata)); }
      var inv := Decode(data);
      if Sub(inv, name).None? { return Failed(NotFound); }
      var group := Sub(inv, name).value;
      if Sub(group, "vars").None? { return Blocked; }
      var vars := WithMetadata(Sub(group, "vars").value, metadata);
      data := Some(inv[name := Map(group["vars" := Map(vars)])]);
      outcome := Done;
    }

    method CreateHost(name: string, ansibleHost: string, metadata: Metadata, defaultOwner: string) returns (outcome: Outcome)
      modifies this
      ensures var e := Inventory.CreateHost(old(data), name, ansibleHost, metadata, defaultOwner);
              data == Next(old(data), e) && outcome == Ending(e)
      ensures Good(old(data)) ==> Good(data)
    {
      if Good(data) { EditKeepsGood(data, OpCreateHost(name, ansibleHost, metadata, defaultOwner)); }
      if name == "" || ' ' in name { return Failed(InvalidName); }
      var m := metadata.(description := NormalizeNewlines(metadata.description));
      var inv := Decode(data);
      var all: Doc := map[];
      if Sub(inv, "all").Some? { all := Sub(inv, "all").value; }
      var hosts: Doc := map[];
      if Sub(all, "hosts").Some? { hosts := Sub(all, "hosts").value; }
      if name in hosts { return Failed(AlreadyExists); }
      if m.owner == "" { m := m.(owner := defaultOwner); }
      var host := WithMetadata(map["ansible_host" := Scalar(ansibleHost)], m);
      hosts := hosts[name := Map(host)];
      data := Some(inv["all" := Map(all["hosts" := Map(hosts)])]);
      outcome := Done;
    }

    method UpdateHost(name: string, ansibleHost: string, metadata: Metadata) returns (outcome: Outcome)
      modifies this
      ensures var e := Inventory.UpdateHost(old(data), name, ansibleHost, metadata);
              data == Next(old(data), e) && outcome == Ending(e)
      ensures ansibleHost == "" ==> StripDoc(Decode(data)) == StripDoc(Decode(old(data)))
      ensures Good(old(data)) ==> Good(data)
    {
      if Inventory.UpdateHost(data, name, ansibleHost, metadata).Save? {
        UpdateHostIsInvisibleExactly(data, name, ansibleHost, metadata);
      }
      if Good(data) { EditKeepsGood(data, OpUpdateHost(name, ansibleHost, metadata)); }
      var m := metadata.(description := NormalizeNewlines(metadata.description));
      var inv := Decode(data);
      if Sub(inv, "all").None? { return Failed(MissingAll); }
      var all := Sub(inv, "all").value;
      if Sub(all, "hosts").None? { return Failed(MissingHosts); }
      var hosts := Sub(all, "hosts").value;
      if Sub(hosts, name).None? { return Failed(NotFound); }
      var host := Sub(hosts, name).value;
      if ansibleHost != "" { host := host["ansible_host" := Scalar(ansibleHost)]; }
      host := map k | k in host && !OwnKey(k) :: host[k];
      host := WithMetadata(host, m);
      hosts := hosts[name := Map(host)];
      data := Some(inv["all" := Map(all["hosts" := Map(hosts)])]);
      outcome := Done;
    }

    method DeleteHost(name: string) returns (outcome: Outcome)
      modifies this
      ensures var e := Inventory.DeleteHost(old(data), name);
              data == Next(old(data), e) && outcome == Ending(e)
      ensures Good(old(data)) ==> Good(data)
    {
      if Good(data) { EditKeepsGood(data, OpDeleteHost(name)); }
      var inv := Decode(data);
      if Sub(inv, "all").Some? {
        var all := Sub(inv, "all").value;
        if Sub(all, "hosts").Some? {
          if name !in Sub(all, "hosts").value { return Failed(NotFound); }
        }
      }
      inv := UnlistEverywhere(inv, "hosts", name);
      data := Some(inv);
      outcome := Done;
    }

    /** The handler of the group tree, on a manager whose document is good: it returns exactly the
        roots of the forest. */
    method GroupTreeOfGood(defaultOwner: string) returns (roots: seq<InventoryGroup>)
      requires Good(data)
      ensures forall g :: g in roots ==> IsRoot(Decode(data), g.name)
      ensures forall n | IsRoot(Decode(data), n) && Sub(Decode(data), n).Some? :: exists g :: g in roots && g.name == n
    {
      var groups := GetGroups(data, defaultOwner);
      roots := GetGroupTree(groups);
      TreeRootsExactly(groups, Decode(data));
    }
  }
}
