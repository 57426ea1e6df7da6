/** The edits of the inventory manager, on the decoded document.  Every edit decodes the stored
    inventory, changes nested mappings and stores the result, or refuses and stores nothing. */
module Inventory {
  import opened Options
  import opened Text
  import opened Yaml

  /** The program's fields of a host or a group. */
  datatype Metadata = Metadata(
    tags: seq<string>, description: string, altName: string, tenant: string,
    allowedUsers: seq<string>, owner: string, env: map<string, string>)

  function Strings(ss: seq<string>): Yaml {
    List(seq(|ss|, i requires 0 <= i < |ss| => Scalar(ss[i])))
  }

  function Put(d: Doc, wanted: bool, key: string, val: Yaml): Doc {
    if wanted then d[key := val] else d
  }

  /** One of the program's fields, written only if it has a value. */
  datatype Field = Field(key: string, wanted: bool, val: Yaml)

  function FieldsOf(m: Metadata): seq<Field> {
    [Field("dd_ui_tags", |m.tags| > 0, Strings(m.tags)),
     Field("dd_ui_description", m.description != "", Scalar(m.description)),
     Field("dd_ui_alt_name", m.altName != "", Scalar(m.altName)),
     Field("dd_ui_tenant", m.tenant != "", Scalar(m.tenant)),
     Field("dd_ui_allowed_users", |m.allowedUsers| > 0, Strings(m.allowedUsers)),
     Field("dd_ui_owner", m.owner != "", Scalar(m.owner)),
     Field("dd_ui_env", |m.env| > 0, Map(map k | k in m.env :: Scalar(m.env[k])))]
  }

  function PutAll(d: Doc, fs: seq<Field>): Doc
    decreases |fs|
  {
    if fs == [] then d else PutAll(Put(d, fs[0].wanted, fs[0].key, fs[0].val), fs[1..])
  }

  function WithMetadata(d: Doc, m: Metadata): Doc {
    PutAll(d, FieldsOf(m))
  }

  function Normalized(m: Metadata): Metadata {
    m.(description := NormalizeNewlines(m.description))
  }

  const EMPTY: Yaml := Map(map[])

  datatype Error = InvalidName | AlreadyExists | NotFound | MissingAll | MissingHosts | SelfDeadlock

  /** The stored inventory; nothing is stored before the first edit. */
  type Stored = Option<Doc>

  function Decode(data: Stored): Doc {
    if data.Some? then data.value else map[]
  }

  datatype Edit = Save(doc: Doc) | Refuse(error: Error)

  /* ---- groups ---- */

  function CreateGroup(data: Stored, name: string, parent: string, m: Metadata): Edit {
    var inv := if data.None? then map["all" := Map(map["hosts" := EMPTY, "children" := EMPTY])] else data.value;
    if name in inv then Refuse(AlreadyExists)
    else
      var inv := inv[name := Map(map["hosts" := EMPTY, "vars" := Map(WithMetadata(map[], m))])];
      if parent != "" && parent != "all" && Sub(inv, parent).Some? then
        var group := Sub(inv, parent).value;
        Save(inv[parent := Map(group["children" := Map(SubOrEmpty(group, "children")[name := EMPTY])])])
      else Save(inv)
  }

  /** A node without one entry of one of its sections. */
  function Unlist(node: Yaml, section: string, key: string): Yaml {
    if node.Map? && Sub(node.entries, section).Some? then
      Map(node.entries[section := Map(Sub(node.entries, section).value - {key})])
    else node
  }

  function UnlistAll(inv: Doc, section: string, key: string): Doc {
    map k | k in inv :: Unlist(inv[k], section, key)
  }

  function DeleteGroup(data: Stored, name: string): Edit {
    Save(UnlistAll(Decode(data) - {name}, "children", name))
  }

  function AddHostToGroup(data: Stored, host: string, name: string): Edit {
    var inv := Decode(data);
    if Sub(inv, "all").None? then Refuse(MissingAll)
    else if Sub(Sub(inv, "all").value, "hosts").None? then Refuse(MissingHosts)
    else if host !in Sub(Sub(inv, "all").value, "hosts").value then Refuse(NotFound)
    else
      var group := SubOrEmpty(inv, name);
      Save(inv[name := Map(group["hosts" := Map(SubOrEmpty(group, "hosts")[host := EMPTY])])])
  }

  /** Reading a missing key gives null. */
  predicate IsNull(d: Doc, key: string) {
    key !in d || d[key].Null?
  }

  function RemoveHostFromGroup(data: Stored, host: string, name: string): Edit {
    var inv := Decode(data);
    if Sub(inv, name).None? || Sub(Sub(inv, name).value, "hosts").None? then Save(inv)
    else
      var group := Sub(inv, name).value;
      var hosts := Sub(group, "hosts").value - {host};
      if hosts == map[] && IsNull(group, "vars") && IsNull(group, "children") then Save(inv - {name})
      else Save(inv[name := Map(group["hosts" := Map(hosts)])])
  }

  /** A group without vars sends the call into a second one that waits for the lock it holds. */
  function UpdateGroupMetadata(data: Stored, name: string, m: Metadata): Edit {
    var inv := Decode(data);
    if Sub(inv, name).None? then Refuse(NotFound)
    else
      var group := Sub(inv, name).value;
      if Sub(group, "vars").None? then Refuse(SelfDeadlock)
      else Save(inv[name := Map(group["vars" := Map(WithMetadata(Sub(group, "vars").value, m))])])
  }

  /* ---- hosts ---- */

  function CreateHost(data: Stored, name: string, address: string, m: Metadata, defaultOwner: string): Edit {
    if name == "" || ' ' in name then Refuse(InvalidName)
    else
      var inv := Decode(data);
      var all := SubOrEmpty(inv, "all");
      var hosts := SubOrEmpty(all, "hosts");
      if name in hosts then Refuse(AlreadyExists)
      else
        var m := Normalized(m);
        var m := if m.owner == "" then m.(owner := defaultOwner) else m;
        var host := WithMetadata(map["ansible_host" := Scalar(address)], m);
        Save(inv["all" := Map(all["hosts" := Map(hosts[name := Map(host)])])])
  }

  /** The host's mapping after an update. */
  function UpdatedHost(host: Doc, address: string, m: Metadata): Doc {
    var host := Put(host, address != "", "ansible_host", Scalar(address));
    WithMetadata(map k | k in host && !OwnKey(k) :: host[k], Normalized(m))
  }

  function UpdateHost(data: Stored, name: string, address: string, m: Metadata): Edit {
    var inv := Decode(data);
    if Sub(inv, "all").None? then Refuse(MissingAll)
    else
      var all := Sub(inv, "all").value;
      if Sub(all, "hosts").None? then Refuse(MissingHosts)
      else
        var hosts := Sub(all, "hosts").value;
        if Sub(hosts, name).None? then Refuse(NotFound)
        else
          Save(inv["all" := Map(all["hosts" := Map(hosts[name := Map(UpdatedHost(Sub(hosts, name).value, address, m))])])])
  }

  function DeleteHost(data: Stored, name: string): Edit {
    var inv := Decode(data);
    var all := SubOrEmpty(inv, "all");
    if Sub(inv, "all").Some? && Sub(all, "hosts").Some? && name !in Sub(all, "hosts").value then Refuse(NotFound)
    else Save(UnlistAll(inv, "hosts", name))
  }

  /* ---- edits Ansible does not see ---- */

  lemma {:induction false} OwnFieldsAreInvisible(d: Doc, fs: seq<Field>)
    requires forall f | f in fs :: OwnKey(f.key)
    ensures StripDoc(PutAll(d, fs)) == StripDoc(d)
    decreases |fs|
  {
    if fs != [] {
      StripOwnKey(d, fs[0].key, fs[0].val);
      OwnFieldsAreInvisible(Put(d, fs[0].wanted, fs[0].key, fs[0].val), fs[1..]);
    }
  }

  lemma FieldsAreOwn(m: Metadata)
    ensures forall f | f in FieldsOf(m) :: OwnKey(f.key)
  {
  }

  lemma MetadataIsInvisible(d: Doc, m: Metadata)
    ensures StripDoc(WithMetadata(d, m)) == StripDoc(d)
  {
    FieldsAreOwn(m);
    OwnFieldsAreInvisible(d, FieldsOf(m));
  }

  lemma UpdatedHostShows(host: Doc, address: string, m: Metadata)
    ensures StripDoc(UpdatedHost(host, address, m)) == StripDoc(host)
      <==> address == "" || ("ansible_host" in host && host["ansible_host"] == Scalar(address))
  {
    var put := Put(host, address != "", "ansible_host", Scalar(address));
    var kept: Doc := map k | k in put && !OwnKey(k) :: put[k];
    MetadataIsInvisible(kept, Normalized(m));
    assert StripDoc(kept) == StripDoc(put);
    if address != "" {
      assert !OwnKey("ansible_host") by { assert "ansible_host"[0] == 'a' && "dd_ui_"[0] == 'd'; }
      if "ansible_host" in host {
        StripUnderKey(host, "ansible_host", Scalar(address));
      } else {
        assert "ansible_host" in StripDoc(put) && "ansible_host" !in StripDoc(host);
      }
    }
  }

  lemma ReplacedHostShows(inv: Doc, name: string, host: Yaml)
    requires Sub(inv, "all").Some? && Sub(Sub(inv, "all").value, "hosts").Some?
    requires name in Sub(Sub(inv, "all").value, "hosts").value
    ensures var all := Sub(inv, "all").value;
            var hosts := Sub(all, "hosts").value;
            (StripDoc(inv["all" := Map(all["hosts" := Map(hosts[name := host])])]) == StripDoc(inv) <==>
               OwnKey(name) || Strip(host) == Strip(hosts[name]))
  {
    var all := Sub(inv, "all").value;
    var hosts := Sub(all, "hosts").value;
    assert !OwnKey("all") && !OwnKey("hosts") by { assert "all"[0] == 'a' && "hosts"[0] == 'h' && "dd_ui_"[0] == 'd'; }
    StripUnderKey(hosts, name, host);
    StripUnderKey(all, "hosts", Map(hosts[name := host]));
    StripUnderKey(inv, "all", Map(all["hosts" := Map(hosts[name := host])]));
  }

  /** Updating a host leaves the inventory exported for Ansible as it was exactly if no address was
      given, the host has that address already, or its very name is not exported. */
  lemma UpdateHostIsInvisibleExactly(data: Stored, name: string, address: string, m: Metadata)
    requires UpdateHost(data, name, address, m).Save?
    ensures var host := Sub(SubOrEmpty(SubOrEmpty(Decode(data), "all"), "hosts"), name).value;
            (StripDoc(UpdateHost(data, name, address, m).doc) == StripDoc(Decode(data)) <==>
               OwnKey(name) || address == "" || ("ansible_host" in host && host["ansible_host"] == Scalar(address)))
  {
    var hosts := SubOrEmpty(SubOrEmpty(Decode(data), "all"), "hosts");
    var host := Sub(hosts, name).value;
    UpdatedHostShows(host, address, m);
    ReplacedHostShows(Decode(data), name, Map(UpdatedHost(host, address, m)));
  }

  lemma ReplacedVarsShow(inv: Doc, name: string, vars: Doc)
    requires Sub(inv, name).Some? && Sub(Sub(inv, name).value, "vars").Some?
    requires StripDoc(vars) == StripDoc(Sub(Sub(inv, name).value, "vars").value)
    ensures StripDoc(inv[name := Map(Sub(inv, name).value["vars" := Map(vars)])]) == StripDoc(inv)
  {
    var group := Sub(inv, name).value;
    StripUnderKey(group, "vars", Map(vars));
    StripUnderKey(inv, name, Map(group["vars" := Map(vars)]));
  }

  /** So does updating a group's metadata, whenever the call returns. */
  lemma UpdateGroupMetadataIsInvisible(data: Stored, name: string, m: Metadata)
    ensures var e := UpdateGroupMetadata(data, name, m);
            e.Save? ==> StripDoc(e.doc) == StripDoc(Decode(data))
  {
    if UpdateGroupMetadata(data, name, m).Save? {
      var vars := Sub(Sub(Decode(data), name).value, "vars").value;
      MetadataIsInvisible(vars, m);
      ReplacedVarsShow(Decode(data), name, WithMetadata(vars, m));
    }
  }
}
