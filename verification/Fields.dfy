/** The fields of hosts and groups, as they are read back from the document. */
module Fields {
  import opened Yaml
  import opened Inventory

  /** A string; anything else reads as none. */
  function StringAt(d: Doc, key: string): string {
    if key in d && d[key].Scalar? then d[key].text else ""
  }

  /** The strings of a list. */
  function Texts(items: seq<Yaml>): seq<string> {
    if items == [] then [] else (if items[0].Scalar? then [items[0].text] else []) + Texts(items[1..])
  }

  function StringsAt(d: Doc, key: string): seq<string> {
    if key in d && d[key].List? then Texts(d[key].items) else []
  }

  function EnvOf(y: Yaml): map<string, string> {
    if y.Map? then map k | k in y.entries && y.entries[k].Scalar? :: y.entries[k].text else map[]
  }

  function EnvAt(d: Doc, key: string): map<string, string> {
    if key in d then EnvOf(d[key]) else map[]
  }

  function ReadMetadata(d: Doc): Metadata {
    Metadata(StringsAt(d, "dd_ui_tags"), StringAt(d, "dd_ui_description"), StringAt(d, "dd_ui_alt_name"),
             StringAt(d, "dd_ui_tenant"), StringsAt(d, "dd_ui_allowed_users"), StringAt(d, "dd_ui_owner"),
             EnvAt(d, "dd_ui_env"))
  }

  const METADATA_KEYS := {
    "dd_ui_tags", "dd_ui_description", "dd_ui_alt_name", "dd_ui_tenant", "dd_ui_allowed_users", "dd_ui_owner", "dd_ui_env"
  }

  /** Only a host's address is a field of its own. */
  predicate IsField(key: string, host: bool) {
    key in METADATA_KEYS || (host && key == "ansible_host")
  }

  datatype Fields = Fields(addr: string, vars: Doc, metadata: Metadata)

  /** What the variables of a host or a group say. */
  function ReadFields(d: Doc, host: bool): Fields {
    Fields(if host then StringAt(d, "ansible_host") else "", map k | k in d && !IsField(k, host) :: d[k], ReadMetadata(d))
  }

  function WithDefaultOwner(f: Fields, defaultOwner: string): Fields {
    if f.metadata.owner == "" then f.(metadata := f.metadata.(owner := defaultOwner)) else f
  }

  function TextOr(y: Yaml, otherwise: string): string {
    if y.Scalar? then y.text else otherwise
  }

  /** The switch over one key. */
  function TakeField(f: Fields, host: bool, k: string, v: Yaml): Fields {
    if host && k == "ansible_host" then f.(addr := TextOr(v, f.addr))
    else if k == "dd_ui_tags" then if v.List? then f.(metadata := f.metadata.(tags := f.metadata.tags + Texts(v.items))) else f
    else if k == "dd_ui_description" then f.(metadata := f.metadata.(description := TextOr(v, f.metadata.description)))
    else if k == "dd_ui_alt_name" then f.(metadata := f.metadata.(altName := TextOr(v, f.metadata.altName)))
    else if k == "dd_ui_tenant" then f.(metadata := f.metadata.(tenant := TextOr(v, f.metadata.tenant)))
    else if k == "dd_ui_allowed_users" then
      if v.List? then f.(metadata := f.metadata.(allowedUsers := f.metadata.allowedUsers + Texts(v.items))) else f
    else if k == "dd_ui_owner" then f.(metadata := f.metadata.(owner := TextOr(v, f.metadata.owner)))
    else if k == "dd_ui_env" then f.(metadata := f.metadata.(env := f.metadata.env + EnvOf(v)))
    else f.(vars := f.vars[k := v])
  }

  /** The part of a mapping that has been gone through. */
  function Part(d: Doc, keys: set<string>): Doc {
    map k | k in d && k in keys :: d[k]
  }

  lemma PartHas(d: Doc, keys: set<string>, k: string, x: string)
    requires k in d
    ensures x in Part(d, keys + {k}) <==> x == k || x in Part(d, keys)
    ensures x in Part(d, keys + {k}) ==> Part(d, keys + {k})[x] == d[x]
  {
  }

  /** What is read at any key after one more entry. */
  lemma PartStep(d: Doc, keys: set<string>, k: string, x: string)
    requires k in d && k !in keys
    ensures var before, after := Part(d, keys), Part(d, keys + {k});
      && StringAt(after, x) == (if x == k then TextOr(d[k], StringAt(before, x)) else StringAt(before, x))
      && StringsAt(after, x) ==
           (if x == k && d[k].List? then StringsAt(before, x) + Texts(d[k].items) else StringsAt(before, x))
      && EnvAt(after, x) == (if x == k then EnvAt(before, x) + EnvOf(d[k]) else EnvAt(before, x))
  {
    PartHas(d, keys, k, x);
    if x == k && d[k].List? { assert [] + Texts(d[k].items) == Texts(d[k].items); }
    assert map[] + EnvOf(d[k]) == EnvOf(d[k]);
  }

  lemma MetadataStep(d: Doc, keys: set<string>, k: string)
    requires k in d && k !in keys
    ensures ReadMetadata(Part(d, keys + {k})) == TakeField(Fields("", map[], ReadMetadata(Part(d, keys))), false, k, d[k]).metadata
  {
    PartStep(d, keys, k, "dd_ui_tags");
    PartStep(d, keys, k, "dd_ui_description");
    PartStep(d, keys, k, "dd_ui_alt_name");
    PartStep(d, keys, k, "dd_ui_tenant");
    PartStep(d, keys, k, "dd_ui_allowed_users");
    PartStep(d, keys, k, "dd_ui_owner");
    PartStep(d, keys, k, "dd_ui_env");
  }

  lemma VarsStep(d: Doc, keys: set<string>, k: string, host: bool)
    requires k in d && k !in keys
    ensures ReadFields(Part(d, keys + {k}), host).vars ==
              if IsField(k, host) then ReadFields(Part(d, keys), host).vars
              else ReadFields(Part(d, keys), host).vars[k := d[k]]
  {
    forall x
      ensures x in Part(d, keys + {k}) <==> x == k || x in Part(d, keys)
    {
      PartHas(d, keys, k, x);
    }
  }

  lemma AddrStep(d: Doc, keys: set<string>, k: string)
    requires k in d && k !in keys
    ensures StringAt(Part(d, keys + {k}), "ansible_host") ==
              if k == "ansible_host" then TextOr(d[k], StringAt(Part(d, keys), "ansible_host"))
              else StringAt(Part(d, keys), "ansible_host")
  {
    PartStep(d, keys, k, "ansible_host");
  }

  /** The switch, field by field. */
  lemma TakeFieldParts(f: Fields, host: bool, k: string, v: Yaml)
    ensures TakeField(f, host, k, v) ==
              Fields(if host && k == "ansible_host" then TextOr(v, f.addr) else f.addr,
                     if IsField(k, host) then f.vars else f.vars[k := v],
                     TakeField(Fields("", map[], f.metadata), false, k, v).metadata)
  {
  }

  lemma TakeFieldStep(d: Doc, keys: set<string>, k: string, host: bool)
    requires k in d && k !in keys
    ensures ReadFields(Part(d, keys + {k}), host) == TakeField(ReadFields(Part(d, keys), host), host, k, d[k])
  {
    TakeFieldParts(ReadFields(Part(d, keys), host), host, k, d[k]);
    MetadataStep(d, keys, k);
    VarsStep(d, keys, k, host);
    AddrStep(d, keys, k);
  }

  /** The loop over the variables. */
  method ParseFields(d: Doc, host: bool, defaultOwner: string) returns (f: Fields)
    ensures f == WithDefaultOwner(ReadFields(d, host), defaultOwner)
  {
    f := Fields("", map[], Metadata([], "", "", "", [], "", map[]));
    var keys: set<string> := d.Keys;
    assert Part(d, d.Keys - keys) == map[];
    while keys != {}
      invariant keys <= d.Keys && f == ReadFields(Part(d, d.Keys - keys), host)
      decreases |keys|
    {
      var k: string :| k in keys;
      TakeFieldStep(d, d.Keys - keys, k, host);
      f := TakeField(f, host, k, d[k]);
      assert d.Keys - keys + {k} == d.Keys - (keys - {k});
      keys := keys - {k};
    }
    assert Part(d, d.Keys - keys) == d;
    if f.metadata.owner == "" {
      f := f.(metadata := f.metadata.(owner := defaultOwner));
    }
  }

  /* ---- reading back what was written ---- */

  lemma {:induction false} TextsOfStrings(ss: seq<string>)
    ensures Texts(Strings(ss).items) == ss
    decreases |ss|
  {
    if ss != [] {
      TextsOfStrings(ss[1..]);
      assert Strings(ss).items[1..] == Strings(ss[1..]).items;
    }
  }

  lemma {:induction false} PutAllElsewhere(d: Doc, fs: seq<Field>, x: string)
    requires forall f | f in fs :: f.key != x
    ensures (x in PutAll(d, fs) <==> x in d) && (x in d ==> PutAll(d, fs)[x] == d[x])
    decreases |fs|
  {
    if fs != [] { PutAllElsewhere(Put(d, fs[0].wanted, fs[0].key, fs[0].val), fs[1..], x); }
  }

  /** A field holds what was written if it was wanted, and what was there before otherwise, the other
      fields having other keys. */
  lemma {:induction false} PutAllAt(d: Doc, fs: seq<Field>, i: nat)
    requires i < |fs| && forall j | 0 <= j < |fs| && j != i :: fs[j].key != fs[i].key
    ensures fs[i].key in PutAll(d, fs) <==> fs[i].wanted || fs[i].key in d
    ensures fs[i].wanted ==> PutAll(d, fs)[fs[i].key] == fs[i].val
    ensures !fs[i].wanted && fs[i].key in d ==> PutAll(d, fs)[fs[i].key] == d[fs[i].key]
    decreases |fs|
  {
    var d' := Put(d, fs[0].wanted, fs[0].key, fs[0].val);
    if i == 0 {
      PutAllElsewhere(d', fs[1..], fs[0].key);
    } else {
      PutAllAt(d', fs[1..], i - 1);
    }
  }

  /** The keys of the fields differ in length. */
  const KEY_LENGTHS := [10, 17, 14, 12, 19, 11, 9]

  lemma KeyLengths(m: Metadata)
    ensures forall i | 0 <= i < 7 :: |FieldsOf(m)[i].key| == KEY_LENGTHS[i]
  {
  }

  lemma FieldKeysDiffer(m: Metadata, i: nat, j: nat)
    requires i < 7 && j < 7 && i != j
    ensures FieldsOf(m)[i].key != FieldsOf(m)[j].key
  {
    KeyLengths(m);
    assert KEY_LENGTHS[i] != KEY_LENGTHS[j];
  }

  lemma FieldReadsBack(d: Doc, m: Metadata, i: nat)
    requires i < 7
    ensures var f, all := FieldsOf(m)[i], WithMetadata(d, m);
      && (f.key in all <==> f.wanted || f.key in d)
      && (f.wanted ==> all[f.key] == f.val)
      && (!f.wanted && f.key in d ==> all[f.key] == d[f.key])
  {
    forall j | 0 <= j < 7 && j != i
      ensures FieldsOf(m)[j].key != FieldsOf(m)[i].key
    {
      FieldKeysDiffer(m, i, j);
    }
    PutAllAt(d, FieldsOf(m), i);
  }

  /** Where a string is stored. */
  predicate StoresText(all: Doc, d: Doc, key: string, text: string) {
    if text != "" then key in all && all[key] == Scalar(text) else (key in all <==> key in d) && (key in d ==> all[key] == d[key])
  }

  predicate StoresTexts(all: Doc, d: Doc, key: string, texts: seq<string>) {
    if texts != [] then key in all && all[key] == Strings(texts) else (key in all <==> key in d) && (key in d ==> all[key] == d[key])
  }

  /** The keys under which the fields are stored, each only if it has a value. */
  lemma StoredUnder(d: Doc, m: Metadata)
    ensures var all := WithMetadata(d, m);
      && StoresTexts(all, d, "dd_ui_tags", m.tags) && StoresTexts(all, d, "dd_ui_allowed_users", m.allowedUsers)
      && StoresText(all, d, "dd_ui_description", m.description) && StoresText(all, d, "dd_ui_alt_name", m.altName)
      && StoresText(all, d, "dd_ui_tenant", m.tenant) && StoresText(all, d, "dd_ui_owner", m.owner)
      && (m.env != map[] ==> "dd_ui_env" in all && EnvOf(all["dd_ui_env"]) == m.env && all["dd_ui_env"].Map?)
  {
    FieldReadsBack(d, m, 0);
    FieldReadsBack(d, m, 1);
    FieldReadsBack(d, m, 2);
    FieldReadsBack(d, m, 3);
    FieldReadsBack(d, m, 4);
    FieldReadsBack(d, m, 5);
    FieldReadsBack(d, m, 6);
    EnvReadsBack(m.env);
  }

  /** Fields without a value leave what was there. */
  function Merged(old': Metadata, m: Metadata): Metadata {
    Metadata(
      if m.tags != [] then m.tags else old'.tags,
      if m.description != "" then m.description else old'.description,
      if m.altName != "" then m.altName else old'.altName,
      if m.tenant != "" then m.tenant else old'.tenant,
      if m.allowedUsers != [] then m.allowedUsers else old'.allowedUsers,
      if m.owner != "" then m.owner else old'.owner,
      if m.env != map[] then m.env else old'.env)
  }

  lemma StringReadsBack(d: Doc, m: Metadata, i: nat, text: string)
    requires i < 7 && FieldsOf(m)[i] == Field(FieldsOf(m)[i].key, text != "", Scalar(text))
    ensures StringAt(WithMetadata(d, m), FieldsOf(m)[i].key) ==
              if text != "" then text else StringAt(d, FieldsOf(m)[i].key)
  {
    FieldReadsBack(d, m, i);
  }

  lemma StringsReadBack(d: Doc, m: Metadata, i: nat, ss: seq<string>)
    requires i < 7 && FieldsOf(m)[i] == Field(FieldsOf(m)[i].key, |ss| > 0, Strings(ss))
    ensures StringsAt(WithMetadata(d, m), FieldsOf(m)[i].key) ==
              if ss != [] then ss else StringsAt(d, FieldsOf(m)[i].key)
  {
    FieldReadsBack(d, m, i);
    TextsOfStrings(ss);
  }

  /** Metadata written over any variables is read back merged with what they held. */
  lemma MetadataMerges(d: Doc, m: Metadata)
    ensures ReadMetadata(WithMetadata(d, m)) == Merged(ReadMetadata(d), m)
  {
    StringsReadBack(d, m, 0, m.tags);
    StringReadsBack(d, m, 1, m.description);
    StringReadsBack(d, m, 2, m.altName);
    StringReadsBack(d, m, 3, m.tenant);
    StringsReadBack(d, m, 4, m.allowedUsers);
    StringReadsBack(d, m, 5, m.owner);
    FieldReadsBack(d, m, 6);
    EnvReadsBack(m.env);
  }

  /** All metadata written into variables without any comes back. */
  lemma MetadataReadsBack(d: Doc, m: Metadata)
    requires forall k | k in d :: !OwnKey(k)
    ensures ReadMetadata(WithMetadata(d, m)) == m
  {
    MetadataMerges(d, m);
    assert forall k | k in METADATA_KEYS :: OwnKey(k);
  }

  lemma EnvReadsBack(env: map<string, string>)
    ensures EnvOf(Map(map k | k in env :: Scalar(env[k]))) == env
  {
  }

  /** The other variables are untouched. */
  lemma OthersKept(d: Doc, m: Metadata, k: string)
    requires !OwnKey(k)
    ensures (k in WithMetadata(d, m) <==> k in d) && (k in d ==> WithMetadata(d, m)[k] == d[k])
  {
    FieldsAreOwn(m);
    PutAllElsewhere(d, FieldsOf(m), k);
  }
}
