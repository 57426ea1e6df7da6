/** Updating the metadata of a group, under a lock that is not reentrant: which groups it hangs on. */
module ImplicitGroups {
  import opened Options
  import opened Yaml
  import opened Inventory
  import opened GroupForest

  /* ---- one call ---- */

  /** At the lock, past it, or back at the caller. */
  datatype Phase = Locking | Editing | Returned(found: bool)

  /** The manager's lock and document, and where the call is, at whatever depth of calling itself. */
  datatype Call = Call(locked: bool, phase: Phase, data: Stored)

  /** One step; none while the lock is taken.  A group without vars makes the call call itself before
      its deferred unlock runs, with nothing stored. */
  function StepCall(name: string, m: Metadata, c: Call): Option<Call> {
    match c.phase
    case Returned(_) => None
    case Locking => if c.locked then None else Some(c.(locked := true, phase := Editing))
    case Editing =>
      var inv := Decode(c.data);
      if Sub(inv, name).None? then Some(c.(locked := false, phase := Returned(false)))
      else
        var group := Sub(inv, name).value;
        if Sub(group, "vars").None? then Some(c.(phase := Locking))
        else
          var vars := WithMetadata(Sub(group, "vars").value, m);
          Some(Call(false, Returned(true), Some(inv[name := Map(group["vars" := Map(vars)])])))
  }

  function RunCall(name: string, m: Metadata, c: Call, n: nat): Call
    decreases n
  {
    if n == 0 || StepCall(name, m, c).None? then c
    else RunCall(name, m, StepCall(name, m, c).value, n - 1)
  }

  function Begin(data: Stored): Call {
    Call(false, Locking, data)
  }

  ghost predicate Returns(data: Stored, name: string, m: Metadata) {
    exists n: nat :: RunCall(name, m, Begin(data), n).phase.Returned?
  }

  lemma TwoSteps(data: Stored, name: string, m: Metadata)
    ensures var c := Call(true, Editing, data);
      && StepCall(name, m, Begin(data)) == Some(c) && StepCall(name, m, c).Some?
      && forall n: nat | n >= 2 ::
           RunCall(name, m, Begin(data), n) == RunCall(name, m, StepCall(name, m, c).value, n - 2)
  {
  }

  /** A call takes the edit's effect, or waits for the lock it holds itself, and nobody else can
      take it either. */
  lemma CallReturnsExactly(data: Stored, name: string, m: Metadata)
    ensures Returns(data, name, m) <==> UpdateGroupMetadata(data, name, m) != Refuse(SelfDeadlock)
    ensures forall n: nat | n >= 2 ::
              var c := RunCall(name, m, Begin(data), n);
              c.data == Next(data, UpdateGroupMetadata(data, name, m)) && c.locked == !Returns(data, name, m)
  {
    TwoSteps(data, name, m);
    var c := StepCall(name, m, Call(true, Editing, data)).value;
    assert StepCall(name, m, c).None?;
    forall n: nat | n >= 2
      ensures RunCall(name, m, Begin(data), n) == c
    {
    }
    if c.phase.Returned? {
      assert RunCall(name, m, Begin(data), 2).phase.Returned?;
    } else {
      forall n: nat
        ensures !RunCall(name, m, Begin(data), n).phase.Returned?
      {
        if n < 2 { assert n == 0 || RunCall(name, m, Begin(data), n).phase.Editing?; }
      }
    }
  }

  /* ---- where a group without vars comes from ---- */

  /** Entries are mappings, and what they have under "vars" is one. */
  ghost predicate Shaped(inv: Doc) {
    forall k | k in inv :: inv[k].Map? && ("vars" in inv[k].entries ==> inv[k].entries["vars"].Map?)
  }

  predicate VarsOf(inv: Doc, group: string) {
    Sub(SubOrEmpty(inv, group), "vars").Some?
  }

  /** Replacing an entry by a mapping with the same vars. */
  lemma EntryVars(inv: Doc, name: string, group: Doc)
    requires Shaped(inv) && ("vars" in group ==> group["vars"].Map?)
    ensures Shaped(inv[name := Map(group)])
    ensures forall g :: VarsOf(inv[name := Map(group)], g) <==> if g == name then "vars" in group else VarsOf(inv, g)
  {
    var inv' := inv[name := Map(group)];
    forall g
      ensures VarsOf(inv', g) <==> if g == name then "vars" in group else VarsOf(inv, g)
    {
      assert SubOrEmpty(inv', g) == if g == name then group else SubOrEmpty(inv, g);
    }
  }

  lemma UnlistVars(inv: Doc, section: string, key: string)
    requires Shaped(inv) && (section == "hosts" || section == "children")
    ensures Shaped(UnlistAll(inv, section, key)) && UnlistAll(inv, section, key).Keys == inv.Keys
    ensures forall g :: VarsOf(UnlistAll(inv, section, key), g) <==> VarsOf(inv, g)
  {
    var inv' := UnlistAll(inv, section, key);
    assert inv'.Keys == inv.Keys;
    forall g
      ensures VarsOf(inv', g) <==> VarsOf(inv, g)
    {
      assert g in inv ==> inv'[g] == Unlist(inv[g], section, key);
    }
  }

  /** An edit leaves each group that stays its vars or its lack of them. */
  ghost predicate KeepsVars(inv: Doc, inv': Doc, op: Op) {
    && Shaped(inv')
    && forall g | g in inv' ::
         VarsOf(inv', g) <==> if g in inv then VarsOf(inv, g) else op.OpCreateGroup? && op.name == g
  }

  /** Only adding a host, or the setting up of "all", brings in an entry without vars. */
  ghost predicate Introduces(inv: Doc, inv': Doc, op: Op) {
    forall g | g in inv' && g !in inv && g != "all" ::
      (op.OpCreateGroup? || op.OpAddHost?) && op.name == g
  }

  lemma CreateGroupVars(data: Stored, name: string, parent: string, m: Metadata)
    requires Shaped(Decode(data)) && CreateGroup(data, name, parent, m).Save?
    ensures var inv', op := CreateGroup(data, name, parent, m).doc, OpCreateGroup(name, parent, m);
            KeepsVars(Decode(data), inv', op) && Introduces(Decode(data), inv', op)
  {
    var start: Doc := map["all" := Map(map["hosts" := EMPTY, "children" := EMPTY])];
    var inv := if data.None? then start else data.value;
    var inv1 := inv[name := Map(NewGroup(WithMetadata(map[], m)))];
    EntryVars(inv, name, NewGroup(WithMetadata(map[], m)));
    if parent != "" && parent != "all" && Sub(inv1, parent).Some? {
      var group := Sub(inv1, parent).value;
      EntryVars(inv1, parent, group["children" := Map(SubOrEmpty(group, "children")[name := EMPTY])]);
    }
  }

  lemma AddHostVars(data: Stored, host: string, name: string)
    requires Shaped(Decode(data)) && AddHostToGroup(data, host, name).Save?
    ensures var inv', op := AddHostToGroup(data, host, name).doc, OpAddHost(host, name);
            KeepsVars(Decode(data), inv', op) && Introduces(Decode(data), inv', op)
  {
    var group := SubOrEmpty(Decode(data), name);
    EntryVars(Decode(data), name, group["hosts" := Map(SubOrEmpty(group, "hosts")[host := EMPTY])]);
  }

  lemma RemoveHostVars(data: Stored, host: string, name: string)
    requires Shaped(Decode(data))
    ensures var inv', op := RemoveHostFromGroup(data, host, name).doc, OpRemoveHost(host, name);
            KeepsVars(Decode(data), inv', op) && Introduces(Decode(data), inv', op)
  {
    var inv := Decode(data);
    if Sub(inv, name).Some? && Sub(Sub(inv, name).value, "hosts").Some? {
      var group := Sub(inv, name).value;
      EntryVars(inv, name, group["hosts" := Map(Sub(group, "hosts").value - {host})]);
    }
  }

  lemma DeleteGroupVars(data: Stored, name: string)
    requires Shaped(Decode(data))
    ensures var inv', op := DeleteGroup(data, name).doc, OpDeleteGroup(name);
            KeepsVars(Decode(data), inv', op) && Introduces(Decode(data), inv', op)
  {
    UnlistVars(Decode(data) - {name}, "children", name);
  }

  lemma MetadataVars(data: Stored, name: string, m: Metadata)
    requires Shaped(Decode(data)) && UpdateGroupMetadata(data, name, m).Save?
    ensures var inv', op := UpdateGroupMetadata(data, name, m).doc, OpGroupMetadata(name, m);
            KeepsVars(Decode(data), inv', op) && Introduces(Decode(data), inv', op)
  {
    var group := Sub(Decode(data), name).value;
    EntryVars(Decode(data), name, group["vars" := Map(WithMetadata(Sub(group, "vars").value, m))]);
  }

  lemma HostListVars(inv: Doc, hosts: Doc, op: Op)
    requires Shaped(inv) && !op.OpCreateGroup?
    ensures var inv' := inv["all" := Map(SubOrEmpty(inv, "all")["hosts" := Map(hosts)])];
            KeepsVars(inv, inv', op) && Introduces(inv, inv', op)
  {
    EntryVars(inv, "all", SubOrEmpty(inv, "all")["hosts" := Map(hosts)]);
  }

  lemma CreateHostVars(data: Stored, name: string, address: string, m: Metadata, defaultOwner: string)
    requires Shaped(Decode(data)) && CreateHost(data, name, address, m, defaultOwner).Save?
    ensures var inv', op := CreateHost(data, name, address, m, defaultOwner).doc, OpCreateHost(name, address, m, defaultOwner);
            KeepsVars(Decode(data), inv', op) && Introduces(Decode(data), inv', op)
  {
    var inv := Decode(data);
    var all := SubOrEmpty(inv, "all");
    var m1 := Normalized(m);
    var m2 := if m1.owner == "" then m1.(owner := defaultOwner) else m1;
    var host := Map(WithMetadata(map["ansible_host" := Scalar(address)], m2));
    HostListVars(inv, SubOrEmpty(all, "hosts")[name := host], OpCreateHost(name, address, m, defaultOwner));
  }

  lemma UpdateHostVars(data: Stored, name: string, address: string, m: Metadata)
    requires Shaped(Decode(data)) && UpdateHost(data, name, address, m).Save?
    ensures var inv', op := UpdateHost(data, name, address, m).doc, OpUpdateHost(name, address, m);
            KeepsVars(Decode(data), inv', op) && Introduces(Decode(data), inv', op)
  {
    var hosts := Sub(Sub(Decode(data), "all").value, "hosts").value;
    var host := Map(UpdatedHost(Sub(hosts, name).value, address, m));
    HostListVars(Decode(data), hosts[name := host], OpUpdateHost(name, address, m));
  }

  lemma DeleteHostVars(data: Stored, name: string)
    requires Shaped(Decode(data)) && DeleteHost(data, name).Save?
    ensures var inv', op := DeleteHost(data, name).doc, OpDeleteHost(name);
            KeepsVars(Decode(data), inv', op) && Introduces(Decode(data), inv', op)
  {
    UnlistVars(Decode(data), "hosts", name);
  }

  lemma EditVars(data: Stored, op: Op)
    requires Shaped(Decode(data))
    ensures var inv' := Decode(Next(data, Perform(data, op)));
            KeepsVars(Decode(data), inv', op) && Introduces(Decode(data), inv', op)
  {
    if Perform(data, op).Save? {
      match op
      case OpCreateGroup(name, parent, m) => CreateGroupVars(data, name, parent, m);
      case OpDeleteGroup(name) => DeleteGroupVars(data, name);
      case OpAddHost(host, name) => AddHostVars(data, host, name);
      case OpRemoveHost(host, name) => RemoveHostVars(data, host, name);
      case OpGroupMetadata(name, m) => MetadataVars(data, name, m);
      case OpCreateHost(name, address, m, owner) => CreateHostVars(data, name, address, m, owner);
      case OpUpdateHost(name, address, m) => UpdateHostVars(data, name, address, m);
      case OpDeleteHost(name) => DeleteHostVars(data, name);
    }
  }

  /* ---- whole runs ---- */

  /** The edit with which a group last came into the inventory. */
  function LastIntroduction(ops: seq<Op>, g: string): Option<Op> {
    if ops == [] then None
    else
      var before := ops[..|ops| - 1];
      if g !in Decode(Run(None, before)) && g in Decode(Run(None, ops)) then Some(ops[|ops| - 1])
      else LastIntroduction(before, g)
  }

  lemma {:induction false} RunSnoc(data: Stored, ops: seq<Op>)
    requires ops != []
    ensures var n := |ops| - 1;
            Run(data, ops) == Next(Run(data, ops[..n]), Perform(Run(data, ops[..n]), ops[n]))
    decreases |ops|
  {
    if |ops| > 1 {
      var n := |ops| - 1;
      RunSnoc(Next(data, Perform(data, ops[0])), ops[1..]);
      assert ops[1..][..n - 1] == ops[..n][1..];
    } else {
      assert ops[1..] == [] && ops[..0] == [];
    }
  }

  /** Whether an entry has vars was settled when it came in. */
  lemma {:induction false} VarsByIntroduction(ops: seq<Op>, g: string)
    ensures Shaped(Decode(Run(None, ops)))
    ensures g in Decode(Run(None, ops)) ==>
              var last := LastIntroduction(ops, g);
              && last.Some? && (VarsOf(Decode(Run(None, ops)), g) <==> last.value.OpCreateGroup? && last.value.name == g)
              && (g != "all" ==> (last.value.OpCreateGroup? || last.value.OpAddHost?) && last.value.name == g)
    decreases |ops|
  {
    if ops != [] {
      var before := ops[..|ops| - 1];
      VarsByIntroduction(before, g);
      EditVars(Run(None, before), ops[|ops| - 1]);
      RunSnoc(None, ops);
    }
  }

  /** After any run from an empty inventory, updating a group's metadata hangs exactly if the group is
      there and last came in otherwise than by being created: if it is not "all", by a host being
      added to it. */
  lemma UpdateHangsExactly(ops: seq<Op>, g: string, m: Metadata)
    ensures var last := LastIntroduction(ops, g);
      && (!Returns(Run(None, ops), g, m) <==>
            g in Decode(Run(None, ops)) && last.Some? && !(last.value.OpCreateGroup? && last.value.name == g))
      && (g != "all" && g in Decode(Run(None, ops)) ==>
            (!Returns(Run(None, ops), g, m) <==> last.Some? && last.value.OpAddHost?))
  {
    VarsByIntroduction(ops, g);
    CallReturnsExactly(Run(None, ops), g, m);
  }
}
