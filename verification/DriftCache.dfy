/** Drift detection against a cached row per stack: first the hash of the stack's files, then the
    configuration hashes of its containers. */
module DriftCache {
  import opened Options
  import opened BundleHash

  type Hashes = map<string, string>

  /* ---- what docker reports ---- */

  /** The two compose labels of a container; a missing label reads as "". */
  datatype Container = Container(service: string, configHash: string)

  function WithContainer(hashes: Hashes, c: Container): Hashes {
    if c.service != "" && c.configHash != "" then hashes[c.service := c.configHash] else hashes
  }

  function Collected(hashes: Hashes, cs: seq<Container>): Hashes
    decreases |cs|
  {
    if cs == [] then hashes else Collected(WithContainer(hashes, cs[0]), cs[1..])
  }

  /** The hash per service: containers lacking a label do not count, a later one wins. */
  function ActualHashes(cs: seq<Container>): Hashes {
    Collected(map[], cs)
  }

  predicate NoEmptyHash(hashes: Hashes) {
    forall k | k in hashes :: hashes[k] != ""
  }

  lemma {:induction false} CollectedHasNoEmpty(hashes: Hashes, cs: seq<Container>)
    requires NoEmptyHash(hashes)
    ensures NoEmptyHash(Collected(hashes, cs))
    decreases |cs|
  {
    if cs != [] { CollectedHasNoEmpty(WithContainer(hashes, cs[0]), cs[1..]); }
  }

  /** The last container of the listing that carries both the service's label and a hash carries this
      hash. */
  ghost predicate Reports(cs: seq<Container>, service: string, configHash: string) {
    && service != "" && configHash != ""
    && exists i | 0 <= i < |cs| :: cs[i] == Container(service, configHash)
         && forall j | i < j < |cs| :: cs[j].service == service ==> cs[j].configHash == ""
  }

  lemma {:induction false} CollectedSnoc(hashes: Hashes, cs: seq<Container>, c: Container)
    ensures Collected(hashes, cs + [c]) == WithContainer(Collected(hashes, cs), c)
    decreases |cs|
  {
    if cs == [] {
      assert [c][1..] == [];
    } else {
      assert (cs + [c])[1..] == cs[1..] + [c];
      CollectedSnoc(WithContainer(hashes, cs[0]), cs[1..], c);
    }
  }

  lemma ReportsSnoc(cs: seq<Container>, c: Container, service: string, configHash: string)
    ensures Reports(cs + [c], service, configHash) <==>
              service != "" && configHash != "" &&
              if c.service == service && c.configHash != "" then c.configHash == configHash
              else Reports(cs, service, configHash)
  {
    var cs' := cs + [c];
    assert cs'[|cs|] == c && forall i | 0 <= i < |cs| :: cs'[i] == cs[i];
    if service != "" && configHash != "" {
      if c == Container(service, configHash) {
        assert cs'[|cs|] == Container(service, configHash);
      }
      if Reports(cs, service, configHash) && !(c.service == service && c.configHash != "") {
        var i :| 0 <= i < |cs| && cs[i] == Container(service, configHash)
          && forall j | i < j < |cs| :: cs[j].service == service ==> cs[j].configHash == "";
        assert cs'[i] == Container(service, configHash);
      }
    }
  }

  /** What is collected is exactly what the listing reports, by index. */
  lemma {:induction false} ActualHashesExactly(cs: seq<Container>, service: string, configHash: string)
    ensures service in ActualHashes(cs) && ActualHashes(cs)[service] == configHash <==> Reports(cs, service, configHash)
    decreases |cs|
  {
    if cs != [] {
      var front, c := cs[..|cs| - 1], cs[|cs| - 1];
      assert cs == front + [c];
      ActualHashesExactly(front, service, configHash);
      CollectedSnoc(map[], front, c);
      ReportsSnoc(front, c, service, configHash);
    }
  }

  ghost predicate ReportTheSame(cs: seq<Container>, cs': seq<Container>) {
    forall service, configHash :: Reports(cs, service, configHash) <==> Reports(cs', service, configHash)
  }

  lemma ReportedIn(cs: seq<Container>, cs': seq<Container>)
    requires ReportTheSame(cs, cs')
    ensures forall k | k in ActualHashes(cs) :: k in ActualHashes(cs') && ActualHashes(cs')[k] == ActualHashes(cs)[k]
  {
    forall k | k in ActualHashes(cs)
      ensures k in ActualHashes(cs') && ActualHashes(cs')[k] == ActualHashes(cs)[k]
    {
      ActualHashesExactly(cs, k, ActualHashes(cs)[k]);
      ActualHashesExactly(cs', k, ActualHashes(cs)[k]);
    }
  }

  lemma SameReports(cs: seq<Container>, cs': seq<Container>)
    ensures ActualHashes(cs) == ActualHashes(cs') <==> ReportTheSame(cs, cs')
  {
    if ActualHashes(cs) == ActualHashes(cs') {
      forall service, configHash
        ensures Reports(cs, service, configHash) <==> Reports(cs', service, configHash)
      {
        ActualHashesExactly(cs, service, configHash);
        ActualHashesExactly(cs', service, configHash);
      }
    }
    if ReportTheSame(cs, cs') {
      ReportedIn(cs, cs');
      ReportedIn(cs', cs);
    }
  }

  method GetActualDockerConfigHashes(cs: seq<Container>) returns (hashes: Hashes)
    ensures hashes == ActualHashes(cs) && NoEmptyHash(hashes)
    ensures forall k, h :: k in hashes && hashes[k] == h <==> Reports(cs, k, h)
  {
    forall k, h
      ensures k in ActualHashes(cs) && ActualHashes(cs)[k] == h <==> Reports(cs, k, h)
    {
      ActualHashesExactly(cs, k, h);
    }
    hashes := map[];
    assert cs[0..] == cs;
    for i := 0 to |cs|
      invariant Collected(hashes, cs[i..]) == Collected(map[], cs) && NoEmptyHash(hashes)
    {
      assert cs[i..][1..] == cs[i + 1..];
      if cs[i].service != "" && cs[i].configHash != "" {
        hashes := hashes[cs[i].service := cs[i].configHash];
      }
    }
  }

  /* ---- comparing two maps ---- */

  /** A lookup in Go: a missing key reads as "". */
  function At(m: Hashes, k: string): string {
    if k in m then m[k] else ""
  }

  predicate Agree(a: Hashes, b: Hashes) {
    |a| == |b| && forall k | k in a :: At(b, k) == a[k]
  }

  method HashMapsEqual(a: Hashes, b: Hashes) returns (equal: bool)
    ensures equal == Agree(a, b)
    ensures NoEmptyHash(a) ==> (equal <==> a == b)
  {
    if NoEmptyHash(a) { AgreeIsEquality(a, b); }
    if |a| != |b| { return false; }
    var keys: set<string> := a.Keys;
    while keys != {}
      invariant keys <= a.Keys
      invariant forall k | k in a && k !in keys :: At(b, k) == a[k]
      decreases |keys|
    {
      var k: string :| k in keys;
      if At(b, k) != a[k] { return false; }
      keys := keys - {k};
    }
    equal := true;
  }

  lemma AgreeIsEquality(a: Hashes, b: Hashes)
    requires NoEmptyHash(a)
    ensures Agree(a, b) <==> a == b
  {
    if Agree(a, b) {
      assert a.Keys <= b.Keys;
      SameSize(a.Keys, b.Keys);
    }
  }

  lemma {:induction false} SameSize<T>(a: set<T>, b: set<T>)
    requires a <= b && |a| == |b|
    ensures a == b
  {
    assert |b - a| == |b| - |a|;
    assert b == a + (b - a);
  }

  lemma {:induction false} LongerThanAll(keys: set<string>) returns (fresh': string)
    ensures forall k | k in keys :: |k| < |fresh'|
    decreases |keys|
  {
    if keys == {} {
      fresh' := "";
    } else {
      var k :| k in keys;
      var shorter := LongerThanAll(keys - {k});
      fresh' := shorter + k + "k";
    }
  }

  /** The comparison is equality of maps exactly for maps that store no empty hash: an empty one
      is matched by a missing key. */
  lemma AgreementIsEqualityExactly(a: Hashes)
    ensures (forall b: Hashes :: Agree(a, b) <==> a == b) <==> NoEmptyHash(a)
  {
    if NoEmptyHash(a) {
      forall b: Hashes
        ensures Agree(a, b) <==> a == b
      {
        AgreeIsEquality(a, b);
      }
    } else {
      var k :| k in a && a[k] == "";
      var other := LongerThanAll(a.Keys);
      MissingKeyAgrees(a, k, other);
    }
  }

  lemma MissingKeyAgrees(a: Hashes, k: string, other: string)
    requires k in a && a[k] == "" && other !in a
    ensures exists b: Hashes :: Agree(a, b) && a != b
  {
    var b := (a - {k})[other := ""];
    assert b.Keys == a.Keys - {k} + {other};
    assert |b| == |b.Keys| == |a.Keys| == |a|;
    assert Agree(a, b) && other in b;
  }

  /* ---- the cache table ---- */

  datatype Row = Row(bundleHash: string, docker: Hashes)
  type Table = map<int, Row>

  function StoredBundle(t: Table, id: int): string {
    if id in t then t[id].bundleHash else ""
  }

  function CachedDocker(t: Table, id: int): Hashes {
    if id in t then t[id].docker else map[]
  }

  /** An update that only touches an existing row, and the upserts of one or both columns. */
  function ClearDocker(t: Table, id: int): Table {
    if id in t then t[id := Row(t[id].bundleHash, map[])] else t
  }

  function PutBundle(t: Table, id: int, bundleHash: string): Table {
    t[id := Row(bundleHash, CachedDocker(t, id))]
  }

  function PutDocker(t: Table, id: int, docker: Hashes): Table {
    t[id := Row(StoredBundle(t, id), docker)]
  }

  datatype Reason = StagingFailed | FilesChanged | Unverified | ContainersChanged | NoDrift
  {
    predicate Drift() { FilesChanged? || ContainersChanged? }
  }

  datatype Detection = Detection(rows: Table, reason: Reason)

  /** One detection.  `current` is missing when staging fails, `listing` when docker does not answer. */
  function Detect(t: Table, id: int, current: Option<string>, listing: Option<seq<Container>>): Detection {
    if current.None? then Detection(t, StagingFailed)
    else if current.value != StoredBundle(t, id) then
      Detection(PutBundle(ClearDocker(t, id), id, current.value), FilesChanged)
    else if listing.None? then Detection(t, Unverified)
    else if !Agree(CachedDocker(t, id), ActualHashes(listing.value)) then
      Detection(PutDocker(t, id, ActualHashes(listing.value)), ContainersChanged)
    else Detection(t, NoDrift)
  }

  function Deployed(t: Table, id: int, current: Option<string>, listing: Option<seq<Container>>): Table {
    if current.Some? && listing.Some? then t[id := Row(current.value, ActualHashes(listing.value))] else t
  }

  ghost predicate TableHasNoEmpty(t: Table) {
    forall id | id in t :: NoEmptyHash(t[id].docker)
  }

  /** The stored hashes are exactly those the listing reports. */
  ghost predicate Matches(docker: Hashes, cs: seq<Container>) {
    forall k, h :: k in docker && docker[k] == h <==> Reports(cs, k, h)
  }

  lemma MatchesExactly(docker: Hashes, cs: seq<Container>)
    requires NoEmptyHash(docker)
    ensures Matches(docker, cs) <==> Agree(docker, ActualHashes(cs))
  {
    var actual := ActualHashes(cs);
    AgreeIsEquality(docker, actual);
    forall k, h
      ensures k in actual && actual[k] == h <==> Reports(cs, k, h)
    {
      ActualHashesExactly(cs, k, h);
    }
    if Matches(docker, cs) {
      forall k
        ensures k in docker <==> k in actual
        ensures k in docker ==> docker[k] == actual[k]
      {
        if k in docker { assert Reports(cs, k, docker[k]); }
        if k in actual { assert Reports(cs, k, actual[k]); }
      }
    }
  }

  /** Every answer, and exactly when it is given; it means drift only in two of the five cases. */
  lemma AnswersExactly(t: Table, id: int, current: Option<string>, listing: Option<seq<Container>>)
    requires TableHasNoEmpty(t)
    ensures var reason, stored := Detect(t, id, current, listing).reason, if id in t then t[id] else Row("", map[]);
            var same := current == Some(stored.bundleHash);
      && (reason == StagingFailed <==> current.None?)
      && (reason == FilesChanged <==> current.Some? && !same)
      && (reason == Unverified <==> same && listing.None?)
      && (reason == ContainersChanged <==> same && listing.Some? && !Matches(stored.docker, listing.value))
      && (reason == NoDrift <==> same && listing.Some? && Matches(stored.docker, listing.value))
      && (reason.Drift() <==> reason == FilesChanged || reason == ContainersChanged)
  {
    if listing.Some? { MatchesExactly(CachedDocker(t, id), listing.value); }
  }

  class StackDriftCache {
    var rows: Table

    constructor ()
      ensures rows == map[] && TableHasNoEmpty(rows)
    {
      rows := map[];
    }

    method ClearCachedDockerConfigHashes(id: int)
      modifies this
      ensures rows == ClearDocker(old(rows), id)
    {
      if id in rows {
        rows := rows[id := Row(rows[id].bundleHash, map[])];
      }
    }

    method UpdateStoredBundleHash(id: int, bundleHash: string)
      modifies this
      ensures rows == PutBundle(old(rows), id, bundleHash)
    {
      if id in rows {
        rows := rows[id := rows[id].(bundleHash := bundleHash)];
      } else {
        rows := rows[id := Row(bundleHash, map[])];
      }
    }

    method StoreCachedDockerConfigHashes(id: int, docker: Hashes)
      modifies this
      ensures rows == PutDocker(old(rows), id, docker)
    {
      if id in rows {
        rows := rows[id := rows[id].(docker := docker)];
      } else {
        rows := rows[id := Row("", docker)];
      }
    }

    method DetectDriftViaHashes(id: int, current: Option<string>, listing: Option<seq<Container>>)
      returns (drift: bool, reason: Reason)
      modifies this
      ensures Detection(rows, reason) == Detect(old(rows), id, current, listing) && drift == reason.Drift()
      ensures TableHasNoEmpty(old(rows)) ==> TableHasNoEmpty(rows)
      ensures forall other | other != id :: (other in rows <==> other in old(rows)) && (other in rows ==> rows[other] == old(rows)[other])
      ensures TableHasNoEmpty(old(rows)) && current.Some? && listing.Some? ==>
                (reason == NoDrift <==>
                   current.value == StoredBundle(old(rows), id) && ActualHashes(listing.value) == CachedDocker(old(rows), id))
    {
      if current.None? { return false, StagingFailed; }
      var storedBundleHash := StoredBundle(rows, id);
      if current.value != storedBundleHash {
        ClearCachedDockerConfigHashes(id);
        UpdateStoredBundleHash(id, current.value);
        return true, FilesChanged;
      }
      var cachedDockerHashes := CachedDocker(rows, id);
      if listing.None? { return false, Unverified; }
      var actualDockerHashes := GetActualDockerConfigHashes(listing.value);
      var equal := HashMapsEqual(cachedDockerHashes, actualDockerHashes);
      if !equal {
        StoreCachedDockerConfigHashes(id, actualDockerHashes);
        return true, ContainersChanged;
      }
      return false, NoDrift;
    }

    method OnSuccessfulDeployment(id: int, current: Option<string>, listing: Option<seq<Container>>) returns (ok: bool)
      modifies this
      ensures rows == Deployed(old(rows), id, current, listing) && ok == (current.Some? && listing.Some?)
      ensures TableHasNoEmpty(old(rows)) ==> TableHasNoEmpty(rows)
    {
      if current.None? || listing.None? { return false; }
      var dockerHashes := GetActualDockerConfigHashes(listing.value);
      rows := rows[id := Row(current.value, dockerHashes)];
      ok := true;
    }
  }

  /* ---- how often drift is reported ---- */

  /** What the outside world holds for one stack. */
  datatype Outside = Outside(bundleHash: string, containers: seq<Container>)

  /** Things that happen to one stack; staging its files and listing its containers may fail. */
  datatype Event =
    | Check(staged: bool, listed: bool)
    | Deploy(staged: bool, listed: bool)
    | Change(now: Outside)

  datatype State = State(rows: Table, outside: Outside)

  function Bundle(s: State, staged: bool): Option<string> {
    if staged then Some(s.outside.bundleHash) else None
  }

  function Listing(s: State, listed: bool): Option<seq<Container>> {
    if listed then Some(s.outside.containers) else None
  }

  function After(s: State, id: int, e: Event): State {
    match e
    case Check(staged, listed) => s.(rows := Detect(s.rows, id, Bundle(s, staged), Listing(s, listed)).rows)
    case Deploy(staged, listed) => s.(rows := Deployed(s.rows, id, Bundle(s, staged), Listing(s, listed)))
    case Change(now) => s.(outside := now)
  }

  function Alarm(s: State, id: int, e: Event): nat {
    if e.Check? && Detect(s.rows, id, Bundle(s, e.staged), Listing(s, e.listed)).reason.Drift() then 1 else 0
  }

  function Alarms(s: State, id: int, es: seq<Event>): nat
    decreases |es|
  {
    if es == [] then 0 else Alarm(s, id, es[0]) + Alarms(After(s, id, es[0]), id, es[1..])
  }

  function Changes(es: seq<Event>): nat {
    if es == [] then 0 else (if es[0].Change? then 1 else 0) + Changes(es[1..])
  }

  /** The alarms still to come if nothing changes: changed files also empty the container cache, so
      they are reported twice unless the stack has no containers. */
  function Pending(s: State, id: int): nat {
    if s.outside.bundleHash != StoredBundle(s.rows, id) then
      if ActualHashes(s.outside.containers) == map[] then 1 else 2
    else if Agree(CachedDocker(s.rows, id), ActualHashes(s.outside.containers)) then 0 else 1
  }

  lemma EventLowersPending(s: State, id: int, e: Event)
    ensures Alarm(s, id, e) + Pending(After(s, id, e), id) <= Pending(s, id) + (if e.Change? then 2 else 0)
    ensures e == Check(true, true) ==>
              Alarm(s, id, e) == (if Pending(s, id) > 0 then 1 else 0) && Alarm(s, id, e) + Pending(After(s, id, e), id) == Pending(s, id)
  {
    var actual := ActualHashes(s.outside.containers);
    assert Agree(actual, actual);
    assert Agree(map[], actual) <==> actual == map[] by {
      if Agree(map[], actual) { AgreeIsEquality(map[], actual); }
    }
  }

  /** Over any run and from any cache contents, drift is reported at most twice, and twice more for
      every change outside. */
  lemma {:induction false} AlarmsAreBounded(s: State, id: int, es: seq<Event>)
    ensures Alarms(s, id, es) <= Pending(s, id) + 2 * Changes(es) <= 2 + 2 * Changes(es)
    decreases |es|
  {
    if es != [] {
      EventLowersPending(s, id, es[0]);
      AlarmsAreBounded(After(s, id, es[0]), id, es[1..]);
    }
  }

  function Quiet(n: nat): seq<Event> {
    if n == 0 then [] else [Check(true, true)] + Quiet(n - 1)
  }

  /** With nothing changing, the first `Pending` checks report drift and no later one does. */
  lemma {:induction false} QuietAlarmsExactly(s: State, id: int, n: nat)
    ensures Alarms(s, id, Quiet(n)) == if n < Pending(s, id) then n else Pending(s, id)
    decreases n
  {
    if n > 0 {
      EventLowersPending(s, id, Check(true, true));
      QuietAlarmsExactly(After(s, id, Check(true, true)), id, n - 1);
      assert Quiet(n)[1..] == Quiet(n - 1);
    }
  }

  /* ---- what "no drift" means ---- */

  function Run(s: State, id: int, es: seq<Event>): State
    decreases |es|
  {
    if es == [] then s else Run(After(s, id, es[0]), id, es[1..])
  }

  function OutsideAfter(o: Outside, es: seq<Event>): Outside
    decreases |es|
  {
    if es == [] then o else OutsideAfter(if es[0].Change? then es[0].now else o, es[1..])
  }

  function AsIs(o: Outside): Row {
    Row(o.bundleHash, ActualHashes(o.containers))
  }

  /** What an event leaves on record: a complete deployment the present state; a check that finds other
      files their hash and no containers, and one that gets as far as the containers the present
      state. */
  function Record(row: Row, o: Outside, e: Event): Row {
    match e
    case Change(_) => row
    case Deploy(staged, listed) => if staged && listed then AsIs(o) else row
    case Check(staged, listed) =>
      if !staged then row
      else if o.bundleHash != row.bundleHash then Row(o.bundleHash, map[])
      else if listed then AsIs(o)
      else row
  }

  function RecordAfter(row: Row, o: Outside, es: seq<Event>): Row
    decreases |es|
  {
    if es == [] then row
    else RecordAfter(Record(row, o, es[0]), if es[0].Change? then es[0].now else o, es[1..])
  }

  lemma EventRecords(s: State, id: int, e: Event)
    requires id in s.rows && NoEmptyHash(s.rows[id].docker)
    ensures var t := After(s, id, e);
      && id in t.rows && NoEmptyHash(t.rows[id].docker)
      && t.rows[id] == Record(s.rows[id], s.outside, e) && t.outside == (if e.Change? then e.now else s.outside)
  {
    CollectedHasNoEmpty(map[], s.outside.containers);
    AgreeIsEquality(s.rows[id].docker, ActualHashes(s.outside.containers));
  }

  lemma {:induction false} RunRecords(s: State, id: int, es: seq<Event>)
    requires id in s.rows && NoEmptyHash(s.rows[id].docker)
    ensures var t := Run(s, id, es);
      && id in t.rows && NoEmptyHash(t.rows[id].docker)
      && t.rows[id] == RecordAfter(s.rows[id], s.outside, es) && t.outside == OutsideAfter(s.outside, es)
    decreases |es|
  {
    if es != [] {
      EventRecords(s, id, es[0]);
      RunRecords(After(s, id, es[0]), id, es[1..]);
    }
  }

  /** A complete deployment, and everything that happens to the stack afterwards. */
  function Since(t: Table, id: int, o: Outside, es: seq<Event>): State {
    Run(State(Deployed(t, id, Some(o.bundleHash), Some(o.containers)), o), id, es)
  }

  /** The answer of a check that can stage the files and list the containers. */
  function Answer(rows: Table, id: int, now: Outside): Reason {
    Detect(rows, id, Some(now.bundleHash), Some(now.containers)).reason
  }

  /** After a deployment and any events, "no drift" is answered exactly while the stack is as the
      last deployment or check that looked at it left it on record. */
  lemma NoDriftExactly(t: Table, id: int, o: Outside, es: seq<Event>, now: Outside)
    ensures Answer(Since(t, id, o, es).rows, id, now) == NoDrift <==> AsIs(now) == RecordAfter(AsIs(o), o, es)
  {
    CollectedHasNoEmpty(map[], o.containers);
    var s := State(Deployed(t, id, Some(o.bundleHash), Some(o.containers)), o);
    RunRecords(s, id, es);
    AgreeIsEquality(Run(s, id, es).rows[id].docker, ActualHashes(now.containers));
  }

  /** After a complete deployment, a check that finds the same files reports exactly whether the labels
      of the containers still say the same. */
  lemma ContainerDriftExactly(t: Table, id: int, o: Outside, cs: seq<Container>)
    ensures var answer := Answer(Since(t, id, o, []).rows, id, Outside(o.bundleHash, cs));
      && (answer == NoDrift <==> ReportTheSame(o.containers, cs))
      && (answer == ContainersChanged <==> !ReportTheSame(o.containers, cs))
  {
    NoDriftExactly(t, id, o, [], Outside(o.bundleHash, cs));
    SameReports(o.containers, cs);
  }

  lemma {:induction false} RecordIsReal(row: Row, o: Outside, es: seq<Event>) returns (seen: Outside)
    requires exists past :: AsIs(past) == row
    ensures AsIs(seen) == RecordAfter(row, o, es)
    decreases |es|
  {
    if es == [] {
      seen :| AsIs(seen) == row;
    } else {
      var next := Record(row, o, es[0]);
      assert AsIs(Outside(o.bundleHash, [])) == Row(o.bundleHash, map[]);
      assert exists past :: AsIs(past) == next by {
        if next == AsIs(o) { assert AsIs(o) == next; }
      }
      seen := RecordIsReal(next, if es[0].Change? then es[0].now else o, es[1..]);
    }
  }

  /** So the answer means "as deployed" exactly while what is on record is what was deployed. */
  lemma MeansAsDeployedExactly(t: Table, id: int, o: Outside, es: seq<Event>)
    ensures (forall now :: Answer(Since(t, id, o, es).rows, id, now) == NoDrift <==> AsIs(now) == AsIs(o))
      <==> RecordAfter(AsIs(o), o, es) == AsIs(o)
  {
    var seen := RecordIsReal(AsIs(o), o, es);
    NoDriftExactly(t, id, o, es, seen);
    if RecordAfter(AsIs(o), o, es) == AsIs(o) {
      forall now
        ensures Answer(Since(t, id, o, es).rows, id, now) == NoDrift <==> AsIs(now) == AsIs(o)
      {
        NoDriftExactly(t, id, o, es, now);
      }
    }
  }

  /** Every check and deployment since found what is on record, as far as it looked. */
  predicate Unnoticed(row: Row, o: Outside, es: seq<Event>)
    decreases |es|
  {
    es == [] ||
    (var seen := match es[0]
                 case Change(_) => true
                 case Deploy(staged, listed) => staged && listed ==> AsIs(o) == row
                 case Check(staged, listed) =>
                   staged ==> o.bundleHash == row.bundleHash && (listed ==> AsIs(o) == row);
     seen && Unnoticed(row, if es[0].Change? then es[0].now else o, es[1..]))
  }

  lemma {:induction false} UnnoticedKeepsRecord(row: Row, o: Outside, es: seq<Event>)
    requires Unnoticed(row, o, es)
    ensures RecordAfter(row, o, es) == row
    decreases |es|
  {
    if es != [] { UnnoticedKeepsRecord(row, if es[0].Change? then es[0].now else o, es[1..]); }
  }

  predicate NoDeployment(es: seq<Event>) {
    forall e | e in es :: e.Deploy? ==> !(e.staged && e.listed)
  }

  /** Without another deployment, nothing was noticed exactly if no alarm was raised. */
  lemma {:induction false} UnnoticedExactly(s: State, id: int, es: seq<Event>)
    requires id in s.rows && NoEmptyHash(s.rows[id].docker) && NoDeployment(es)
    ensures Unnoticed(s.rows[id], s.outside, es) <==> Alarms(s, id, es) == 0
    decreases |es|
  {
    if es != [] {
      var e := es[0];
      assert e in es && forall x | x in es[1..] :: x in es;
      EventRecords(s, id, e);
      CollectedHasNoEmpty(map[], s.outside.containers);
      AgreeIsEquality(s.rows[id].docker, ActualHashes(s.outside.containers));
      UnnoticedExactly(After(s, id, e), id, es[1..]);
    }
  }

  /** Until the first alarm after a deployment, a check answers "no drift" exactly while the stack's
      files and its containers' configurations are those of the deployment. */
  lemma CheckIsExactSinceDeployment(sha: Hash, t: Table, id: int,
                                    walk: seq<File>, dir: Directory, cs: seq<Container>, es: seq<Event>,
                                    later: seq<File>, dir': Directory, cs': seq<Container>)
    requires Walks(walk, dir) && Walks(later, dir') && ClearPaths(dir) && ClearPaths(dir')
    requires HexHash(sha) && NoCollision(sha, Hashed(sha, walk) + Hashed(sha, later))
    requires NoDeployment(es)
    requires var o := Outside(BundleDigest(sha, walk), cs);
             Alarms(State(Deployed(t, id, Some(o.bundleHash), Some(cs)), o), id, es) == 0
    ensures var o, now := Outside(BundleDigest(sha, walk), cs), Outside(BundleDigest(sha, later), cs');
            (Answer(Since(t, id, o, es).rows, id, now) == NoDrift <==> dir == dir' && ActualHashes(cs) == ActualHashes(cs'))
  {
    var o, now := Outside(BundleDigest(sha, walk), cs), Outside(BundleDigest(sha, later), cs');
    var s := State(Deployed(t, id, Some(o.bundleHash), Some(cs)), o);
    DigestIsFaithful(sha, walk, later, dir, dir');
    CollectedHasNoEmpty(map[], cs);
    UnnoticedExactly(s, id, es);
    UnnoticedKeepsRecord(AsIs(o), o, es);
    NoDriftExactly(t, id, o, es, now);
  }

  /** An alarm is raised once and forgotten: after it, files that were never deployed are no drift. */
  lemma CheckForgetsDeployment(t: Table, id: int, deployed: string, edited: string)
    requires deployed != edited
    ensures var o, now := Outside(deployed, []), Outside(edited, []);
      && Answer(Since(t, id, o, [Change(now)]).rows, id, now) == FilesChanged
      && Answer(Since(t, id, o, [Change(now), Check(true, true)]).rows, id, now) == NoDrift
  {
    var o, now := Outside(deployed, []), Outside(edited, []);
    var es := [Change(now), Check(true, true)];
    assert es[1..] == [Check(true, true)] && es[1..][1..] == [] && [Change(now)][1..] == [];
    assert RecordAfter(AsIs(o), now, es[1..]) == AsIs(now);
    assert RecordAfter(AsIs(o), o, es) == AsIs(now);
    NoDriftExactly(t, id, o, es, now);
    var s := State(Deployed(t, id, Some(deployed), Some([])), o);
    assert Since(t, id, o, [Change(now)]) == Run(After(s, id, Change(now)), id, []);
  }
}
