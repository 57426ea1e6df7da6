/** One pass of the auto-scanner: the main loop starts a goroutine per host, a buffered channel
    bounds how many scan at once, a mutex guards the totals and a wait group ends the pass.  Every
    interleaving is a schedule of single steps. */
module ScanAll {
  import opened Options

  /** How the scan of one host goes. */
  datatype Outcome = Saved(count: int) | Skipped | Failed

  datatype Counters = Counters(total: int, scanned: nat, skipped: nat, failed: nat)

  const ZERO := Counters(0, 0, 0, 0)

  function Record(c: Counters, o: Outcome): Counters {
    match o
    case Saved(n) => c.(scanned := c.scanned + 1, total := c.total + n)
    case Skipped => c.(skipped := c.skipped + 1)
    case Failed => c.(failed := c.failed + 1)
  }

  /** A goroutine, from before its start to after its last deferred call.  The update of the
      counters is a read and a write. */
  datatype Worker = Idle | Scanning | Scanned | Locked | Loaded(seen: Counters) | Stored | Unlocked | Released | Done
  {
    predicate HoldsSlot() { !Idle? && !Released? && !Done? }
    predicate Running() { !Idle? && !Done? }
    predicate Inside() { Locked? || Loaded? || Stored? }
    predicate Recorded() { Stored? || Unlocked? || Released? || Done? }

    /** Steps still to take. */
    function Left(): nat {
      match this
      case Idle => 8 case Scanning => 7 case Scanned => 6 case Locked => 5 case Loaded(_) => 4
      case Stored => 3 case Unlocked => 2 case Released => 1 case Done => 0
    }
  }

  /** The main loop: before `wg.Add`, before the send on the channel, in `wg.Wait`, or past it. */
  datatype Main = Adding | Sending | Waiting | Returned

  datatype State = State(main: Main, next: nat, workers: seq<Worker>, sem: nat, wg: nat, mutex: Option<nat>, counters: Counters)

  /** The hosts' scan outcomes and the capacity of the channel. */
  datatype Pass = Pass(outcomes: seq<Outcome>, conc: nat)

  datatype Action = MainStep | WorkerStep(i: nat)

  function NoneStarted(n: nat): (ws: seq<Worker>)
    ensures |ws| == n && forall k | 0 <= k < n :: ws[k] == Idle
  {
    if n == 0 then [] else [Idle] + NoneStarted(n - 1)
  }

  function Init(p: Pass): State {
    State(if p.outcomes == [] then Waiting else Adding, 0, NoneStarted(|p.outcomes|), 0, 0, None, ZERO)
  }

  function StepMain(p: Pass, s: State): Option<State> {
    match s.main
    case Adding => Some(s.(main := Sending, wg := s.wg + 1))
    case Sending =>
      if s.sem < p.conc && s.next < |s.workers| then
        Some(s.(main := if s.next + 1 == |s.workers| then Waiting else Adding, next := s.next + 1,
                sem := s.sem + 1, workers := s.workers[s.next := Scanning]))
      else None
    case Waiting => if s.wg == 0 then Some(s.(main := Returned)) else None
    case Returned => None
  }

  function StepWorker(p: Pass, s: State, i: nat): Option<State>
    requires |s.workers| == |p.outcomes|
  {
    if i >= |s.workers| then None
    else
      match s.workers[i]
      case Idle => None
      case Scanning => Some(s.(workers := s.workers[i := Scanned]))
      case Scanned => if s.mutex.None? then Some(s.(workers := s.workers[i := Locked], mutex := Some(i))) else None
      case Locked => Some(s.(workers := s.workers[i := Loaded(s.counters)]))
      case Loaded(seen) => Some(s.(workers := s.workers[i := Stored], counters := Record(seen, p.outcomes[i])))
      case Stored => Some(s.(workers := s.workers[i := Unlocked], mutex := None))
      case Unlocked => if s.sem > 0 then Some(s.(workers := s.workers[i := Released], sem := s.sem - 1)) else None
      case Released => if s.wg > 0 then Some(s.(workers := s.workers[i := Done], wg := s.wg - 1)) else None
      case Done => None
  }

  function Step(p: Pass, s: State, a: Action): Option<State>
    requires |s.workers| == |p.outcomes|
  {
    match a
    case MainStep => StepMain(p, s)
    case WorkerStep(i) => StepWorker(p, s, i)
  }

  /** A scheduler may pick a blocked goroutine; then nothing happens. */
  function Run(p: Pass, s: State, schedule: seq<Action>): State
    requires |s.workers| == |p.outcomes|
    decreases |schedule|
  {
    if schedule == [] then s
    else Run(p, if Step(p, s, schedule[0]).Some? then Step(p, s, schedule[0]).value else s, schedule[1..])
  }

  /* ---- counting over the goroutines ---- */

  function Count(ws: seq<Worker>, p: Worker -> bool): nat {
    if ws == [] then 0 else (if p(ws[0]) then 1 else 0) + Count(ws[1..], p)
  }

  lemma {:induction false} CountUpdate(ws: seq<Worker>, p: Worker -> bool, i: nat, w: Worker)
    requires i < |ws|
    ensures Count(ws[i := w], p) == Count(ws, p) - (if p(ws[i]) then 1 else 0) + (if p(w) then 1 else 0)
    decreases |ws|
  {
    if i == 0 {
      assert ws[0 := w][1..] == ws[1..];
    } else {
      CountUpdate(ws[1..], p, i - 1, w);
      assert ws[i := w][1..] == ws[1..][i - 1 := w];
    }
  }

  lemma {:induction false} CountZero(ws: seq<Worker>, p: Worker -> bool)
    ensures Count(ws, p) == 0 <==> forall k | 0 <= k < |ws| :: !p(ws[k])
    decreases |ws|
  {
    if ws != [] {
      CountZero(ws[1..], p);
      assert forall k | 0 <= k < |ws[1..]| :: ws[1..][k] == ws[k + 1];
      assert forall k | 0 < k < |ws| :: ws[k] == ws[1..][k - 1];
    }
  }

  lemma {:induction false} CountImplies(ws: seq<Worker>, p: Worker -> bool, q: Worker -> bool)
    requires forall w :: p(w) ==> q(w)
    ensures Count(ws, p) <= Count(ws, q)
    decreases |ws|
  {
    if ws != [] { CountImplies(ws[1..], p, q); }
  }

  function Plus(a: Counters, b: Counters): Counters {
    Counters(a.total + b.total, a.scanned + b.scanned, a.skipped + b.skipped, a.failed + b.failed)
  }

  /** The outcomes of the goroutines that have written theirs. */
  function Tally(ws: seq<Worker>, os: seq<Outcome>): Counters
    requires |ws| == |os|
  {
    if ws == [] then ZERO
    else if ws[0].Recorded() then Plus(Record(ZERO, os[0]), Tally(ws[1..], os[1..]))
    else Tally(ws[1..], os[1..])
  }

  lemma PlusRecord(a: Counters, o: Outcome)
    ensures Plus(Record(ZERO, o), a) == Record(a, o)
  {
  }

  lemma PlusInside(a: Counters, b: Counters, o: Outcome)
    ensures Plus(a, Record(b, o)) == Record(Plus(a, b), o)
  {
  }

  /** A goroutine that has just written is the only change in the tally. */
  lemma {:induction false} TallyUpdate(ws: seq<Worker>, os: seq<Outcome>, i: nat, w: Worker)
    requires |ws| == |os| && i < |ws|
    requires ws[i].Recorded() ==> w.Recorded()
    ensures w.Recorded() == ws[i].Recorded() ==> Tally(ws[i := w], os) == Tally(ws, os)
    ensures w.Recorded() && !ws[i].Recorded() ==> Tally(ws[i := w], os) == Record(Tally(ws, os), os[i])
    decreases |ws|
  {
    if i == 0 {
      assert ws[0 := w][1..] == ws[1..];
      PlusRecord(Tally(ws[1..], os[1..]), os[0]);
    } else {
      var ws', os' := ws[1..], os[1..];
      TallyUpdate(ws', os', i - 1, w);
      assert ws[i := w][1..] == ws'[i - 1 := w] && ws[i := w][0] == ws[0];
      PlusInside(Record(ZERO, os[0]), Tally(ws', os'), os[i]);
    }
  }

  lemma {:induction false} TallyNone(n: nat, os: seq<Outcome>)
    requires |os| == n
    ensures Tally(NoneStarted(n), os) == ZERO
    decreases n
  {
    if n > 0 {
      TallyNone(n - 1, os[1..]);
      assert NoneStarted(n)[1..] == NoneStarted(n - 1);
    }
  }

  lemma {:induction false} CountNone(n: nat, p: Worker -> bool)
    requires !p(Idle)
    ensures Count(NoneStarted(n), p) == 0
  {
    if n > 0 {
      CountNone(n - 1, p);
      assert NoneStarted(n)[1..] == NoneStarted(n - 1);
    }
  }

  /* ---- the invariant ---- */

  const Holding: Worker -> bool := (w: Worker) => w.HoldsSlot()
  const Alive: Worker -> bool := (w: Worker) => w.Running()

  /** Where the main loop is, and which goroutines it has started. */
  ghost predicate Started(p: Pass, s: State) {
    && |s.workers| == |p.outcomes| && s.next <= |s.workers|
    && (s.main.Adding? || s.main.Sending? <==> s.next < |s.workers|)
    && (forall k | 0 <= k < |s.workers| :: s.workers[k].Idle? <==> k >= s.next)
  }

  /** The channel holds one entry per slot in use, the wait group one per unfinished goroutine. */
  ghost predicate Counted(p: Pass, s: State) {
    && s.sem == Count(s.workers, Holding) && s.sem <= p.conc
    && s.wg == Count(s.workers, Alive) + (if s.main.Sending? then 1 else 0)
    && (s.main.Returned? ==> s.wg == 0)
  }

  /** Only the owner of the mutex is inside, and what it has read is still current. */
  ghost predicate Guarded(s: State) {
    && (s.mutex.Some? ==> s.mutex.value < |s.workers|)
    && (forall k | 0 <= k < |s.workers| :: s.workers[k].Inside() <==> s.mutex == Some(k))
    && (forall k | 0 <= k < |s.workers| :: s.workers[k].Loaded? ==> s.workers[k].seen == s.counters)
  }

  ghost predicate Inv(p: Pass, s: State) {
    && Started(p, s) && Counted(p, s) && Guarded(s)
    && s.counters == Tally(s.workers, p.outcomes)
  }

  lemma InitInv(p: Pass)
    ensures Inv(p, Init(p))
  {
    CountNone(|p.outcomes|, Holding);
    CountNone(|p.outcomes|, Alive);
    TallyNone(|p.outcomes|, p.outcomes);
  }

  /** The goroutine a step is about. */
  function Mover(s: State, a: Action): nat {
    if a.MainStep? then s.next else a.i
  }

  lemma StepStarted(p: Pass, s: State, a: Action)
    requires Started(p, s) && Step(p, s, a).Some?
    ensures Started(p, Step(p, s, a).value)
  {
  }

  lemma StepGuarded(p: Pass, s: State, a: Action)
    requires Started(p, s) && Guarded(s) && Step(p, s, a).Some?
    ensures Guarded(Step(p, s, a).value)
  {
  }

  lemma MainCounted(p: Pass, s: State)
    requires Started(p, s) && Counted(p, s) && StepMain(p, s).Some?
    ensures Counted(p, StepMain(p, s).value)
  {
    if s.main.Sending? {
      CountUpdate(s.workers, Holding, s.next, Scanning);
      CountUpdate(s.workers, Alive, s.next, Scanning);
    }
  }

  lemma WorkerCounted(p: Pass, s: State, i: nat)
    requires Started(p, s) && Counted(p, s) && StepWorker(p, s, i).Some?
    ensures Counted(p, StepWorker(p, s, i).value)
  {
    CountUpdate(s.workers, Holding, i, StepWorker(p, s, i).value.workers[i]);
    CountUpdate(s.workers, Alive, i, StepWorker(p, s, i).value.workers[i]);
  }

  lemma StepTallied(p: Pass, s: State, a: Action)
    requires Started(p, s) && Guarded(s) && Step(p, s, a).Some?
    requires s.counters == Tally(s.workers, p.outcomes)
    ensures Step(p, s, a).value.counters == Tally(Step(p, s, a).value.workers, p.outcomes)
  {
    var t, i := Step(p, s, a).value, Mover(s, a);
    if a.WorkerStep? || s.main.Sending? {
      TallyUpdate(s.workers, p.outcomes, i, t.workers[i]);
    }
  }

  lemma StepInv(p: Pass, s: State, a: Action)
    requires Inv(p, s) && Step(p, s, a).Some?
    ensures Inv(p, Step(p, s, a).value)
  {
    StepStarted(p, s, a);
    StepGuarded(p, s, a);
    StepTallied(p, s, a);
    match a
    case MainStep => MainCounted(p, s);
    case WorkerStep(i) => WorkerCounted(p, s, i);
  }

  lemma {:induction false} RunInv(p: Pass, s: State, schedule: seq<Action>)
    requires Inv(p, s)
    ensures Inv(p, Run(p, s, schedule))
    decreases |schedule|
  {
    if schedule != [] {
      if Step(p, s, schedule[0]).Some? {
        StepInv(p, s, schedule[0]);
        RunInv(p, Step(p, s, schedule[0]).value, schedule[1..]);
      } else {
        RunInv(p, s, schedule[1..]);
      }
    }
  }

  /* ---- what every interleaving keeps ---- */

  /** At most `conc` goroutines hold a slot, so at most `conc` scans run, and no two goroutines are
      inside the mutex. */
  lemma ConcurrencyIsBounded(p: Pass, schedule: seq<Action>)
    ensures var s := Run(p, Init(p), schedule);
      && Count(s.workers, Holding) == s.sem <= p.conc
      && Count(s.workers, (w: Worker) => w.Scanning?) <= p.conc
      && forall j, k | 0 <= j < k < |s.workers| :: !(s.workers[j].Inside() && s.workers[k].Inside())
  {
    InitInv(p);
    RunInv(p, Init(p), schedule);
    CountImplies(Run(p, Init(p), schedule).workers, (w: Worker) => w.Scanning?, Holding);
  }

  function Sum(os: seq<Outcome>): Counters {
    if os == [] then ZERO else Plus(Record(ZERO, os[0]), Sum(os[1..]))
  }

  lemma {:induction false} TallyAll(ws: seq<Worker>, os: seq<Outcome>)
    requires |ws| == |os| && forall k | 0 <= k < |ws| :: ws[k].Recorded()
    ensures Tally(ws, os) == Sum(os)
    decreases |ws|
  {
    if ws != [] { TallyAll(ws[1..], os[1..]); }
  }

  lemma {:induction false} SumCountsHosts(os: seq<Outcome>)
    ensures Sum(os).scanned + Sum(os).skipped + Sum(os).failed == |os|
    decreases |os|
  {
    if os != [] { SumCountsHosts(os[1..]); }
  }

  function HowMany(os: seq<Outcome>, p: Outcome -> bool): nat {
    if os == [] then 0 else (if p(os[0]) then 1 else 0) + HowMany(os[1..], p)
  }

  predicate IsSaved(o: Outcome) { o.Saved? }

  predicate IsSkipped(o: Outcome) { o.Skipped? }

  predicate IsFailed(o: Outcome) { o.Failed? }

  function AllSaved(os: seq<Outcome>): int {
    if os == [] then 0 else (if os[0].Saved? then os[0].count else 0) + AllSaved(os[1..])
  }

  lemma RecordSorts(o: Outcome, c: Counters)
    ensures Plus(Record(ZERO, o), c) == Counters(
              (if o.Saved? then o.count else 0) + c.total, (if IsSaved(o) then 1 else 0) + c.scanned,
              (if IsSkipped(o) then 1 else 0) + c.skipped, (if IsFailed(o) then 1 else 0) + c.failed)
  {
  }

  lemma {:induction false} SumSorts(os: seq<Outcome>)
    ensures Sum(os).total == AllSaved(os) && Sum(os).scanned == HowMany(os, IsSaved)
    ensures Sum(os).skipped == HowMany(os, IsSkipped) && Sum(os).failed == HowMany(os, IsFailed)
    decreases |os|
  {
    if os != [] {
      SumSorts(os[1..]);
      RecordSorts(os[0], Sum(os[1..]));
    }
  }

  /** When the wait returns, all slots and the mutex are free, every host is counted once, under what
      became of its scan, and the total is that of the successful scans. */
  lemma PassEndsComplete(p: Pass, schedule: seq<Action>)
    ensures var s := Run(p, Init(p), schedule);
            s.main.Returned? ==>
              && s.sem == 0 && s.wg == 0 && s.mutex.None?
              && s.counters == Counters(AllSaved(p.outcomes), HowMany(p.outcomes, IsSaved),
                                        HowMany(p.outcomes, IsSkipped), HowMany(p.outcomes, IsFailed))
              && s.counters.scanned + s.counters.skipped + s.counters.failed == |p.outcomes|
  {
    InitInv(p);
    RunInv(p, Init(p), schedule);
    var s := Run(p, Init(p), schedule);
    if s.main.Returned? {
      CountZero(s.workers, Alive);
      assert forall k | 0 <= k < |s.workers| :: s.workers[k].Done?;
      CountZero(s.workers, Holding);
      TallyAll(s.workers, p.outcomes);
      SumCountsHosts(p.outcomes);
      SumSorts(p.outcomes);
    }
  }

  /* ---- no deadlock ---- */

  function StepsLeft(ws: seq<Worker>): nat {
    if ws == [] then 0 else ws[0].Left() + StepsLeft(ws[1..])
  }

  lemma {:induction false} StepsLeftUpdate(ws: seq<Worker>, i: nat, w: Worker)
    requires i < |ws|
    ensures StepsLeft(ws[i := w]) == StepsLeft(ws) - ws[i].Left() + w.Left()
    decreases |ws|
  {
    if i == 0 {
      assert ws[0 := w][1..] == ws[1..];
    } else {
      StepsLeftUpdate(ws[1..], i - 1, w);
      assert ws[i := w][1..] == ws[1..][i - 1 := w];
    }
  }

  /** All steps the pass can still take. */
  function Remaining(s: State): nat
    requires s.next <= |s.workers|
  {
    StepsLeft(s.workers) + (|s.workers| - s.next)
    + match s.main case Adding => 2 case Sending => 1 case Waiting => 1 case Returned => 0
  }

  lemma StepUsesOne(p: Pass, s: State, a: Action)
    requires Inv(p, s) && Step(p, s, a).Some?
    ensures Inv(p, Step(p, s, a).value) && Remaining(Step(p, s, a).value) < Remaining(s)
  {
    StepInv(p, s, a);
    StepCosts(p, s, a);
  }

  lemma StepCosts(p: Pass, s: State, a: Action)
    requires Started(p, s) && Step(p, s, a).Some? && Started(p, Step(p, s, a).value)
    ensures Remaining(Step(p, s, a).value) < Remaining(s)
  {
    match a
    case MainStep =>
      if s.main.Sending? { StepsLeftUpdate(s.workers, s.next, Scanning); }
    case WorkerStep(i) =>
      WorkerAdvances(p, s, i);
      StepsLeftUpdate(s.workers, i, StepWorker(p, s, i).value.workers[i]);
  }

  lemma WorkerAdvances(p: Pass, s: State, i: nat)
    requires |s.workers| == |p.outcomes| && StepWorker(p, s, i).Some?
    ensures var t := StepWorker(p, s, i).value;
      && i < |s.workers| && t.main == s.main && t.next == s.next
      && |t.workers| == |s.workers| && t.workers == s.workers[i := t.workers[i]]
      && t.workers[i].Left() + 1 == s.workers[i].Left()
  {
  }

  /** Unless the pass is over, some goroutine can move, provided there is a slot at all. */
  lemma SomeoneCanMove(p: Pass, s: State)
    requires Inv(p, s) && p.conc >= 1 && !s.main.Returned?
    ensures exists a :: Step(p, s, a).Some?
  {
    if s.mutex.Some? {
      assert s.workers[s.mutex.value].Inside();
      assert Step(p, s, WorkerStep(s.mutex.value)).Some?;
    } else if k :| 0 <= k < |s.workers| && s.workers[k].Running() {
      CountZero(s.workers, Alive);
      CountZero(s.workers, Holding);
      assert Step(p, s, WorkerStep(k)).Some?;
    } else {
      CountZero(s.workers, Alive);
      CountZero(s.workers, Holding);
      assert Step(p, s, MainStep).Some?;
    }
  }

  lemma {:induction false} RunAppend(p: Pass, s: State, a: seq<Action>, b: seq<Action>)
    requires |s.workers| == |p.outcomes|
    ensures |Run(p, s, a).workers| == |p.outcomes|
    ensures Run(p, s, a + b) == Run(p, Run(p, s, a), b)
    decreases |a|
  {
    if a == [] {
      assert a + b == b;
    } else {
      assert (a + b)[1..] == a[1..] + b;
      RunAppend(p, if Step(p, s, a[0]).Some? then Step(p, s, a[0]).value else s, a[1..], b);
    }
  }

  lemma {:induction false} CanFinish(p: Pass, s: State) returns (schedule: seq<Action>)
    requires Inv(p, s) && p.conc >= 1
    ensures Run(p, s, schedule).main.Returned?
    decreases Remaining(s)
  {
    if s.main.Returned? {
      schedule := [];
    } else {
      SomeoneCanMove(p, s);
      var a :| Step(p, s, a).Some?;
      StepUsesOne(p, s, a);
      var rest := CanFinish(p, Step(p, s, a).value);
      schedule := [a] + rest;
      assert schedule[1..] == rest;
    }
  }

  /** However far the pass has got, it can still be completed. */
  lemma NeverStuck(p: Pass, schedule: seq<Action>)
    requires p.conc >= 1
    ensures exists more :: Run(p, Init(p), schedule + more).main.Returned?
  {
    InitInv(p);
    RunInv(p, Init(p), schedule);
    var more := CanFinish(p, Run(p, Init(p), schedule));
    RunAppend(p, Init(p), schedule, more);
  }

  function EffectiveSteps(p: Pass, s: State, schedule: seq<Action>): nat
    requires |s.workers| == |p.outcomes|
    decreases |schedule|
  {
    if schedule == [] then 0
    else if Step(p, s, schedule[0]).Some? then 1 + EffectiveSteps(p, Step(p, s, schedule[0]).value, schedule[1..])
    else EffectiveSteps(p, s, schedule[1..])
  }

  /** No schedule makes more effective steps than the pass had left, so a scheduler that always
      picks someone who can move completes it. */
  lemma {:induction false} EveryScheduleIsFinite(p: Pass, s: State, schedule: seq<Action>)
    requires Inv(p, s)
    ensures Inv(p, Run(p, s, schedule))
    ensures EffectiveSteps(p, s, schedule) + Remaining(Run(p, s, schedule)) <= Remaining(s)
    decreases |schedule|
  {
    if schedule != [] {
      if Step(p, s, schedule[0]).Some? {
        StepUsesOne(p, s, schedule[0]);
        EveryScheduleIsFinite(p, Step(p, s, schedule[0]).value, schedule[1..]);
      } else {
        EveryScheduleIsFinite(p, s, schedule[1..]);
      }
    }
  }

  /** Without a slot the first send blocks for ever. */
  lemma NoSlotNoStart(p: Pass, schedule: seq<Action>)
    requires p.conc == 0 && p.outcomes != []
    ensures !Run(p, Init(p), schedule).main.Returned?
  {
    InitInv(p);
    RunInv(p, Init(p), schedule);
    var s := Run(p, Init(p), schedule);
    if s.main.Returned? {
      StillAtFirst(p, Init(p), schedule);
    }
  }

  lemma {:induction false} StillAtFirst(p: Pass, s: State, schedule: seq<Action>)
    requires Inv(p, s) && p.conc == 0 && s.next == 0
    ensures |Run(p, s, schedule).workers| == |s.workers| && Run(p, s, schedule).next == 0
    decreases |schedule|
  {
    if schedule != [] {
      if Step(p, s, schedule[0]).Some? {
        StepInv(p, s, schedule[0]);
        StillAtFirst(p, Step(p, s, schedule[0]).value, schedule[1..]);
      } else {
        StillAtFirst(p, s, schedule[1..]);
      }
    }
  }

  lemma CompletingSchedule(p: Pass) returns (schedule: seq<Action>)
    requires p.conc >= 1 || p.outcomes == []
    ensures Run(p, Init(p), schedule).main.Returned?
  {
    if p.conc >= 1 {
      InitInv(p);
      schedule := CanFinish(p, Init(p));
    } else {
      var s := Init(p);
      schedule := [MainStep];
      assert Step(p, s, MainStep) == Some(s.(main := Returned));
      assert schedule[1..] == [];
      assert Run(p, s.(main := Returned), []) == s.(main := Returned);
    }
  }

  /** A pass can complete exactly if there is a slot or nothing to scan. */
  lemma CompletesExactly(p: Pass)
    ensures (exists schedule :: Run(p, Init(p), schedule).main.Returned?) <==> p.conc >= 1 || p.outcomes == []
  {
    if p.conc >= 1 || p.outcomes == [] {
      var schedule := CompletingSchedule(p);
      assert Run(p, Init(p), schedule).main.Returned?;
    } else {
      forall schedule: seq<Action>
        ensures !Run(p, Init(p), schedule).main.Returned?
      {
        NoSlotNoStart(p, schedule);
      }
    }
  }
}
