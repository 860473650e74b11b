/**
 * Mutating requests that overlap: the handlers run in a thread pool and share the configuration, the
 * local model, the file and the backend without a lock. Up to `OrderlyAgrees` nothing depends on what a
 * request assigns, only on when it reads and writes.
 */
module Overlaps {
  import opened Prelude
  import opened Sources
  import opened Configs
  import opened AppServer
  import Discovery

  /** Where a request stands; what it has read comes with its place in the history. */
  datatype Phase =
    | Localizing                     // about to assign the local model
    | Loading                        // about to read the configuration, to decide
    | Merging(providers: seq<Discovery.ProviderEntry>)   // about to read it again, to put this list into it
    | Basing                         // about to read it again, to put a list of directories into it
    | Listing(base: AppConfig)       // about to read it a third time, for that list
    | Assigning(next: AppConfig)     // about to assign the changed one
    | Saving                         // about to read it for the file
    | Writing(read: AppConfig, at: nat)   // about to replace the file
    | Rebuilding                     // about to read it for the backend
    | Routing(read: AppConfig, at: nat)   // about to read the local model for the backend
    | Entering(read: AppConfig, at: nat)  // has seen a local model, about to read it again for its entry
    | Publishing(read: AppConfig, at: nat, local: Option<LocalProvider>, localAt: nat)   // about to replace the backend
    | Finished                       // answered, or torn down by an exception

  datatype Thread = Thread(op: Operation, phase: Phase)

  /** All configurations and local models ever assigned, and which of them file and backend stem from. */
  datatype History = History(
    configs: seq<AppConfig>, locals: seq<Option<LocalProvider>>, disk: nat, built: nat, routed: nat)

  /** `built` and `routed` are the configuration and the local model the backend was built from. */
  datatype State = State(
    config: AppConfig, local: Option<LocalProvider>, disk: AppConfig, built: AppConfig, routed: Option<LocalProvider>,
    threads: seq<Thread>, history: History)

  datatype Event = Arrive(op: Operation) | Advance(i: nat)

  predicate Localizes(op: Operation) {
    op.Stop? || (op.Start? && op.started.Some?)
  }

  /** Refused, or nothing to do. */
  predicate Idle(o: Oracle, c: AppConfig, op: Operation) {
    || Status(o, c, op) != 200
    || (op.Follow? && op.spec in c.directories)
    || (op.Unfollow? && op.spec !in c.directories)
  }

  /** The list of directories a request makes of the one it reads. */
  function Listed(directories: seq<string>, op: Operation): seq<string> {
    match op
    case Follow(spec) => directories + [spec]
    case Unfollow(spec) => WithoutText(directories, spec)
    case _ => directories
  }

  /** How a request goes on after its decision: the configuration it reads next need not be the one it decided on. */
  function Drafted(o: Oracle, c: AppConfig, op: Operation): (p: Phase)
    ensures p.Merging? || p.Basing? || p.Assigning?
    ensures Localizes(op) ==> p.Assigning?
  {
    match op
    case Add(_, _) => Merging(Configured(o, c, op).providers)
    case Remove(_) => Merging(Configured(o, c, op).providers)
    case Follow(_) => Basing
    case Unfollow(_) => Basing
    case _ => Assigning(Configured(o, c, op))
  }

  function Last<T>(s: seq<T>): nat {
    if s == [] then 0 else |s| - 1
  }

  function Opening(op: Operation): Thread {
    Thread(op, if Localizes(op) then Localizing else Loading)
  }

  function Next(o: Oracle, s: State, e: Event): State {
    match e
    case Arrive(op) => s.(threads := s.threads + [Opening(op)])
    case Advance(i) => if i < |s.threads| then Step(o, s, i) else s
  }

  function Step(o: Oracle, s: State, i: nat): State
    requires i < |s.threads|
  {
    var op, h := s.threads[i].op, s.history;
    match s.threads[i].phase
    case Localizing =>
      var local := Localized(s.local, op);
      Move(s, i, Loading).(local := local, history := h.(locals := h.locals + [local]))
    case Loading => Move(s, i, if Idle(o, s.config, op) then Finished else Drafted(o, s.config, op))
    case Merging(providers) => Move(s, i, Assigning(s.config.(providers := providers)))
    case Basing => Move(s, i, Listing(s.config))
    case Listing(base) => Move(s, i, Assigning(base.(directories := Listed(s.config.directories, op))))
    case Assigning(next) => Move(s, i, Saving).(config := next, history := h.(configs := h.configs + [next]))
    case Saving => Move(s, i, Writing(s.config, Last(h.configs)))
    case Writing(read, at) => Move(s, i, Rebuilding).(disk := read, history := h.(disk := at))
    case Rebuilding => Move(s, i, Routing(s.config, Last(h.configs)))
    case Routing(read, at) =>
      Move(s, i, if s.local.Some? then Entering(read, at) else Publishing(read, at, None, Last(h.locals)))
    case Entering(read, at) =>
      // an AttributeError if the model is gone
      Move(s, i, if s.local.Some? then Publishing(read, at, s.local, Last(h.locals)) else Finished)
    case Publishing(read, at, local, localAt) =>
      Move(s, i, Finished).(built := read, routed := local, history := h.(built := at, routed := localAt))
    case Finished => s
  }

  function Move(s: State, i: nat, phase: Phase): State
    requires i < |s.threads|
  {
    s.(threads := s.threads[i := s.threads[i].(phase := phase)])
  }

  function Begin(c: AppConfig, local: Option<LocalProvider>): State {
    State(c, local, c, c, local, [], History([c], [local], 0, 0, 0))
  }

  function Run(o: Oracle, s: State, events: seq<Event>): State {
    if events == [] then s else Next(o, Run(o, s, events[..|events| - 1]), events[|events| - 1])
  }

  predicate Quiet(s: State) {
    forall i :: 0 <= i < |s.threads| ==> s.threads[i].phase.Finished?
  }

  /** File and backend show the live configuration and local model. */
  predicate Shows(s: State) {
    s.disk == s.config == s.built && s.routed == s.local
  }

  // ---------------------------------------------------------------- up to date

  /** File and backend were last replaced with what was read after the last assignment. */
  predicate UpToDate(s: State) {
    var h := s.history;
    h.disk == h.built == Last(h.configs) && h.routed == Last(h.locals)
  }

  predicate IsAt<T(==)>(s: seq<T>, at: nat, x: T) {
    at < |s| && s[at] == x
  }

  predicate Recorded(h: History, phase: Phase) {
    match phase
    case Writing(read, at) => IsAt(h.configs, at, read)
    case Routing(read, at) => IsAt(h.configs, at, read)
    case Entering(read, at) => IsAt(h.configs, at, read)
    case Publishing(read, at, local, localAt) => IsAt(h.configs, at, read) && IsAt(h.locals, localAt, local)
    case _ => true
  }

  /** The history accounts for everything in sight. */
  ghost predicate Tracks(s: State) {
    var h := s.history;
    && IsAt(h.configs, Last(h.configs), s.config) && IsAt(h.locals, Last(h.locals), s.local)
    && IsAt(h.configs, h.disk, s.disk) && IsAt(h.configs, h.built, s.built) && IsAt(h.locals, h.routed, s.routed)
    && forall j :: 0 <= j < |s.threads| ==> Recorded(h, s.threads[j].phase)
  }

  lemma StepTracks(o: Oracle, s: State, i: nat)
    requires Tracks(s) && i < |s.threads|
    ensures Tracks(Step(o, s, i))
  {
    hide Idle, Configured, Localized, Drafted, Listed;
  }

  lemma {:induction false} RunTracks(o: Oracle, s: State, events: seq<Event>)
    requires Tracks(s)
    ensures Tracks(Run(o, s, events))
  {
    hide Step, Recorded;
    if events != [] {
      RunTracks(o, s, events[..|events| - 1]);
      var t, e := Run(o, s, events[..|events| - 1]), events[|events| - 1];
      if e.Advance? && e.i < |t.threads| {
        StepTracks(o, t, e.i);
      } else if e.Arrive? {
        OpeningRecorded(t.history, e.op);
      }
    }
  }

  lemma OpeningRecorded(h: History, op: Operation)
    ensures Recorded(h, Opening(op).phase)
  {
  }

  /**
   * At any point of any run, finished or not: whatever is up to date shows the live state, and unless
   * some configuration or local model was assigned twice nothing else does.
   */
  lemma UpToDateExactly(o: Oracle, c: AppConfig, local: Option<LocalProvider>, events: seq<Event>)
    ensures var s := Run(o, Begin(c, local), events);
            && (UpToDate(s) ==> Shows(s))
            && (Distinct(s.history.configs) && Distinct(s.history.locals) ==> (Shows(s) <==> UpToDate(s)))
  {
    hide Run;
    RunTracks(o, Begin(c, local), events);
  }

  // ---------------------------------------------------------------- orderly runs

  /** Nothing is assigned while another request holds what it has read of it but not yet written out. */
  predicate Orderly(s: State, e: Event) {
    e.Advance? && e.i < |s.threads| ==>
      && (s.threads[e.i].phase.Assigning? ==>
            forall j :: 0 <= j < |s.threads| ==>
              && !s.threads[j].phase.Writing? && !s.threads[j].phase.Routing?
              && !s.threads[j].phase.Entering? && !s.threads[j].phase.Publishing?)
      && (s.threads[e.i].phase.Localizing? ==>
            forall j :: 0 <= j < |s.threads| ==> !s.threads[j].phase.Entering? && !s.threads[j].phase.Publishing?)
  }

  ghost predicate OrderlyRun(o: Oracle, s: State, events: seq<Event>) {
    forall n :: 0 <= n < |events| ==> Orderly(Run(o, s, events[..n]), events[n])
  }

  predicate WillWrite(t: Thread) {
    t.phase.Saving? || t.phase.Writing?
  }

  predicate WillBuild(t: Thread) {
    WillWrite(t) || t.phase.Rebuilding? || t.phase.Routing? || t.phase.Entering? || t.phase.Publishing?
  }

  predicate WillRoute(t: Thread) {
    WillBuild(t) || (Localizes(t.op) && (t.phase.Loading? || t.phase.Assigning?))
  }

  ghost predicate Someone(s: State, p: Thread -> bool) {
    exists j :: 0 <= j < |s.threads| && p(s.threads[j])
  }

  predicate HeldLast(s: State, t: Thread) {
    var h := s.history;
    match t.phase
    case Localizing => Localizes(t.op)
    case Writing(_, at) => at == Last(h.configs)
    case Routing(_, at) => at == Last(h.configs)
    case Entering(_, at) => at == Last(h.configs) && s.local.Some?
    case Publishing(_, at, _, localAt) => at == Last(h.configs) && localAt == Last(h.locals)
    case _ => true
  }

  /** What is held is the latest, and whatever is out of date will be replaced by somebody. */
  ghost predicate Current(s: State) {
    var h := s.history;
    && (forall j :: 0 <= j < |s.threads| ==> HeldLast(s, s.threads[j]))
    && (h.disk == Last(h.configs) || Someone(s, WillWrite))
    && (h.built == Last(h.configs) || Someone(s, WillBuild))
    && (h.routed == Last(h.locals) || Someone(s, WillRoute))
  }

  /** A request other than the one that moves stays what it is. */
  lemma Others(s: State, t: State, i: nat, p: Thread -> bool)
    requires i < |s.threads| == |t.threads| && forall j :: 0 <= j < |s.threads| && j != i ==> t.threads[j] == s.threads[j]
    requires Someone(s, p) && (p(s.threads[i]) ==> p(t.threads[i]))
    ensures Someone(t, p)
  {
    var j :| 0 <= j < |s.threads| && p(s.threads[j]);
    assert p(t.threads[j]);
  }

  /** A request that has assigned the local model goes on to save and rebuild. */
  lemma LocalNeverIdle(o: Oracle, c: AppConfig, op: Operation)
    requires Localizes(op)
    ensures !Idle(o, c, op)
  {
  }

  lemma StepCurrent(o: Oracle, s: State, i: nat)
    requires Current(s) && i < |s.threads| && Orderly(s, Advance(i))
    ensures Current(Step(o, s, i))
  {
    StepHeldLast(o, s, i);
    StepPending(o, s, i);
    StepRouting(o, s, i);
    hide Step;
  }

  lemma StepHeldLast(o: Oracle, s: State, i: nat)
    requires Current(s) && i < |s.threads| && Orderly(s, Advance(i))
    ensures var t := Step(o, s, i); forall j :: 0 <= j < |t.threads| ==> HeldLast(t, t.threads[j])
  {
    hide Idle, Configured, Localized, Localizes, Drafted, Listed, Someone;
  }

  lemma StepPending(o: Oracle, s: State, i: nat)
    requires Current(s) && i < |s.threads|
    ensures var t := Step(o, s, i);
            var h := t.history;
            && (h.disk == Last(h.configs) || Someone(t, WillWrite)) && (h.built == Last(h.configs) || Someone(t, WillBuild))
  {
    hide Idle, Configured, Localized, Localizes, Drafted, Listed;
    var t, h := Step(o, s, i), Step(o, s, i).history;
    assert forall j :: 0 <= j < |s.threads| && j != i ==> t.threads[j] == s.threads[j];
    assert HeldLast(s, s.threads[i]);
    if h.disk != Last(h.configs) {
      if WillWrite(t.threads[i]) { assert Someone(t, WillWrite); } else { Others(s, t, i, WillWrite); }
    }
    if h.built != Last(h.configs) {
      if WillBuild(t.threads[i]) { assert Someone(t, WillBuild); } else { Others(s, t, i, WillBuild); }
    }
  }

  lemma StepRouting(o: Oracle, s: State, i: nat)
    requires Current(s) && i < |s.threads|
    ensures var t := Step(o, s, i); t.history.routed == Last(t.history.locals) || Someone(t, WillRoute)
  {
    var t, h := Step(o, s, i), Step(o, s, i).history;
    if Localizes(s.threads[i].op) {
      LocalNeverIdle(o, s.config, s.threads[i].op);
    }
    hide Idle, Configured, Localized, Localizes, Drafted, Listed;
    assert forall j :: 0 <= j < |s.threads| && j != i ==> t.threads[j] == s.threads[j];
    assert HeldLast(s, s.threads[i]);
    if h.routed != Last(h.locals) {
      if WillRoute(t.threads[i]) { assert Someone(t, WillRoute); } else { Others(s, t, i, WillRoute); }
    }
  }

  lemma {:induction false} RunCurrent(o: Oracle, s: State, events: seq<Event>)
    requires Current(s) && OrderlyRun(o, s, events)
    ensures Current(Run(o, s, events))
  {
    hide Step, Orderly;
    if events != [] {
      var front := events[..|events| - 1];
      assert forall n :: 0 <= n < |front| ==> front[..n] == events[..n];
      RunCurrent(o, s, front);
      var t, e := Run(o, s, front), events[|events| - 1];
      if e.Advance? && e.i < |t.threads| {
        StepCurrent(o, t, e.i);
      } else if e.Arrive? {
        ArriveCurrent(o, t, e.op);
      }
    }
  }

  lemma ArriveCurrent(o: Oracle, s: State, op: Operation)
    requires Current(s)
    ensures Current(Next(o, s, Arrive(op)))
  {
    var t := Next(o, s, Arrive(op));
    assert forall j :: 0 <= j < |s.threads| ==> t.threads[j] == s.threads[j];
    forall p: Thread -> bool | Someone(s, p) ensures Someone(t, p) {
      var j :| 0 <= j < |s.threads| && p(s.threads[j]);
      assert p(t.threads[j]);
    }
  }

  /** An orderly run is up to date, and so shows the live state, once all its requests are finished. */
  lemma OrderlyAgrees(o: Oracle, c: AppConfig, local: Option<LocalProvider>, events: seq<Event>)
    requires OrderlyRun(o, Begin(c, local), events) && Quiet(Run(o, Begin(c, local), events))
    ensures var s := Run(o, Begin(c, local), events); UpToDate(s) && Shows(s)
  {
    hide Run;
    RunCurrent(o, Begin(c, local), events);
    UpToDateExactly(o, c, local, events);
  }

  // ---------------------------------------------------------------- requests that agree in every order

  /** A live local model is the configured one. */
  predicate Fits(c: AppConfig, local: Option<LocalProvider>) {
    local.Some? ==> c.localUse.Some?
  }

  predicate Agrees(s: State) {
    Shows(s) && (s.local.Some? ==> s.config.localUse.Some?)
  }

  lemma IdleKeeps(o: Oracle, c: AppConfig, local: Option<LocalProvider>, op: Operation)
    requires Idle(o, c, op)
    ensures Configured(o, c, op) == c && Localized(local, op) == local && !Localizes(op)
  {
    if op.Unfollow? {
      WithoutAbsentText(c.directories, op.spec);
    }
  }

  lemma ConfiguredFits(o: Oracle, c: AppConfig, local: Option<LocalProvider>, op: Operation)
    requires Fits(c, local)
    ensures Fits(Configured(o, c, op), Localized(local, op))
  {
  }

  /** From (c, local) the request, if it does anything, leaves (d, goal), and from there it changes nothing. */
  predicate Leads(o: Oracle, c: AppConfig, local: Option<LocalProvider>, d: AppConfig, goal: Option<LocalProvider>, op: Operation) {
    && (!Idle(o, c, op) ==> Configured(o, c, op) == d && Localized(local, op) == goal)
    && Configured(o, d, op) == d
  }

  /** A directory that is new to the configuration is to be followed. */
  predicate NewFollow(o: Oracle, c: AppConfig, op: Operation) {
    op.Follow? && !Idle(o, c, op)
  }

  /** Whatever else is assigned, it will assign the goal; `s` is where it would read from now. */
  predicate Settling(s: State, t: Thread, d: AppConfig, goal: Option<LocalProvider>) {
    match t.phase
    case Localizing => Localizes(t.op)
    case Loading => Localizes(t.op) ==> s.local == goal
    case Merging(providers) => s.config.(providers := providers) == d && s.local == goal
    case Basing =>
      && (t.op.Follow? || t.op.Unfollow?) && s.local == goal
      && s.config.(directories := Listed(s.config.directories, t.op)) == d
    case Listing(base) =>
      && (t.op.Follow? || t.op.Unfollow?) && s.local == goal
      && base.(directories := Listed(s.config.directories, t.op)) == d
    case Assigning(next) => next == d && s.local == goal
    case Saving => s.config == d && s.local == goal
    case Writing(read, _) => read == s.config == d && s.local == goal
    case Rebuilding => s.config == d && s.local == goal
    case Routing(read, _) => read == s.config == d && s.local == goal
    case Entering(read, _) => read == s.config == d && s.local == goal && goal.Some?
    case Publishing(read, _, local, _) => read == s.config == d && local == s.local == goal
    case Finished => true
  }

  /** It has decided, and not assigned yet. */
  predicate Deciding(t: Thread) {
    t.phase.Merging? || t.phase.Basing? || t.phase.Listing? || t.phase.Assigning?
  }

  /** It will append to the list it reads, whether or not the directory has got there in the meantime. */
  predicate Appending(t: Thread) {
    t.op.Follow? && (t.phase.Basing? || t.phase.Listing?)
  }

  /** Whoever decides does so on the first configuration or on the goal, and whoever appends on the first. */
  ghost predicate Grounded(o: Oracle, c: AppConfig, d: AppConfig, s: State) {
    && (forall j :: 0 <= j < |s.threads| && Deciding(s.threads[j]) ==> !Idle(o, c, s.threads[j].op) || s.config == d)
    && (forall j :: 0 <= j < |s.threads| && Appending(s.threads[j]) ==> NewFollow(o, c, s.threads[j].op) && s.config == c)
    && (forall i, j :: 0 <= i < j < |s.threads| ==> !NewFollow(o, c, s.threads[i].op) || !NewFollow(o, c, s.threads[j].op))
  }

  predicate WillFit(t: Thread) {
    t.phase.Assigning? || (Localizes(t.op) && t.phase.Loading?)
  }

  ghost predicate Converging(
    o: Oracle, c: AppConfig, local: Option<LocalProvider>, d: AppConfig, goal: Option<LocalProvider>, s: State)
  {
    && (s.config == c || s.config == d) && (s.local == local || s.local == goal) && (s.config != c ==> s.local == goal)
    && (forall j :: 0 <= j < |s.threads| ==>
          Leads(o, c, local, d, goal, s.threads[j].op) && Settling(s, s.threads[j], d, goal))
    && Grounded(o, c, d, s)
    && (s.disk == s.config || Someone(s, WillWrite))
    && (s.built == s.config || Someone(s, WillBuild))
    && (s.routed == s.local || Someone(s, WillRoute))
    && (Fits(s.config, s.local) || Someone(s, WillFit))
  }

  /** What a request does to the configuration, by parts. */
  lemma ConfiguredParts(o: Oracle, c: AppConfig, op: Operation)
    ensures op.Add? || op.Remove? ==> Configured(o, c, op) == c.(providers := Configured(o, c, op).providers)
    ensures (op.Follow? || op.Unfollow?) && !Idle(o, c, op) ==>
              Configured(o, c, op) == c.(directories := Listed(c.directories, op))
    ensures op.Unfollow? ==> Configured(o, c, op) == c.(directories := Listed(c.directories, op))
  {
    hide Admit;
  }

  /** Assigning the goal leaves every other request where it should be. */
  lemma KeepsSettling(o: Oracle, s: State, t: State, r: Thread, d: AppConfig, goal: Option<LocalProvider>)
    requires Settling(s, r, d, goal)
    requires (t.config == s.config || t.config == d) && (t.local == s.local || t.local == goal)
    requires r.op.Unfollow? ==> Configured(o, d, r.op) == d
    requires Appending(r) ==> t.config == s.config
    ensures Settling(t, r, d, goal)
  {
    ConfiguredParts(o, d, r.op);
    hide Localizes, Listed, Configured, Idle;
  }

  /** What a request is about to assign, or decides to assign, is the goal. */
  lemma MoverAims(
    o: Oracle, c: AppConfig, local: Option<LocalProvider>, d: AppConfig, goal: Option<LocalProvider>, s: State, r: Thread)
    requires (s.config == c || s.config == d) && (s.local == local || s.local == goal) && (s.config != c ==> s.local == goal)
    requires Leads(o, c, local, d, goal, r.op) && Settling(s, r, d, goal)
    ensures r.phase.Localizing? ==> Localized(s.local, r.op) == goal
    ensures r.phase.Loading? && !Idle(o, s.config, r.op) ==>
              && Settling(s, Thread(r.op, Drafted(o, s.config, r.op)), d, goal)
              && (!Idle(o, c, r.op) || s.config == d)
              && (r.op.Follow? ==> s.config == c && NewFollow(o, c, r.op))
  {
    LeadsOn(o, c, local, d, goal, r.op);
    ConfiguredParts(o, s.config, r.op);
    if Localizes(r.op) {
      LocalNeverIdle(o, c, r.op);
      SameLocal(local, s.local, r.op);
    } else {
      NotLocal(local, r.op);
    }
    FollowedIdle(o, d, r.op);
    hide Idle, Configured, Localized, Localizes, Leads, Listed;
  }

  lemma FollowedIdle(o: Oracle, d: AppConfig, op: Operation)
    requires Configured(o, d, op) == d
    ensures op.Follow? ==> Idle(o, d, op)
  {
    assert op.Follow? && !Idle(o, d, op) ==> |Configured(o, d, op).directories| == |d.directories| + 1;
  }

  /** The moving request assigns nothing but the goal. */
  lemma MoverAssigns(o: Oracle, s: State, i: nat, d: AppConfig, goal: Option<LocalProvider>)
    requires i < |s.threads| && Settling(s, s.threads[i], d, goal)
    requires s.threads[i].phase.Localizing? ==> Localized(s.local, s.threads[i].op) == goal
    ensures var t := Step(o, s, i);
            && (t.config == s.config || t.config == d) && (t.local == s.local || t.local == goal)
            && (t.config != s.config ==> t.local == goal && s.threads[i].phase.Assigning?)
            && (s.local == goal ==> t.local == goal)
  {
    hide Idle, Configured, Localized, Localizes, Drafted, Listed;
  }

  /** And gets to where it should be. */
  lemma MoverSettles(o: Oracle, s: State, i: nat, d: AppConfig, goal: Option<LocalProvider>)
    requires i < |s.threads| && Settling(s, s.threads[i], d, goal)
    requires s.threads[i].phase.Localizing? ==> Localized(s.local, s.threads[i].op) == goal
    requires s.threads[i].phase.Loading? && !Idle(o, s.config, s.threads[i].op) ==>
               Settling(s, Thread(s.threads[i].op, Drafted(o, s.config, s.threads[i].op)), d, goal)
    ensures Settling(Step(o, s, i), Step(o, s, i).threads[i], d, goal)
  {
    hide Step, Settling, Idle, Drafted, Localized;
    var r := s.threads[i];
    if Deciding(r) && !r.phase.Assigning? {
      DrafterSettles(o, s, i, d, goal);
    } else if r.phase.Localizing? || r.phase.Loading? {
      OpenerSettles(o, s, i, d, goal);
    } else {
      WriterSettles(o, s, i, d, goal);
    }
  }

  lemma OpenerSettles(o: Oracle, s: State, i: nat, d: AppConfig, goal: Option<LocalProvider>)
    requires i < |s.threads| && (s.threads[i].phase.Localizing? || s.threads[i].phase.Loading?)
    requires s.threads[i].phase.Localizing? ==> Localized(s.local, s.threads[i].op) == goal
    requires s.threads[i].phase.Loading? && !Idle(o, s.config, s.threads[i].op) ==>
               Settling(s, Thread(s.threads[i].op, Drafted(o, s.config, s.threads[i].op)), d, goal)
    ensures Settling(Step(o, s, i), Step(o, s, i).threads[i], d, goal)
  {
    hide Idle, Configured, Localized, Localizes, Drafted, Listed;
  }

  lemma DrafterSettles(o: Oracle, s: State, i: nat, d: AppConfig, goal: Option<LocalProvider>)
    requires i < |s.threads| && Settling(s, s.threads[i], d, goal)
    requires s.threads[i].phase.Merging? || s.threads[i].phase.Basing? || s.threads[i].phase.Listing?
    ensures Settling(Step(o, s, i), Step(o, s, i).threads[i], d, goal)
  {
    hide Idle, Configured, Localized, Localizes, Drafted, Listed;
  }

  lemma WriterSettles(o: Oracle, s: State, i: nat, d: AppConfig, goal: Option<LocalProvider>)
    requires i < |s.threads| && Settling(s, s.threads[i], d, goal)
    requires var p := s.threads[i].phase; !(p.Localizing? || p.Loading? || p.Merging? || p.Basing? || p.Listing?)
    ensures Settling(Step(o, s, i), Step(o, s, i).threads[i], d, goal)
  {
    hide Idle, Configured, Localized, Localizes, Drafted, Listed;
  }

  /** Only following appends to the list. */
  lemma OnlyFollowAppends(o: Oracle, c: AppConfig, op: Operation, spec: string)
    requires Configured(o, c, op).directories == c.directories + [spec]
    ensures op.Follow?
  {
    hide Admit;
    if op.Unfollow? {
      WithoutTextShorter(c.directories, op.spec);
    }
  }

  lemma {:induction false} WithoutTextShorter(specs: seq<string>, spec: string)
    ensures |WithoutText(specs, spec)| <= |specs|
  {
    if specs != [] {
      WithoutTextShorter(specs[1..], spec);
    }
  }

  /** Nobody else assigns while a request appends: it is the only one with anything to do. */
  lemma AppendingAlone(
    o: Oracle, c: AppConfig, local: Option<LocalProvider>, d: AppConfig, goal: Option<LocalProvider>, s: State, i: nat, j: nat)
    requires Converging(o, c, local, d, goal, s) && i < |s.threads| && j < |s.threads| && i != j
    requires Appending(s.threads[j])
    ensures !Deciding(s.threads[i])
  {
    hide Idle, Configured, Localized, Settling, Someone, Fits;
    var x, y := s.threads[i], s.threads[j];
    assert Leads(o, c, local, d, goal, x.op) && Leads(o, c, local, d, goal, y.op);
    ConfiguredParts(o, c, y.op);
    assert d.directories == c.directories + [y.op.spec];
    assert !NewFollow(o, c, x.op) || !NewFollow(o, c, y.op);
    if Deciding(x) {
      OnlyFollowAppends(o, c, x.op, y.op.spec);
    }
  }

  /** A step assigns nothing but the goal. */
  lemma StepSettles(
    o: Oracle, c: AppConfig, local: Option<LocalProvider>, d: AppConfig, goal: Option<LocalProvider>, s: State, i: nat)
    requires Converging(o, c, local, d, goal, s) && i < |s.threads|
    ensures var t := Step(o, s, i);
            && (t.config == c || t.config == d) && (t.local == local || t.local == goal) && (t.config != c ==> t.local == goal)
            && (forall j :: 0 <= j < |t.threads| ==>
                  Leads(o, c, local, d, goal, t.threads[j].op) && Settling(t, t.threads[j], d, goal))
            && Grounded(o, c, d, t)
  {
    var t := Step(o, s, i);
    MoverAims(o, c, local, d, goal, s, s.threads[i]);
    MoverAssigns(o, s, i, d, goal);
    MoverSettles(o, s, i, d, goal);
    MoverGrounded(o, c, d, s, i);
    StepMoves(o, s, i);
    forall j | 0 <= j < |s.threads| && j != i && Appending(s.threads[j]) ensures t.config == s.config {
      AppendingAlone(o, c, local, d, goal, s, i, j);
    }
    hide Step, Leads, Settling, Someone, Fits, Idle, Configured, Localized, NewFollow, Grounded;
    forall j | 0 <= j < |t.threads|
      ensures Leads(o, c, local, d, goal, t.threads[j].op) && Settling(t, t.threads[j], d, goal)
    {
      LeadsOn(o, c, local, d, goal, s.threads[j].op);
      if j != i {
        KeepsSettling(o, s, t, s.threads[j], d, goal);
      }
    }
    StaysGrounded(o, c, d, s, t, i);
  }

  /** The others stay grounded. */
  lemma StaysGrounded(o: Oracle, c: AppConfig, d: AppConfig, s: State, t: State, i: nat)
    requires Grounded(o, c, d, s) && i < |s.threads| == |t.threads| && t.threads[i].op == s.threads[i].op
    requires forall j :: 0 <= j < |s.threads| && j != i ==> t.threads[j] == s.threads[j]
    requires t.config == s.config || t.config == d
    requires forall j :: 0 <= j < |s.threads| && j != i && Appending(s.threads[j]) ==> t.config == s.config
    requires Deciding(t.threads[i]) ==> !Idle(o, c, t.threads[i].op) || t.config == d
    requires Appending(t.threads[i]) ==> NewFollow(o, c, t.threads[i].op) && t.config == c
    ensures Grounded(o, c, d, t)
  {
    hide Idle, Deciding, Appending;
    assert forall j :: 0 <= j < |s.threads| ==> t.threads[j].op == s.threads[j].op;
  }

  /** The moving request decides on what it should. */
  lemma MoverGrounded(o: Oracle, c: AppConfig, d: AppConfig, s: State, i: nat)
    requires i < |s.threads| && Grounded(o, c, d, s)
    requires var r := s.threads[i];
             r.phase.Loading? && !Idle(o, s.config, r.op) ==>
               (!Idle(o, c, r.op) || s.config == d) && (r.op.Follow? ==> s.config == c && NewFollow(o, c, r.op))
    ensures var t := Step(o, s, i);
            && (Deciding(t.threads[i]) ==> !Idle(o, c, t.threads[i].op) || t.config == d)
            && (Appending(t.threads[i]) ==> NewFollow(o, c, t.threads[i].op) && t.config == c)
  {
    hide Idle, Configured, Localized, Localizes, Drafted, Listed;
  }

  /** Only one request moves. */
  lemma StepMoves(o: Oracle, s: State, i: nat)
    requires i < |s.threads|
    ensures var t := Step(o, s, i);
            && |t.threads| == |s.threads| && t.threads[i].op == s.threads[i].op
            && forall j :: 0 <= j < |s.threads| && j != i ==> t.threads[j] == s.threads[j]
  {
    hide Idle, Configured, Localized, Drafted, Listed;
  }

  lemma LeadsOn(o: Oracle, c: AppConfig, local: Option<LocalProvider>, d: AppConfig, goal: Option<LocalProvider>, op: Operation)
    requires Leads(o, c, local, d, goal, op)
    ensures !Idle(o, c, op) ==> Configured(o, c, op) == d && Localized(local, op) == goal
    ensures Configured(o, d, op) == d
  {
  }

  lemma SameLocal(a: Option<LocalProvider>, b: Option<LocalProvider>, op: Operation)
    requires Localizes(op)
    ensures Localized(a, op) == Localized(b, op)
  {
  }

  lemma NotLocal(a: Option<LocalProvider>, op: Operation)
    requires !Localizes(op)
    ensures Localized(a, op) == a
  {
  }

  lemma StepSaved(o: Oracle, s: State, i: nat, d: AppConfig, goal: Option<LocalProvider>)
    requires i < |s.threads| && Settling(s, s.threads[i], d, goal)
    requires s.disk == s.config || Someone(s, WillWrite)
    ensures var t := Step(o, s, i); t.disk == t.config || Someone(t, WillWrite)
  {
    hide Idle, Configured, Localized, Localizes, Drafted, Listed;
    var t := Step(o, s, i);
    if t.disk != t.config {
      if WillWrite(t.threads[i]) { assert Someone(t, WillWrite); } else { Others(s, t, i, WillWrite); }
    }
  }

  lemma StepBuilt(o: Oracle, s: State, i: nat, d: AppConfig, goal: Option<LocalProvider>)
    requires i < |s.threads| && Settling(s, s.threads[i], d, goal)
    requires s.built == s.config || Someone(s, WillBuild)
    ensures var t := Step(o, s, i); t.built == t.config || Someone(t, WillBuild)
  {
    hide Idle, Configured, Localized, Localizes, Drafted, Listed;
    var t := Step(o, s, i);
    if t.built != t.config {
      if WillBuild(t.threads[i]) { assert Someone(t, WillBuild); } else { Others(s, t, i, WillBuild); }
    }
  }

  lemma StepRouted(o: Oracle, s: State, i: nat, d: AppConfig, goal: Option<LocalProvider>)
    requires i < |s.threads| && Settling(s, s.threads[i], d, goal)
    requires s.routed == s.local || Someone(s, WillRoute)
    ensures var t := Step(o, s, i); t.routed == t.local || Someone(t, WillRoute)
  {
    hide Idle, Configured, Localized, Localizes, Drafted, Listed;
    var t := Step(o, s, i);
    if Localizes(s.threads[i].op) {
      LocalNeverIdle(o, s.config, s.threads[i].op);
    }
    if t.routed != t.local {
      if WillRoute(t.threads[i]) { assert Someone(t, WillRoute); } else { Others(s, t, i, WillRoute); }
    }
  }

  lemma StepFits(o: Oracle, s: State, i: nat, d: AppConfig, goal: Option<LocalProvider>)
    requires i < |s.threads| && Settling(s, s.threads[i], d, goal) && Fits(d, goal)
    requires Fits(s.config, s.local) || Someone(s, WillFit)
    ensures var t := Step(o, s, i); Fits(t.config, t.local) || Someone(t, WillFit)
  {
    hide Idle, Configured, Localized, Localizes, Drafted, Listed, Fits;
    var t := Step(o, s, i);
    if Localizes(s.threads[i].op) {
      LocalNeverIdle(o, s.config, s.threads[i].op);
    }
    if !Fits(t.config, t.local) {
      if WillFit(t.threads[i]) { assert Someone(t, WillFit); } else { Others(s, t, i, WillFit); }
    }
  }

  lemma StepConverges(
    o: Oracle, c: AppConfig, local: Option<LocalProvider>, d: AppConfig, goal: Option<LocalProvider>, s: State, i: nat)
    requires Converging(o, c, local, d, goal, s) && i < |s.threads| && Fits(d, goal)
    ensures Converging(o, c, local, d, goal, Step(o, s, i))
  {
    hide Step, Leads, Settling, Someone, Fits;
    StepSettles(o, c, local, d, goal, s, i);
    StepSaved(o, s, i, d, goal);
    StepBuilt(o, s, i, d, goal);
    StepRouted(o, s, i, d, goal);
    StepFits(o, s, i, d, goal);
  }

  ghost predicate OnlyAdvances(events: seq<Event>) {
    forall k :: 0 <= k < |events| ==> events[k].Advance?
  }

  lemma {:induction false} RunConverges(
    o: Oracle, c: AppConfig, local: Option<LocalProvider>, d: AppConfig, goal: Option<LocalProvider>, s: State,
    events: seq<Event>)
    requires Converging(o, c, local, d, goal, s) && Fits(d, goal) && OnlyAdvances(events)
    ensures Converging(o, c, local, d, goal, Run(o, s, events))
  {
    hide Step, Converging, Fits;
    if events != [] {
      RunConverges(o, c, local, d, goal, s, events[..|events| - 1]);
      var t, e := Run(o, s, events[..|events| - 1]), events[|events| - 1];
      if e.i < |t.threads| {
        StepConverges(o, c, local, d, goal, t, e.i);
      }
    }
  }

  lemma QuietConverged(
    o: Oracle, c: AppConfig, local: Option<LocalProvider>, d: AppConfig, goal: Option<LocalProvider>, s: State)
    requires Converging(o, c, local, d, goal, s) && Quiet(s)
    ensures Agrees(s)
  {
    hide Leads, Settling, Localizes;
  }

  /** These requests are pending, and nothing has been done yet. */
  function Pending(c: AppConfig, local: Option<LocalProvider>, ops: seq<Operation>): State {
    Begin(c, local).(threads := seq(|ops|, i requires 0 <= i < |ops| => Opening(ops[i])))
  }

  /** However they are scheduled, file, backend, configuration and local model agree in the end. */
  ghost predicate AlwaysAgree(o: Oracle, s: State) {
    forall events :: OnlyAdvances(events) && Quiet(Run(o, s, events)) ==> Agrees(Run(o, s, events))
  }

  ghost predicate OneNewFollow(o: Oracle, c: AppConfig, ops: seq<Operation>) {
    forall i, j :: 0 <= i < j < |ops| ==> !NewFollow(o, c, ops[i]) || !NewFollow(o, c, ops[j])
  }

  /**
   * Any number of requests that all lead to one goal, or do nothing, agree in every order, as long as no
   * two of them follow a new directory.
   */
  lemma SharedGoalAgrees(
    o: Oracle, c: AppConfig, local: Option<LocalProvider>, d: AppConfig, goal: Option<LocalProvider>, ops: seq<Operation>)
    requires (local.Some? ==> c.localUse.Some?) && (goal.Some? ==> d.localUse.Some?)
    requires forall i :: 0 <= i < |ops| ==> Leads(o, c, local, d, goal, ops[i])
    requires OneNewFollow(o, c, ops)
    ensures AlwaysAgree(o, Pending(c, local, ops))
  {
    var s := Pending(c, local, ops);
    assert Converging(o, c, local, d, goal, s) by {
      hide Leads, Fits, Localizes, NewFollow;
    }
    hide Run, Converging, Agrees, Quiet;
    forall events | OnlyAdvances(events) && Quiet(Run(o, s, events)) ensures Agrees(Run(o, s, events)) {
      RunConverges(o, c, local, d, goal, s, events);
      QuietConverged(o, c, local, d, goal, Run(o, s, events));
    }
  }

  // ---------------------------------------------------------------- two requests

  /**
   * Whichever of them does anything leaves what the other would leave too, and they are not twice the same
   * new directory.
   */
  predicate Compatible(o: Oracle, c: AppConfig, local: Option<LocalProvider>, x: Operation, y: Operation) {
    && (!Idle(o, c, x) && !Idle(o, c, y) ==>
          Configured(o, c, x) == Configured(o, c, y) && Localized(local, x) == Localized(local, y))
    && (!Idle(o, c, x) ==> Configured(o, Configured(o, c, x), y) == Configured(o, c, x))
    && (!Idle(o, c, y) ==> Configured(o, Configured(o, c, y), x) == Configured(o, c, y))
    && !(x == y && NewFollow(o, c, x))
  }

  lemma CompatibleLeads(o: Oracle, c: AppConfig, local: Option<LocalProvider>, x: Operation, y: Operation)
      returns (d: AppConfig, goal: Option<LocalProvider>)
    requires Compatible(o, c, local, x, y) && Fits(c, local)
    ensures Fits(d, goal) && Leads(o, c, local, d, goal, x) && Leads(o, c, local, d, goal, y)
    ensures OneNewFollow(o, c, [x, y])
  {
    ConfiguredParts(o, c, x);
    ConfiguredParts(o, c, y);
    ConfiguredTwice(o, c, x);
    ConfiguredTwice(o, c, y);
    ConfiguredFits(o, c, local, x);
    ConfiguredFits(o, c, local, y);
    if Idle(o, c, x) { IdleKeeps(o, c, local, x); }
    if Idle(o, c, y) { IdleKeeps(o, c, local, y); }
    hide Idle, Configured, Localized, Fits;
    d := if !Idle(o, c, x) then Configured(o, c, x) else Configured(o, c, y);
    goal := if !Idle(o, c, x) then Localized(local, x) else Localized(local, y);
  }

  // Schedules are put together from stretches in which one request moves alone; `events` is what has
  // happened so far, and each lemma gives the events after its stretch.

  lemma Advanced(o: Oracle, s: State, events: seq<Event>, i: nat) returns (more: seq<Event>)
    requires OnlyAdvances(events) && i < |Run(o, s, events).threads|
    ensures OnlyAdvances(more) && Run(o, s, more) == Step(o, Run(o, s, events), i)
  {
    more := events + [Advance(i)];
    assert more[..|more| - 1] == events;
  }

  /** Nobody but i has moved. */
  ghost predicate Moved(s: State, t: State, i: nat) {
    && i < |s.threads| == |t.threads| && t.threads[i].op == s.threads[i].op
    && forall j :: 0 <= j < |s.threads| && j != i ==> t.threads[j] == s.threads[j]
  }

  /** A request that has not begun reads the configuration and decides. */
  lemma Decides(o: Oracle, s: State, events: seq<Event>, i: nat) returns (more: seq<Event>)
    requires OnlyAdvances(events) && i < |Run(o, s, events).threads|
    requires var t := Run(o, s, events);
             t.threads[i] == Opening(t.threads[i].op) && !Idle(o, t.config, t.threads[i].op)
    ensures OnlyAdvances(more)
    ensures var t, u := Run(o, s, events), Run(o, s, more);
            && Moved(t, u, i) && u.(local := t.local, threads := t.threads, history := t.history) == t
            && u.local == Localized(t.local, t.threads[i].op)
            && u.threads[i].phase == Assigning(Configured(o, t.config, t.threads[i].op))
  {
    hide Run, Idle, Configured, Localized, Listed;
    more := events;
    if Localizes(Run(o, s, events).threads[i].op) {
      more := Advanced(o, s, more, i);
    } else {
      NotLocal(Run(o, s, events).local, Run(o, s, events).threads[i].op);
    }
    ConfiguredParts(o, Run(o, s, more).config, Run(o, s, events).threads[i].op);
    more := Advanced(o, s, more, i);
    if Run(o, s, more).threads[i].phase.Basing? {
      more := Advanced(o, s, more, i);
      more := Advanced(o, s, more, i);
    } else if Run(o, s, more).threads[i].phase.Merging? {
      more := Advanced(o, s, more, i);
    }
  }

  /** It assigns, and reads what it will write. */
  lemma Assigns(o: Oracle, s: State, events: seq<Event>, i: nat) returns (more: seq<Event>)
    requires OnlyAdvances(events) && i < |Run(o, s, events).threads| && Run(o, s, events).threads[i].phase.Assigning?
    ensures OnlyAdvances(more)
    ensures var t, u := Run(o, s, events), Run(o, s, more);
            && Moved(t, u, i) && u.(config := t.config, threads := t.threads, history := t.history) == t
            && u.config == t.threads[i].phase.next && u.threads[i].phase.Writing? && u.threads[i].phase.read == u.config
  {
    hide Run;
    more := Advanced(o, s, events, i);
    more := Advanced(o, s, more, i);
  }

  /** It replaces the file, and reads what the backend will be built from. */
  lemma Writes(o: Oracle, s: State, events: seq<Event>, i: nat) returns (more: seq<Event>)
    requires OnlyAdvances(events) && i < |Run(o, s, events).threads| && Run(o, s, events).threads[i].phase.Writing?
    ensures OnlyAdvances(more)
    ensures var t, u := Run(o, s, events), Run(o, s, more);
            && Moved(t, u, i) && u.(disk := t.disk, threads := t.threads, history := t.history) == t
            && u.disk == t.threads[i].phase.read
            && u.threads[i].phase.Publishing? && u.threads[i].phase.local == u.local
  {
    hide Run;
    more := Advanced(o, s, events, i);
    more := Advanced(o, s, more, i);
    more := Advanced(o, s, more, i);
    if Run(o, s, more).local.Some? {
      more := Advanced(o, s, more, i);
    }
  }

  /** It replaces the backend. */
  lemma Publishes(o: Oracle, s: State, events: seq<Event>, i: nat) returns (more: seq<Event>)
    requires OnlyAdvances(events) && i < |Run(o, s, events).threads| && Run(o, s, events).threads[i].phase.Publishing?
    ensures OnlyAdvances(more)
    ensures var t, u := Run(o, s, events), Run(o, s, more);
            && Moved(t, u, i)
            && u.config == t.config && u.local == t.local && u.disk == t.disk
            && u.routed == t.threads[i].phase.local && u.threads[i].phase == Finished
  {
    hide Run;
    more := Advanced(o, s, events, i);
  }

  /** A request from its decision to its end. */
  lemma Completes(o: Oracle, s: State, events: seq<Event>, i: nat) returns (more: seq<Event>)
    requires OnlyAdvances(events) && i < |Run(o, s, events).threads| && Run(o, s, events).threads[i].phase.Assigning?
    ensures OnlyAdvances(more)
    ensures var t, u := Run(o, s, events), Run(o, s, more);
            && Moved(t, u, i) && u.threads[i].phase == Finished
            && u.config == u.disk == t.threads[i].phase.next && u.local == t.local
  {
    hide Run;
    more := Assigns(o, s, events, i);
    more := Writes(o, s, more, i);
    more := Publishes(o, s, more, i);
  }

  /** Both decide before either assigns: the first to assign writes last. */
  lemma LostUpdate(o: Oracle, c: AppConfig, local: Option<LocalProvider>, x: Operation, y: Operation)
      returns (events: seq<Event>)
    requires !Idle(o, c, x) && !Idle(o, c, y)
    ensures var s := Run(o, Pending(c, local, [x, y]), events);
            OnlyAdvances(events) && Quiet(s) && s.disk == Configured(o, c, x) && s.config == Configured(o, c, y)
  {
    hide Run, Idle, Configured, Localized, Localizes, Drafted, Listed;
    var s := Pending(c, local, [x, y]);
    RunNothing(o, s);
    events := Decides(o, s, [], 0);
    events := Decides(o, s, events, 1);
    events := Assigns(o, s, events, 0);
    events := Completes(o, s, events, 1);
    events := Writes(o, s, events, 0);
    events := Publishes(o, s, events, 0);
  }

  lemma RunNothing(o: Oracle, s: State)
    ensures Run(o, s, []) == s
  {
  }

  /** The i-th of two requests is overtaken by the other between reading and replacing the file. */
  lemma Overtaken(o: Oracle, c: AppConfig, local: Option<LocalProvider>, ops: seq<Operation>, i: nat)
      returns (events: seq<Event>)
    requires |ops| == 2 && i < 2 && !Idle(o, c, ops[i]) && !Idle(o, Configured(o, c, ops[i]), ops[1 - i])
    ensures var s := Run(o, Pending(c, local, ops), events);
            && OnlyAdvances(events) && Quiet(s)
            && s.disk == Configured(o, c, ops[i]) && s.config == Configured(o, Configured(o, c, ops[i]), ops[1 - i])
  {
    hide Run, Idle, Configured, Localized, Localizes, Drafted, Listed;
    var s := Pending(c, local, ops);
    RunNothing(o, s);
    events := Decides(o, s, [], i);
    events := Assigns(o, s, events, i);
    events := Decides(o, s, events, 1 - i);
    events := Completes(o, s, events, 1 - i);
    events := Writes(o, s, events, i);
    events := Publishes(o, s, events, i);
  }

  /** The i-th is overtaken by a change of the local model between reading and replacing the backend. */
  lemma StaleRoute(o: Oracle, c: AppConfig, local: Option<LocalProvider>, ops: seq<Operation>, i: nat)
      returns (events: seq<Event>)
    requires |ops| == 2 && i < 2 && !Idle(o, c, ops[i]) && Localizes(ops[1 - i])
    ensures var s := Run(o, Pending(c, local, ops), events);
            && OnlyAdvances(events) && Quiet(s)
            && s.routed == Localized(local, ops[i]) && s.local == Localized(local, ops[1 - i])
  {
    hide Run, Idle, Configured, Localized, Localizes, Drafted, Listed;
    var s := Pending(c, local, ops);
    LocalNeverIdle(o, Configured(o, c, ops[i]), ops[1 - i]);
    SameLocal(local, Localized(local, ops[i]), ops[1 - i]);
    RunNothing(o, s);
    events := Decides(o, s, [], i);
    events := Assigns(o, s, events, i);
    events := Writes(o, s, events, i);
    events := Decides(o, s, events, 1 - i);
    events := Completes(o, s, events, 1 - i);
    events := Publishes(o, s, events, i);
  }

  /**
   * Both test for the directory before either adds it; the second then reads a list that holds it already
   * and adds it once more, while the first still holds the shorter one for the file.
   */
  lemma FollowedTwice(o: Oracle, c: AppConfig, local: Option<LocalProvider>, spec: string) returns (events: seq<Event>)
    requires NewFollow(o, c, Follow(spec))
    ensures var s := Run(o, Pending(c, local, [Follow(spec), Follow(spec)]), events);
            && OnlyAdvances(events) && Quiet(s)
            && s.config.directories == c.directories + [spec] + [spec] && s.disk.directories == c.directories + [spec]
  {
    hide Run, Idle, Configured, Localized;
    var s := Pending(c, local, [Follow(spec), Follow(spec)]);
    RunNothing(o, s);
    ConfiguredParts(o, c, Follow(spec));
    events := Advanced(o, s, [], 1);
    events := Decides(o, s, events, 0);
    events := Assigns(o, s, events, 0);
    events := Advanced(o, s, events, 1);
    events := Advanced(o, s, events, 1);
    events := Completes(o, s, events, 1);
    events := Writes(o, s, events, 0);
    events := Publishes(o, s, events, 0);
  }

  lemma Refutes(o: Oracle, s: State, events: seq<Event>)
    requires OnlyAdvances(events) && Quiet(Run(o, s, events)) && !Agrees(Run(o, s, events))
    ensures !AlwaysAgree(o, s)
  {
  }

  /** Incompatible requests have a schedule after which something disagrees. */
  lemma IncompatibleDisagree(o: Oracle, c: AppConfig, local: Option<LocalProvider>, x: Operation, y: Operation)
    requires !Compatible(o, c, local, x, y)
    ensures !AlwaysAgree(o, Pending(c, local, [x, y]))
  {
    var s, ops := Pending(c, local, [x, y]), [x, y];
    var cx, cy := Configured(o, c, x), Configured(o, c, y);
    if !Idle(o, c, x) && !Idle(o, c, y) && cx != cy {
      var events := LostUpdate(o, c, local, x, y);
      hide Run;
      Refutes(o, s, events);
    } else if !Idle(o, c, x) && !Idle(o, c, y) && Localized(local, x) != Localized(local, y) {
      if !Localizes(x) { NotLocal(local, x); }
      if !Localizes(y) { NotLocal(local, y); }
      var events := StaleRoute(o, c, local, ops, if Localizes(y) then 0 else 1);
      hide Run;
      Refutes(o, s, events);
    } else if x == y && NewFollow(o, c, x) {
      var events := FollowedTwice(o, c, local, x.spec);
      hide Run;
      Refutes(o, s, events);
    } else {
      var i := if !Idle(o, c, x) && Configured(o, cx, y) != cx then 0 else 1;
      if Idle(o, Configured(o, c, ops[i]), ops[1 - i]) {
        IdleKeeps(o, Configured(o, c, ops[i]), local, ops[1 - i]);
      }
      var events := Overtaken(o, c, local, ops, i);
      hide Run;
      Refutes(o, s, events);
    }
  }

  /**
   * Two pending requests agree in every order if and only if whichever of them does anything leaves what
   * the other would leave too, and they do not both follow one new directory. This can be read off the
   * configuration before either begins.
   */
  lemma TwoRequests(o: Oracle, c: AppConfig, local: Option<LocalProvider>, x: Operation, y: Operation)
    requires local.Some? ==> c.localUse.Some?
    ensures AlwaysAgree(o, Pending(c, local, [x, y])) <==> Compatible(o, c, local, x, y)
  {
    hide AlwaysAgree;
    if Compatible(o, c, local, x, y) {
      var d, goal := CompatibleLeads(o, c, local, x, y);
      hide Leads, Fits, Compatible;
      SharedGoalAgrees(o, c, local, d, goal, [x, y]);
    } else {
      IncompatibleDisagree(o, c, local, x, y);
    }
  }

  /** Two directories followed at once: a run that is quiet, and neither up to date nor in agreement. */
  lemma OvertakenDisagrees(o: Oracle, c: AppConfig, local: Option<LocalProvider>, a: string, b: string)
      returns (events: seq<Event>)
    requires !UnsafeSpec(o, a) && !UnsafeSpec(o, b) && a !in c.directories && b !in c.directories && a != b
    ensures var s := Run(o, Pending(c, local, [Follow(a), Follow(b)]), events);
            && OnlyAdvances(events) && Quiet(s) && !UpToDate(s) && !Shows(s)
            && s.config.directories == c.directories + [a] + [b] && s.disk.directories == c.directories + [a]
  {
    var s := Pending(c, local, [Follow(a), Follow(b)]);
    events := Overtaken(o, c, local, [Follow(a), Follow(b)], 0);
    hide Run;
    assert Tracks(s);
    RunTracks(o, s, events);
  }

  /**
   * A start and a stop at once: both assign the local model before the configuration, and need not do so
   * in the same order. Here the model is saved as in use while none runs; file and backend follow.
   */
  lemma StartAndStop(
    o: Oracle, c: AppConfig, local: Option<LocalProvider>, runtime: string, model: string, started: LocalProvider)
      returns (events: seq<Event>)
    ensures var s := Run(o, Pending(c, local, [Start(runtime, model, Some(started)), Stop]), events);
            && OnlyAdvances(events) && Quiet(s)
            && s.local == None && s.config.localUse == s.disk.localUse == Some(LocalUse(runtime, model))
  {
    var ops := [Start(runtime, model, Some(started)), Stop];
    var s := Pending(c, local, ops);
    RunNothing(o, s);
    hide Run;
    events := Advanced(o, s, [], 0);
    events := Advanced(o, s, events, 1);
    events := Advanced(o, s, events, 1);
    events := Completes(o, s, events, 1);
    events := Advanced(o, s, events, 0);
    events := Completes(o, s, events, 0);
  }

  /**
   * A stop between the two times a request reads the local model for the backend: the request is torn down
   * with its change made and the backend left as it was.
   */
  lemma TornDown(o: Oracle, c: AppConfig, local: Option<LocalProvider>, op: Operation) returns (events: seq<Event>)
    requires !Idle(o, c, op) && !Localizes(op) && local.Some?
    ensures var s := Run(o, Pending(c, local, [op, Stop]), events);
            && OnlyAdvances(events) && |s.threads| == 2 && s.threads[0].phase == Finished
            && s.config == s.disk == Configured(o, c, op) && s.built == c && s.routed == local
  {
    hide Run, Idle, Configured;
    var s := Pending(c, local, [op, Stop]);
    RunNothing(o, s);
    NotLocal(local, op);
    events := Decides(o, s, [], 0);
    events := Assigns(o, s, events, 0);
    events := Advanced(o, s, events, 0);
    events := Advanced(o, s, events, 0);
    events := Advanced(o, s, events, 0);
    events := Advanced(o, s, events, 1);
    events := Advanced(o, s, events, 0);
  }
}
