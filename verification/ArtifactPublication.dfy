/**
 Concurrent renders of one generation. Each render writes its two files into a directory of
 its own and renames that directory into place; a render may crash or fail at any file step.
*/
module ArtifactPublication {
  import opened Options

  type Bytes = seq<bv8>

  datatype File = Compose | Env

  datatype Name = Final(file: File) | Temporary(file: File)

  type Dir = map<Name, Bytes>

  datatype Pc =
    | Checking                        // is there a generation already?
    | Making                          // before the staging directory exists
    | Creating(file: File)            // before the temporary file is written
    | Placing(file: File)             // before the temporary file is renamed
    | Publishing                      // before the staging directory is renamed
    | Retrying                        // after the rename found something in its place
    | Comparing(file: File)           // reading the generation that exists
    | Cleaning(done: bool)         // removing the staging directory
    | Returned
    | Raised
    | Crashed

  /** A render; `composeCount` and `envCount` record how many bytes its two write calls took. */
  datatype Render = Render(compose: Bytes, env: Bytes, pc: Pc, composeCount: nat, envCount: nat)

  /** `publisher` is a history variable: the render whose directory is the visible one. */
  datatype System = System(visible: Option<Dir>, staging: map<nat, Dir>, renders: seq<Render>, publisher: Option<nat>)

  /** One step of the system. `Wrote` says how many bytes the one write call took. */
  datatype Event =
    | Begin(compose: Bytes, env: Bytes)
    | Step(render: nat)
    | Wrote(render: nat, count: nat)
    | RenameRefused(render: nat, existing: bool)
    | Fault(render: nat)
    | Crash(render: nat)

  const INIT := System(None, map[], [], None)

  function Content(r: Render, f: File): Bytes { if f.Compose? then r.compose else r.env }

  function Counted(r: Render, f: File, count: nat): Render {
    if f.Compose? then r.(composeCount := count) else r.(envCount := count)
  }

  /** What the render leaves in a file: as many bytes as its write took. */
  function Written(r: Render, f: File): Bytes {
    if f.Compose? then Take(r.compose, r.composeCount) else Take(r.env, r.envCount)
  }

  /** Neither of the render's two writes took fewer bytes than it was given. */
  predicate WroteWhole(r: Render) { r.composeCount >= |r.compose| && r.envCount >= |r.env| }

  predicate Running(pc: Pc) { !pc.Returned? && !pc.Raised? && !pc.Crashed? }

  function At(s: System, t: nat, pc: Pc): System
    requires t < |s.renders|
  {
    s.(renders := s.renders[t := s.renders[t].(pc := pc)])
  }

  function Take(b: Bytes, count: nat): Bytes { if count < |b| then b[..count] else b }

  /** A directory can be renamed over nothing or over an empty directory. */
  predicate CanRename(s: System) { s.visible.None? || s.visible.value == map[] }

  /** The file of the generation that exists holds what this render would write. */
  predicate Matches(s: System, r: Render, f: File) {
    s.visible.Some? && Final(f) in s.visible.value && s.visible.value[Final(f)] == Content(r, f)
  }

  function StepAt(s: System, t: nat): System
    requires t < |s.renders|
  {
    var r := s.renders[t];
    match r.pc
    case Checking => At(s, t, if s.visible.Some? then Comparing(Compose) else Making)
    case Making => At(s, t, Creating(Compose)).(staging := s.staging[t := map[]])
    case Placing(f) =>
      if t in s.staging && Temporary(f) in s.staging[t] then
        var bytes := s.staging[t][Temporary(f)];
        At(s, t, if f.Compose? then Creating(Env) else Publishing)
        .(staging := s.staging[t := (s.staging[t] - {Temporary(f)})[Final(f) := bytes]])
      else At(s, t, Cleaning(false))
    case Publishing =>
      if t in s.staging && CanRename(s) then
        At(s, t, Cleaning(true)).(visible := Some(s.staging[t]), staging := s.staging - {t}, publisher := Some(t))
      else s
    case Retrying => At(s, t, if s.visible.Some? then Comparing(Compose) else Cleaning(false))
    case Comparing(f) =>
      At(s, t, if !Matches(s, r, f) then Cleaning(false) else if f.Compose? then Comparing(Env) else Cleaning(true))
    case Cleaning(done) =>
      At(s, t, if done then Returned else Raised).(staging := s.staging - {t})
    case _ => s
  }

  function Next(s: System, e: Event): System {
    match e
    case Begin(compose, env) => s.(renders := s.renders + [Render(compose, env, Checking, 0, 0)])
    case Step(t) => if t < |s.renders| then StepAt(s, t) else s
    case Wrote(t, count) =>
      if t < |s.renders| && s.renders[t].pc.Creating? && t in s.staging then
        var r := s.renders[t];
        var f := r.pc.file;
        s.(renders := s.renders[t := Counted(r, f, count).(pc := Placing(f))],
           staging := s.staging[t := s.staging[t][Temporary(f) := Take(Content(r, f), count)]])
      else s
    case RenameRefused(t, existing) =>
      if t < |s.renders| && s.renders[t].pc.Publishing? && !CanRename(s)
      then At(s, t, if existing then Retrying else Cleaning(false)) else s
    case Fault(t) =>
      if t < |s.renders| && Running(s.renders[t].pc) then At(s, t, Cleaning(false)) else s
    case Crash(t) =>
      if t < |s.renders| && Running(s.renders[t].pc) then At(s, t, Crashed) else s
  }

  function Run(s: System, events: seq<Event>): System
    decreases |events|
  {
    if events == [] then s else Run(Next(s, events[0]), events[1..])
  }

  // ---- The invariant ----

  /** The two files as the render wrote them. */
  function WrittenFiles(r: Render): Dir {
    map[Final(Compose) := Written(r, Compose), Final(Env) := Written(r, Env)]
  }

  /** How far the staging directory of a render is, by the step the render is at. */
  predicate StagedSoFar(s: System, t: nat)
    requires t < |s.renders|
  {
    var r := s.renders[t];
    match r.pc
    case Creating(f) =>
      t in s.staging && s.staging[t] == if f.Compose? then map[] else map[Final(Compose) := Written(r, Compose)]
    case Placing(f) =>
      t in s.staging
      && s.staging[t] == if f.Compose? then map[Temporary(Compose) := Written(r, Compose)]
                         else map[Final(Compose) := Written(r, Compose), Temporary(Env) := Written(r, Env)]
    case Publishing => t in s.staging && s.staging[t] == WrittenFiles(r)
    case _ => true
  }

  predicate SameFiles(d: Dir, r: Render) {
    d == map[Final(Compose) := r.compose, Final(Env) := r.env]
  }

  /** A render that compares has found its files so far; one that returns has found or published what is visible. */
  predicate Agrees(s: System, t: nat)
    requires t < |s.renders|
  {
    var r := s.renders[t];
    match r.pc
    case Comparing(f) => f.Env? ==> Matches(s, r, Compose)
    case Cleaning(done) => done ==> s.visible.Some? && (s.publisher == Some(t) || SameFiles(s.visible.value, r))
    case Returned => s.visible.Some? && (s.publisher == Some(t) || SameFiles(s.visible.value, r))
    case _ => true
  }

  /** What is visible are the files of its publisher, as written. */
  predicate FromPublisher(s: System) {
    && (s.visible.Some? <==> s.publisher.Some?)
    && (s.publisher.Some? ==>
          var t := s.publisher.value;
          && t < |s.renders| && s.visible.value == WrittenFiles(s.renders[t])
          && Behind(s.renders[t].pc))
  }

  ghost predicate Ok(s: System) {
    && FromPublisher(s)
    && (forall t :: 0 <= t < |s.renders| ==> StagedSoFar(s, t) && Agrees(s, t))
  }

  /** Where a render stands once it has published. */
  predicate Behind(pc: Pc) { pc.Cleaning? || pc.Returned? || pc.Raised? || pc.Crashed? }

  /** A step of one render leaves the others as they are. */
  lemma OthersKept(s: System, after: System, t: nat)
    requires Ok(s) && t < |s.renders| && |after.renders| == |s.renders|
    requires (after.visible == s.visible && after.publisher == s.publisher) || s.visible.None?
    requires forall u :: 0 <= u < |s.renders| && u != t ==>
               after.renders[u] == s.renders[u] && (u in s.staging ==> u in after.staging && after.staging[u] == s.staging[u])
    requires FromPublisher(after) && StagedSoFar(after, t) && Agrees(after, t)
    ensures Ok(after)
  {
    forall u | 0 <= u < |after.renders| ensures StagedSoFar(after, u) && Agrees(after, u) {
      if u != t {
        assert StagedSoFar(s, u) && Agrees(s, u);
      }
    }
  }

  lemma NeverEmpty(s: System)
    requires FromPublisher(s) && s.visible.Some?
    ensures !CanRename(s)
  {
    assert Final(Compose) in s.visible.value;
  }

  lemma MatchingIsSame(s: System, r: Render)
    requires FromPublisher(s) && Matches(s, r, Compose) && Matches(s, r, Env)
    ensures SameFiles(s.visible.value, r)
  {
  }

  lemma PublishKeeps(s: System, t: nat)
    requires Ok(s) && t < |s.renders| && s.renders[t].pc.Publishing?
    ensures Ok(StepAt(s, t))
  {
    assert StagedSoFar(s, t);
    if s.visible.Some? { NeverEmpty(s); }
    if CanRename(s) {
      OthersKept(s, StepAt(s, t), t);
    }
  }

  lemma CompareKeeps(s: System, t: nat)
    requires Ok(s) && t < |s.renders| && s.renders[t].pc.Comparing?
    ensures Ok(StepAt(s, t))
  {
    var r := s.renders[t];
    assert Agrees(s, t);
    if r.pc.file.Env? && Matches(s, r, Env) {
      MatchingIsSame(s, r);
    }
    OthersKept(s, StepAt(s, t), t);
  }

  lemma PlaceKeeps(s: System, t: nat)
    requires Ok(s) && t < |s.renders| && s.renders[t].pc.Placing?
    ensures Ok(StepAt(s, t))
  {
    assert StagedSoFar(s, t);
    var r := s.renders[t];
    var after := StepAt(s, t);
    assert after.staging[t] == if r.pc.file.Compose? then map[Final(Compose) := Written(r, Compose)] else WrittenFiles(r);
    OthersKept(s, after, t);
  }

  lemma StepKeeps(s: System, t: nat)
    requires Ok(s) && t < |s.renders|
    ensures Ok(StepAt(s, t))
  {
    assert StagedSoFar(s, t) && Agrees(s, t);
    match s.renders[t].pc {
      case Publishing => PublishKeeps(s, t);
      case Comparing(_) => CompareKeeps(s, t);
      case Placing(_) => PlaceKeeps(s, t);
      case Returned =>
      case Raised =>
      case Crashed =>
      case _ => OthersKept(s, StepAt(s, t), t);
    }
  }

  lemma BeginKeeps(s: System, compose: Bytes, env: Bytes)
    requires Ok(s)
    ensures Ok(Next(s, Begin(compose, env)))
  {
    var after := Next(s, Begin(compose, env));
    forall u | 0 <= u < |after.renders| ensures StagedSoFar(after, u) && Agrees(after, u) {
      if u < |s.renders| { assert StagedSoFar(s, u) && Agrees(s, u); }
    }
  }

  lemma WroteKeeps(s: System, t: nat, count: nat)
    requires Ok(s) && t < |s.renders| && s.renders[t].pc.Creating?
    ensures Ok(Next(s, Wrote(t, count)))
  {
    assert StagedSoFar(s, t);
    var r, after := s.renders[t], Next(s, Wrote(t, count));
    assert after.staging[t] == s.staging[t][Temporary(r.pc.file) := Written(after.renders[t], r.pc.file)];
    OthersKept(s, after, t);
  }

  /** Giving up, crashing or looking again needs nothing of the state. */
  lemma LeavingKeeps(s: System, t: nat, pc: Pc)
    requires Ok(s) && t < |s.renders|
    requires pc == Cleaning(false) || pc == Crashed || (pc == Retrying && s.renders[t].pc.Publishing?)
    ensures Ok(At(s, t, pc))
  {
    OthersKept(s, At(s, t, pc), t);
  }

  /** Every step of every render keeps the invariant. */
  lemma NextKeeps(s: System, e: Event)
    requires Ok(s)
    ensures Ok(Next(s, e))
  {
    hide StepAt, Ok, At;
    match e {
      case Begin(compose, env) => BeginKeeps(s, compose, env);
      case Step(t) => if t < |s.renders| { StepKeeps(s, t); }
      case Wrote(t, count) =>
        if t < |s.renders| && s.renders[t].pc.Creating? { WroteKeeps(s, t, count); }
      case RenameRefused(t, existing) =>
        if t < |s.renders| && s.renders[t].pc.Publishing? {
          LeavingKeeps(s, t, if existing then Retrying else Cleaning(false));
        }
      case Fault(t) => if t < |s.renders| { LeavingKeeps(s, t, Cleaning(false)); }
      case Crash(t) => if t < |s.renders| { LeavingKeeps(s, t, Crashed); }
    }
  }

  lemma {:induction false} RunKeeps(s: System, events: seq<Event>)
    requires Ok(s)
    ensures Ok(Run(s, events))
    decreases |events|
  {
    hide Ok, Next;
    if events != [] {
      NextKeeps(s, events[0]);
      RunKeeps(Next(s, events[0]), events[1..]);
    }
  }

  // ---- What every run guarantees ----

  lemma InitOk()
    ensures Ok(INIT)
  {
  }

  lemma OkMeans(s: System)
    requires Ok(s)
    ensures FromPublisher(s) && forall t :: 0 <= t < |s.renders| ==> Agrees(s, t)
  {
  }

  /** Files as written are the files meant exactly when both writes were whole. */
  lemma WholeExactly(r: Render)
    ensures SameFiles(WrittenFiles(r), r) <==> WroteWhole(r)
  {
    var d := WrittenFiles(r);
    assert d[Final(Compose)] == Take(r.compose, r.composeCount) && d[Final(Env)] == Take(r.env, r.envCount);
    if SameFiles(d, r) {
      assert d[Final(Compose)] == r.compose && d[Final(Env)] == r.env;
    }
  }

  /**
   After any run, with crashes and faults at any step: the generation is absent, or it holds
   exactly the two files of the render that published it, as far as its writes took them; and
   they are that render's files exactly when both of its own writes were whole.
  */
  lemma VisibleIsOfOneRender(events: seq<Event>)
    ensures var s := Run(INIT, events);
            s.visible.Some? ==>
              && s.publisher.Some? && s.publisher.value < |s.renders|
              && var r := s.renders[s.publisher.value];
                 && s.visible.value == map[Final(Compose) := Take(r.compose, r.composeCount),
                                           Final(Env) := Take(r.env, r.envCount)]
                 && (SameFiles(s.visible.value, r) <==> WroteWhole(r))
  {
    hide Ok, Run;
    InitOk();
    RunKeeps(INIT, events);
    var s := Run(INIT, events);
    OkMeans(s);
    if s.visible.Some? {
      WholeExactly(s.renders[s.publisher.value]);
    }
  }

  lemma StepKeepsVisible(s: System, e: Event)
    requires Ok(s) && s.visible.Some?
    ensures Next(s, e).visible == s.visible && Next(s, e).publisher == s.publisher
  {
    NeverEmpty(s);
  }

  /** Once a generation is visible it never changes. */
  lemma {:induction false} VisibleNeverChanges(s: System, events: seq<Event>)
    requires Ok(s) && s.visible.Some?
    ensures Run(s, events).visible == s.visible && Run(s, events).publisher == s.publisher
    decreases |events|
  {
    hide Ok, Next;
    if events != [] {
      StepKeepsVisible(s, events[0]);
      NextKeeps(s, events[0]);
      VisibleNeverChanges(Next(s, events[0]), events[1..]);
    }
  }

  lemma {:induction false} RunOf(s: System, first: seq<Event>, then_: seq<Event>)
    ensures Run(s, first + then_) == Run(Run(s, first), then_)
    decreases |first|
  {
    if first == [] {
      assert first + then_ == then_;
    } else {
      assert (first + then_)[0] == first[0] && (first + then_)[1..] == first[1..] + then_;
      RunOf(Next(s, first[0]), first[1..], then_);
    }
  }

  /**
   A render that returned finds its own content visible, whoever wrote it, in every case but
   one: it published the generation itself, and one of its own writes was short.
  */
  lemma ReturnedMeansVisible(events: seq<Event>, t: nat)
    requires t < |Run(INIT, events).renders| && Run(INIT, events).renders[t].pc.Returned?
    ensures var s := Run(INIT, events);
            && s.visible.Some?
            && (SameFiles(s.visible.value, s.renders[t]) <==> s.publisher != Some(t) || WroteWhole(s.renders[t]))
  {
    hide Ok, Run;
    InitOk();
    RunKeeps(INIT, events);
    var s := Run(INIT, events);
    OkMeans(s);
    assert Agrees(s, t);
    WholeExactly(s.renders[t]);
  }

  // ---- A render that begins later ----

  /** A render that finds a generation only compares, and only returns on equal content. */
  predicate OnlyCompares(s: System, r: Render) {
    match r.pc
    case Checking => true
    case Comparing(f) => f.Env? ==> Matches(s, r, Compose)
    case Cleaning(done) => done ==> Matches(s, r, Compose) && Matches(s, r, Env)
    case Returned => Matches(s, r, Compose) && Matches(s, r, Env)
    case Raised => true
    case Crashed => true
    case _ => false
  }

  ghost predicate LateOnlyCompare(s: System, first: nat) {
    s.visible.Some? && first <= |s.renders|
    && forall t :: first <= t < |s.renders| ==> OnlyCompares(s, s.renders[t])
  }

  lemma LateStep(s: System, e: Event, first: nat)
    requires Ok(s) && LateOnlyCompare(s, first)
    ensures LateOnlyCompare(Next(s, e), first)
  {
    StepKeepsVisible(s, e);
    hide Ok;
    forall t | first <= t < |Next(s, e).renders| ensures OnlyCompares(Next(s, e), Next(s, e).renders[t]) {
      LateRender(s, e, first, t);
    }
  }

  lemma LateRender(s: System, e: Event, first: nat, t: nat)
    requires LateOnlyCompare(s, first) && Next(s, e).visible == s.visible && first <= t < |Next(s, e).renders|
    ensures OnlyCompares(Next(s, e), Next(s, e).renders[t])
  {
    hide StepAt;
    if e.Step? && e.render < |s.renders| { OthersStay(s, e.render, t); }
    if t < |s.renders| {
      assert OnlyCompares(s, s.renders[t]);
      if e == Step(t) { LateOwnStep(s, t); }
    }
  }

  lemma OthersStay(s: System, u: nat, t: nat)
    requires u < |s.renders|
    ensures |StepAt(s, u).renders| == |s.renders|
    ensures t < |s.renders| && t != u ==> StepAt(s, u).renders[t] == s.renders[t]
  {
  }

  lemma LateOwnStep(s: System, t: nat)
    requires t < |s.renders| && s.visible.Some? && OnlyCompares(s, s.renders[t]) && StepAt(s, t).visible == s.visible
    ensures t < |StepAt(s, t).renders| && OnlyCompares(StepAt(s, t), StepAt(s, t).renders[t])
  {
  }

  lemma {:induction false} LateRun(s: System, events: seq<Event>, first: nat)
    requires Ok(s) && LateOnlyCompare(s, first)
    ensures LateOnlyCompare(Run(s, events), first)
    decreases |events|
  {
    hide Ok, Next, LateOnlyCompare;
    if events != [] {
      LateStep(s, events[0], first);
      NextKeeps(s, events[0]);
      LateRun(Next(s, events[0]), events[1..], first);
    }
  }

  /** Whatever was written before, a render begun on a visible generation returns only for equal content. */
  lemma LaterRenderReturnsSameContent(before: seq<Event>, events: seq<Event>, t: nat)
    requires Run(INIT, before).visible.Some?
    requires var s := Run(INIT, before + events);
             |Run(INIT, before).renders| <= t < |s.renders| && s.renders[t].pc.Returned?
    ensures var s := Run(INIT, before + events);
            s.visible == Run(INIT, before).visible && SameFiles(s.visible.value, s.renders[t])
  {
    hide Ok, Run;
    var mid := Run(INIT, before);
    InitOk();
    RunKeeps(INIT, before);
    RunOf(INIT, before, events);
    VisibleNeverChanges(mid, events);
    LateRun(mid, events, |mid.renders|);
    RunKeeps(mid, events);
    var s := Run(mid, events);
    OkMeans(s);
    assert OnlyCompares(s, s.renders[t]);
    MatchingIsSame(s, s.renders[t]);
  }

  // ---- Looking at a generation that exists ----

  /** Where a render stands after so many steps of its own: whether the first file, and then both, agree decides. */
  function Course(first: bool, both: bool, steps: nat): Pc {
    match steps
    case 0 => Checking
    case 1 => Comparing(Compose)
    case 2 => if first then Comparing(Env) else Cleaning(false)
    case 3 => if first then Cleaning(both) else Raised
    case _ => if first && both then Returned else Raised
  }

  /** The render is that far, or it lost the race for the rename and is about to look. */
  ghost predicate OnCourse(s: System, t: nat, steps: nat) {
    && s.visible.Some? && t < |s.renders|
    && var r := s.renders[t];
       || r.pc == Course(Matches(s, r, Compose), Matches(s, r, Env), steps)
       || (steps == 0 && r.pc == Retrying)
  }

  predicate Undisturbed(events: seq<Event>, t: nat) { Fault(t) !in events && Crash(t) !in events }

  function StepsOf(events: seq<Event>, t: nat): nat {
    if events == [] then 0 else (if events[0] == Step(t) then 1 else 0) + StepsOf(events[1..], t)
  }

  lemma CourseStep(s: System, e: Event, t: nat, steps: nat)
    requires Ok(s) && OnCourse(s, t, steps) && e != Fault(t) && e != Crash(t)
    ensures OnCourse(Next(s, e), t, if e == Step(t) then steps + 1 else steps)
    ensures var r, q := s.renders[t], Next(s, e).renders[t]; q.compose == r.compose && q.env == r.env
  {
    StepKeepsVisible(s, e);
    hide Ok;
  }

  lemma {:induction false} CourseRun(s: System, events: seq<Event>, t: nat, steps: nat)
    requires Ok(s) && OnCourse(s, t, steps) && Undisturbed(events, t)
    ensures OnCourse(Run(s, events), t, steps + StepsOf(events, t))
    ensures var r, q := s.renders[t], Run(s, events).renders[t]; q.compose == r.compose && q.env == r.env
    decreases |events|
  {
    hide Ok, Next, Course, Matches;
    if events != [] {
      var e := events[0];
      CourseStep(s, e, t, steps);
      NextKeeps(s, e);
      CourseRun(Next(s, e), events[1..], t, if e == Step(t) then steps + 1 else steps);
    }
  }

  /**
   A render that finds a generation, at its start or after losing the race for the rename, and
   is neither disturbed nor crashes: whatever others do meanwhile, after four steps it has
   returned if the two files are its own, and raised if they are not.
  */
  lemma EqualContentReturnsExactly(before: seq<Event>, events: seq<Event>, t: nat)
    requires var s := Run(INIT, before);
             && s.visible.Some? && t < |s.renders| && (s.renders[t].pc == Checking || s.renders[t].pc == Retrying)
    requires Undisturbed(events, t) && StepsOf(events, t) >= 4
    ensures var s, after := Run(INIT, before), Run(INIT, before + events);
            && t < |after.renders|
            && (SameFiles(s.visible.value, s.renders[t]) ==> after.renders[t].pc == Returned)
            && (!SameFiles(s.visible.value, s.renders[t]) ==> after.renders[t].pc == Raised)
  {
    hide Ok, Run;
    var s := Run(INIT, before);
    InitOk();
    RunKeeps(INIT, before);
    RunOf(INIT, before, events);
    VisibleNeverChanges(s, events);
    CourseRun(s, events, t, 0);
    OkMeans(s);
    SameExactly(s, s.renders[t]);
  }

  lemma SameExactly(s: System, r: Render)
    requires FromPublisher(s) && s.visible.Some?
    ensures SameFiles(s.visible.value, r) <==> Matches(s, r, Compose) && Matches(s, r, Env)
  {
    var d := s.visible.value;
    if SameFiles(d, r) {
      assert d[Final(Compose)] == r.compose && d[Final(Env)] == r.env;
    }
  }

  // ---- A short write ----

  lemma RunFrom(s: System, events: seq<Event>, k: nat)
    requires k < |events|
    ensures Run(s, events[k..]) == Run(Next(s, events[k]), events[k + 1..])
  {
    assert events[k..][1..] == events[k + 1..];
  }

  /** One render, alone, whose write of the compose file took `count` bytes. */
  function ShortRun(compose: Bytes, env: Bytes, count: nat): seq<Event> {
    [Begin(compose, env), Step(0), Step(0), Wrote(0, count), Step(0), Wrote(0, |env|), Step(0), Step(0), Step(0)]
  }

  /** The system when the second file is about to be written. */
  function HalfWritten(compose: Bytes, env: Bytes, count: nat): System {
    System(None, map[0 := map[Final(Compose) := Take(compose, count)]], [Render(compose, env, Creating(Env), count, 0)], None)
  }

  lemma FirstHalf(compose: Bytes, env: Bytes, count: nat)
    ensures var events := ShortRun(compose, env, count);
            Run(INIT, events) == Run(HalfWritten(compose, env, count), events[5..])
  {
    var events := ShortRun(compose, env, count);
    var s1 := Next(INIT, events[0]);
    var s2 := Next(s1, events[1]);
    var s3 := Next(s2, events[2]);
    var s4 := Next(s3, events[3]);
    var s5 := Next(s4, events[4]);
    assert s4.staging == map[0 := map[Temporary(Compose) := Take(compose, count)]];
    assert s4.staging[0][Temporary(Compose)] == Take(compose, count);
    assert s5.staging[0] == map[Final(Compose) := Take(compose, count)];
    assert s5.staging == HalfWritten(compose, env, count).staging;
    assert s5 == HalfWritten(compose, env, count);
    hide Next, Run;
    assert events[0..] == events;
    RunFrom(INIT, events, 0);
    RunFrom(s1, events, 1);
    RunFrom(s2, events, 2);
    RunFrom(s3, events, 3);
    RunFrom(s4, events, 4);
  }

  lemma SecondHalf(compose: Bytes, env: Bytes, count: nat)
    ensures var events := ShortRun(compose, env, count);
            Run(HalfWritten(compose, env, count), events[5..])
            == System(Some(map[Final(Compose) := Take(compose, count), Final(Env) := env]), map[],
                      [Render(compose, env, Returned, count, |env|)], Some(0))
  {
    var events := ShortRun(compose, env, count);
    var s5 := HalfWritten(compose, env, count);
    var s6 := Next(s5, events[5]);
    var s7 := Next(s6, events[6]);
    assert s7.staging[0] == map[Final(Compose) := Take(compose, count), Final(Env) := env];
    var s8 := Next(s7, events[7]);
    var s9 := Next(s8, events[8]);
    assert s9.staging == map[];
    hide Next;
    RunFrom(s5, events, 5);
    RunFrom(s6, events, 6);
    RunFrom(s7, events, 7);
    RunFrom(s8, events, 8);
    assert Run(s9, events[9..]) == s9;
  }

  /**
   A render alone returns normally whatever its write took; what it leaves visible is its content
   exactly when that write was whole.
  */
  lemma ShortWriteIsPublished(compose: Bytes, env: Bytes, count: nat)
    ensures var s := Run(INIT, ShortRun(compose, env, count));
            && |s.renders| == 1 && s.renders[0] == Render(compose, env, Returned, count, |env|) && s.visible.Some?
            && (SameFiles(s.visible.value, s.renders[0]) <==> count >= |compose|)
  {
    FirstHalf(compose, env, count);
    SecondHalf(compose, env, count);
    hide Run, ShortRun;
    var d := map[Final(Compose) := Take(compose, count), Final(Env) := env];
    assert d[Final(Compose)] == Take(compose, count);
    assert SameFiles(d, Render(compose, env, Returned, count, |env|)) ==> d[Final(Compose)] == compose;
  }
}
