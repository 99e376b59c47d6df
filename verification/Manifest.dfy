/** Backend ownership of a database directory: RegisterDriver and openConfiguredEngine of
    backend.go with the manifest functions of backend_manifest.go, one file-system call at a
    time. Any number of processes may open the same directory at once, and any of them may
    stop in the middle. */
module Manifest {
  import opened Bytes
  import opened Utf8

  datatype Info = Info(backend: bytes, implementation: bytes, format: bytes, version: bytes)

  datatype Record = Record(formatVersion: int, backend: bytes, driver: bytes, driverFormat: bytes, driverVersion: bytes)

  /** The manifest file: missing, created but not yet (or never) decodable, or decodable. */
  datatype File = Absent | Torn | Whole(record: Record)

  datatype Verdict = Accepted | Invalid | Mismatch

  const FORMAT_VERSION := 1

  predicate NameByte(b: byte) {
    'a' as int <= b as int <= 'z' as int || '0' as int <= b as int <= '9' as int
    || b as int == '-' as int || b as int == '_' as int || b as int == '.' as int
  }

  predicate Blank(s: bytes) { forall b <- s :: IsSpace(b) }

  /** What RegisterDriver demands: a canonical name and three strings that are not blank. */
  predicate Registered(info: Info) {
    && info.backend != [] && (forall b <- info.backend :: NameByte(b))
    && !Blank(info.implementation) && !Blank(info.format) && !Blank(info.version)
  }

  /** The manifest of a driver as a reader decodes it. */
  function Stored(info: Info): Record {
    Record(FORMAT_VERSION, Coerce(info.backend), Coerce(info.implementation), Coerce(info.format), Coerce(info.version))
  }

  /** validateBackendManifest. The driver version has to be there but is not compared. */
  function Validate(m: Record, info: Info): Verdict {
    if m.formatVersion != FORMAT_VERSION || m.backend == [] || m.driver == [] || m.driverFormat == []
        || m.driverVersion == []
    then Invalid
    else if m.backend != info.backend || m.driver != info.implementation || m.driverFormat != info.format
    then Mismatch
    else Accepted
  }

  datatype Phase =
    | Reading
    | Listing
    | Creating(legacy: bool)
    | Rereading(legacy: bool)
    | Writing(legacy: bool)
    | Opening(legacy: bool)
    | Opened
    | Failed

  datatype Opener = Opener(info: Info, allowLegacy: bool, phase: Phase)

  datatype State = State(file: File, others: bool, openers: map<nat, Opener>)

  /** How a write of the manifest ends: stored and synced, stored but reported as an error,
      or cut short. */
  datatype Outcome = Synced | Unsynced | Short

  datatype Step =
    | Start(t: nat, info: Info, allowLegacy: bool)
    | Read(t: nat)
    | List(t: nat)
    | Create(t: nat)
    | Reread(t: nat)
    | Write(t: nat, outcome: Outcome)
    | OpenDriver(t: nat, ok: bool, leavesFiles: bool)
    | Stop(t: nat)

  function PhaseOf(s: State, t: nat): Phase { if t in s.openers then s.openers[t].phase else Failed }

  predicate Enabled(s: State, step: Step) {
    match step
    case Start(t, info, _) => t !in s.openers && Registered(info)
    case Read(t) => PhaseOf(s, t).Reading?
    case List(t) => PhaseOf(s, t).Listing?
    case Create(t) => PhaseOf(s, t).Creating?
    case Reread(t) => PhaseOf(s, t).Rereading?
    case Write(t, _) => PhaseOf(s, t).Writing?
    case OpenDriver(t, _, _) => PhaseOf(s, t).Opening?
    case Stop(t) => t in s.openers && !PhaseOf(s, t).Opened?
  }

  /** Where a returned createBackendManifest leads: a new database opens its driver next, a
      legacy one already has. */
  function AfterManifest(legacy: bool): Phase { if legacy then Opened else Opening(false) }

  /** The file, the other directory entries and the opener's phase after its step. */
  function Turn(file: File, others: bool, o: Opener, step: Step): (File, bool, Phase) {
    match step
    case Read(_) =>
      (file, others,
       match file
       case Absent => Listing
       case Torn => Failed
       case Whole(m) => if Validate(m, o.info).Accepted? then Opening(false) else Failed)
    case List(_) =>
      (file, others, if file.Absent? && !others then Creating(false) else if o.allowLegacy then Opening(true)
          else Failed)
    case Create(_) =>
      if file.Absent? then (Torn, others, Writing(o.phase.Creating? && o.phase.legacy))
      else (file, others, Rereading(o.phase.Creating? && o.phase.legacy))
    case Reread(_) =>
      (file, others,
       if file.Whole? && Validate(file.record, o.info).Accepted?
       then AfterManifest(o.phase.Rereading? && o.phase.legacy) else Failed)
    case Write(_, outcome) =>
      (if outcome.Short? then file else Whole(Stored(o.info)), others,
       if outcome.Synced? then AfterManifest(o.phase.Writing? && o.phase.legacy) else Failed)
    case OpenDriver(_, ok, leavesFiles) =>
      (file, others || leavesFiles,
       if !ok then Failed else if o.phase.Opening? && o.phase.legacy then Creating(true) else Opened)
    case Stop(_) => (file, others, Failed)
    case Start(_, _, _) => (file, others, Reading)
  }

  function Actor(s: State, step: Step): Opener
    requires Enabled(s, step)
  {
    if step.Start? then Opener(step.info, step.allowLegacy, Reading) else s.openers[step.t]
  }

  function Apply(s: State, step: Step): State
    requires Enabled(s, step)
  {
    var o := Actor(s, step);
    var (file, others, phase) := Turn(s.file, s.others, o, step);
    State(file, others, s.openers[step.t := Opener(o.info, o.allowLegacy, phase)])
  }

  predicate Runs(s: State, steps: seq<Step>)
    decreases |steps|
  {
    steps == [] || (Enabled(s, steps[0]) && Runs(Apply(s, steps[0]), steps[1..]))
  }

  function Reached(s: State, steps: seq<Step>): State
    requires Runs(s, steps)
    decreases |steps|
  {
    if steps == [] then s else Reached(Apply(s, steps[0]), steps[1..])
  }

  /** The manifest names this driver, as far as JSON can tell. */
  predicate Names(m: Record, info: Info) {
    m.backend == Coerce(info.backend) && m.driver == Coerce(info.implementation)
        && m.driverFormat == Coerce(info.format)
  }

  /** A decoded manifest holds only strings a JSON reader can produce. */
  predicate Decoded(m: Record) {
    && Utf8.WellFormed(m.backend) && Utf8.WellFormed(m.driver) && Utf8.WellFormed(m.driverFormat)
  }

  predicate Relies(file: File, o: Opener) {
    match o.phase
    case Writing(_) => file.Torn?
    case Opening(false) => file.Whole? && Names(file.record, o.info)
    case Opened => file.Whole? && Names(file.record, o.info)
    case _ => true
  }

  predicate Inv(s: State) {
    && (s.file.Whole? ==> Decoded(s.file.record))
    && (forall t <- s.openers :: Relies(s.file, s.openers[t]) && Registered(s.openers[t].info))
    && (forall t, u | t in s.openers && u in s.openers ::
          s.openers[t].phase.Writing? && s.openers[u].phase.Writing? ==> t == u)
  }

  lemma {:induction false} CoerceIsUtf8(s: bytes)
    ensures Utf8.WellFormed(Coerce(s))
    decreases |s|
  {
    if s == [] {
    } else if RuneLength(s) > 0 {
      CoerceIsUtf8(s[RuneLength(s)..]);
      RuneThen(s[..RuneLength(s)], Coerce(s[RuneLength(s)..]));
    } else {
      CoerceIsUtf8(s[1..]);
      RuneThen(REPLACEMENT, Coerce(s[1..]));
    }
  }

  lemma RuneThen(rune: bytes, rest: bytes)
    requires |rune| > 0 && RuneLength(rune) == |rune| && Utf8.WellFormed(rest)
    ensures Utf8.WellFormed(rune + rest)
  {
    assert RuneLength(rune + rest) == |rune|;
    assert (rune + rest)[|rune|..] == rest;
  }

  /** A decoded manifest that validates names the driver. */
  lemma AcceptedNames(m: Record, info: Info)
    requires Decoded(m) && Validate(m, info).Accepted?
    ensures Names(m, info)
  {
    SurvivesJson(m.backend);
    SurvivesJson(m.driver);
    SurvivesJson(m.driverFormat);
  }

  lemma StoredIsDecoded(info: Info)
    ensures Decoded(Stored(info)) && Names(Stored(info), info)
  {
    CoerceIsUtf8(info.backend);
    CoerceIsUtf8(info.implementation);
    CoerceIsUtf8(info.format);
  }

  lemma TurnIsSound(s: State, step: Step)
    requires Inv(s) && Enabled(s, step)
    ensures var (file, _, phase) := Turn(s.file, s.others, Actor(s, step), step);
            && (file.Whole? ==> Decoded(file.record))
            && Relies(file, Actor(s, step).(phase := phase))
            && (s.file.Whole? ==> file == s.file)
            && (file != s.file ==> s.file.Absent? || (s.file.Torn? && PhaseOf(s, step.t).Writing?))
            && (phase.Writing? ==> s.file.Absent?)
  {
    hide Names, Decoded, Validate, Stored;
    var o := Actor(s, step);
    assert !step.Start? ==> Relies(s.file, s.openers[step.t]);
    if (step.Read? || step.Reread?) && s.file.Whole? && Validate(s.file.record, o.info).Accepted? {
      AcceptedNames(s.file.record, o.info);
    }
    if step.Write? { StoredIsDecoded(o.info); }
  }

  lemma StepKeepsInv(s: State, step: Step)
    requires Inv(s) && Enabled(s, step)
    ensures Inv(Apply(s, step))
    ensures s.file.Whole? ==> Apply(s, step).file == s.file
  {
    hide Names, Decoded, Turn, Registered;
    TurnIsSound(s, step);
    var s' := Apply(s, step);
    forall t <- s'.openers ensures Relies(s'.file, s'.openers[t]) && Registered(s'.openers[t].info) {
      if t != step.t { assert Relies(s.file, s.openers[t]); }
    }
  }

  /** Manifest agreement: in every interleaving of opens, stops and half-written files, a
      manifest that decodes never changes, and every open that succeeded is named by it. */
  lemma {:induction false} OpensAgree(s: State, steps: seq<Step>)
    requires Inv(s) && Runs(s, steps)
    ensures var s' := Reached(s, steps);
            && Inv(s')
            && (s.file.Whole? ==> s'.file == s.file)
            && forall t <- s'.openers :: s'.openers[t].phase.Opened? ==>
                                           s'.file.Whole? && Names(s'.file.record, s'.openers[t].info)
    decreases |steps|
  {
    hide Names, Apply, Decoded;
    if steps == [] {
      assert forall t <- s.openers :: Relies(s.file, s.openers[t]);
    } else {
      StepKeepsInv(s, steps[0]);
      OpensAgree(Apply(s, steps[0]), steps[1..]);
    }
  }

  predicate Utf8Info(info: Info) { Utf8.WellFormed(info.implementation) && Utf8.WellFormed(info.format) }

  lemma NameSurvives(info: Info)
    requires Registered(info)
    ensures Coerce(info.backend) == info.backend
  {
    assert forall i :: 0 <= i < |info.backend| ==> NameByte(info.backend[i]);
    AsciiSurvives(info.backend);
    CoerceKeepsWellFormed(info.backend);
  }

  /** Any two successful opens used the same backend, and implementations and formats that JSON
      cannot tell apart; when these are UTF-8, they are the same. */
  lemma SuccessfulOpensAgree(s: State, t: nat, u: nat)
    requires Inv(s) && t in s.openers && u in s.openers
    requires s.openers[t].phase.Opened? && s.openers[u].phase.Opened?
    ensures var (i, j) := (s.openers[t].info, s.openers[u].info);
            && i.backend == j.backend
            && Coerce(i.implementation) == Coerce(j.implementation) && Coerce(i.format) == Coerce(j.format)
            && (Utf8Info(i) && Utf8Info(j) ==> i.implementation == j.implementation && i.format == j.format)
  {
    hide Registered;
    var (i, j) := (s.openers[t].info, s.openers[u].info);
    assert Relies(s.file, s.openers[t]) && Relies(s.file, s.openers[u]);
    NameSurvives(i); NameSurvives(j);
    SurvivesJson(i.implementation); SurvivesJson(j.implementation);
    SurvivesJson(i.format); SurvivesJson(j.format);
  }

  /** A manifest written by one registered driver validates for another exactly when they share
      backend, implementation and format, the latter two being UTF-8. Versions are free. */
  lemma RevalidatesIff(writer: Info, reader: Info)
    requires Registered(writer) && Registered(reader)
    ensures Validate(Stored(writer), reader).Accepted? <==>
            writer.backend == reader.backend && Coerce(writer.implementation) == reader.implementation
                && Coerce(writer.format) == reader.format
    ensures Validate(Stored(writer), writer).Accepted? <==> Utf8Info(writer)
  {
    NameSurvives(writer);
    CoerceGrows(writer.implementation);
    CoerceGrows(writer.format);
    CoerceGrows(writer.version);
    SurvivesJson(writer.implementation);
    SurvivesJson(writer.format);
  }

  const RAW := Info([0x61], [0xFF], [0x31], [0x31])
  const REPLACED := Info([0x61], REPLACEMENT, [0x31], [0x31])

  /** A driver whose metadata is not UTF-8 does not recognise the manifest it wrote, while a
      driver with different metadata does. */
  lemma RawMetadataIsNotRecognised()
    ensures Registered(RAW) && Registered(REPLACED) && RAW.implementation != REPLACED.implementation
    ensures Validate(Stored(RAW), RAW).Mismatch? && Validate(Stored(RAW), REPLACED).Accepted?
  {
    assert !IsSpace(RAW.implementation[0]) && !IsSpace(REPLACED.implementation[0]) && !IsSpace(RAW.format[0])
        && !IsSpace(RAW.version[0]);
    assert Registered(RAW) && Registered(REPLACED);
    assert Coerce([0xFF]) == REPLACEMENT + Coerce([]) == REPLACEMENT;
    assert !Utf8.WellFormed([0xFF]);
    RevalidatesIff(RAW, REPLACED);
  }

  lemma {:induction false} RunFurther(s: State, steps: seq<Step>, step: Step)
    requires Runs(s, steps) && Enabled(Reached(s, steps), step)
    ensures Runs(s, steps + [step]) && Reached(s, steps + [step]) == Apply(Reached(s, steps), step)
    decreases |steps|
  {
    hide Enabled, Apply;
    if steps == [] {
      assert (steps + [step])[1..] == [];
    } else {
      RunFurther(Apply(s, steps[0]), steps[1..], step);
      assert (steps + [step])[1..] == steps[1..] + [step];
    }
  }

  /** A fresh directory opened by a registered driver: manifest written, database open. */
  lemma FirstOpens(info: Info) returns (steps: seq<Step>)
    requires Registered(info)
    ensures var s := State(Absent, false, map[]);
            Runs(s, steps) && Reached(s, steps) ==
                State(Whole(Stored(info)), true, map[0 := Opener(info, false, Opened)])
  {
    hide Registered, Stored, Validate;
    var s := State(Absent, false, map[]);
    var s1 := State(Absent, false, map[0 := Opener(info, false, Reading)]);
    var s2 := State(Absent, false, map[0 := Opener(info, false, Listing)]);
    var s3 := State(Absent, false, map[0 := Opener(info, false, Creating(false))]);
    var s4 := State(Torn, false, map[0 := Opener(info, false, Writing(false))]);
    var s5 := State(Whole(Stored(info)), false, map[0 := Opener(info, false, Opening(false))]);
    RunFurther(s, [], Start(0, info, false));
    assert Reached(s, [] + [Start(0, info, false)]) == s1;
    var to1 := [] + [Start(0, info, false)];
    RunFurther(s, to1, Read(0));
    assert Apply(s1, Read(0)) == s2;
    var to2 := to1 + [Read(0)];
    RunFurther(s, to2, List(0));
    assert Apply(s2, List(0)) == s3;
    var to3 := to2 + [List(0)];
    RunFurther(s, to3, Create(0));
    assert Apply(s3, Create(0)) == s4;
    var to4 := to3 + [Create(0)];
    RunFurther(s, to4, Write(0, Synced));
    assert Apply(s4, Write(0, Synced)) == s5;
    var to5 := to4 + [Write(0, Synced)];
    RunFurther(s, to5, OpenDriver(0, true, true));
    steps := to5 + [OpenDriver(0, true, true)];
  }

  /** So two drivers with different implementation strings can both open one directory. */
  lemma DifferentDriversOpen() returns (steps: seq<Step>)
    ensures var s := State(Absent, false, map[]);
            && Inv(s) && Runs(s, steps)
            && var openers := Reached(s, steps).openers;
               && 0 in openers && 1 in openers && openers[0].phase.Opened? && openers[1].phase.Opened?
               && openers[0].info.implementation != openers[1].info.implementation
  {
    RawMetadataIsNotRecognised();
    hide Registered, Stored, Validate;
    var s := State(Absent, false, map[]);
    var to0 := FirstOpens(RAW);
    RunFurther(s, to0, Start(1, REPLACED, false));
    var to1 := to0 + [Start(1, REPLACED, false)];
    RunFurther(s, to1, Read(1));
    var to2 := to1 + [Read(1)];
    RunFurther(s, to2, OpenDriver(1, true, false));
    steps := to2 + [OpenDriver(1, true, false)];
  }

  /** A manifest that nobody is writing and that does not decode is final: no later open succeeds. */
  lemma {:induction false} TornIsFinal(s: State, steps: seq<Step>)
    requires Inv(s) && Runs(s, steps) && s.file.Torn? && Idle(s)
    ensures var s' := Reached(s, steps); s'.file.Torn? && forall t <- s'.openers :: !s'.openers[t].phase.Opened?
    decreases |steps|
  {
    hide Apply, Names, Decoded;
    assert forall t <- s.openers :: Relies(s.file, s.openers[t]);
    if steps != [] {
      StepKeepsInv(s, steps[0]);
      TornStep(s, steps[0]);
      TornIsFinal(Apply(s, steps[0]), steps[1..]);
    }
  }

  /** A process that stops while it writes leaves such a manifest. */
  lemma TornIsPossible(info: Info) returns (steps: seq<Step>)
    requires Registered(info)
    ensures var s := State(Absent, false, map[]);
            Inv(s) && Runs(s, steps) && Reached(s, steps).file.Torn? && Idle(Reached(s, steps))
  {
    hide Registered, Stored, Validate;
    var s := State(Absent, false, map[]);
    RunFurther(s, [], Start(0, info, false));
    var to1 := [] + [Start(0, info, false)];
    assert Reached(s, to1) == State(Absent, false, map[0 := Opener(info, false, Reading)]);
    RunFurther(s, to1, Read(0));
    var to2 := to1 + [Read(0)];
    assert Reached(s, to2) == State(Absent, false, map[0 := Opener(info, false, Listing)]);
    RunFurther(s, to2, List(0));
    var to3 := to2 + [List(0)];
    assert Reached(s, to3) == State(Absent, false, map[0 := Opener(info, false, Creating(false))]);
    RunFurther(s, to3, Create(0));
    var to4 := to3 + [Create(0)];
    assert Reached(s, to4) == State(Torn, false, map[0 := Opener(info, false, Writing(false))]);
    RunFurther(s, to4, Stop(0));
    steps := to4 + [Stop(0)];
  }

  predicate Idle(s: State) { forall t <- s.openers :: !s.openers[t].phase.Writing? }

  lemma TornStep(s: State, step: Step)
    requires Inv(s) && Enabled(s, step) && s.file.Torn? && Idle(s)
    ensures Apply(s, step).file.Torn? && Idle(Apply(s, step))
  {
    hide Names, Decoded, Turn;
    TurnIsSound(s, step);
  }

  lemma EmptyStart(file: File, others: bool)
    requires file.Whole? ==> Decoded(file.record)
    ensures Inv(State(file, others, map[]))
  {
  }

  // ---------------------------------------------------------------- directories without a manifest

  /** A directory with entries and no manifest, and openers without the legacy permission that
      have not come past it. */
  predicate Guarded(s: State) {
    && s.file.Absent? && s.others
    && forall t <- s.openers ::
         !s.openers[t].allowLegacy && (s.openers[t].phase.Reading? || s.openers[t].phase.Listing?
                                       || s.openers[t].phase.Failed?)
  }

  /** Nobody who starts has the legacy permission. */
  predicate NoneAllowed(steps: seq<Step>) { forall step <- steps :: step.Start? ==> !step.allowLegacy }

  lemma GuardedStep(s: State, step: Step)
    requires Guarded(s) && Enabled(s, step) && (step.Start? ==> !step.allowLegacy)
    ensures Guarded(Apply(s, step))
  {
    hide Registered, Validate, Stored;
  }

  /** A directory that was in use before it had a manifest is left alone: however many openers
      without the permission try, no manifest is ever created and none of them opens it. */
  lemma {:induction false} ForeignDirectoryIsRefused(s: State, steps: seq<Step>)
    requires Guarded(s) && Runs(s, steps) && NoneAllowed(steps)
    ensures var s' := Reached(s, steps);
            && s'.file.Absent? && s'.others
            && forall t <- s'.openers :: !s'.openers[t].phase.Opened? && !s'.openers[t].phase.Opening?
    decreases |steps|
  {
    hide Apply, Enabled;
    if steps != [] {
      assert steps[0] in steps && forall step <- steps[1..] :: step in steps;
      GuardedStep(s, steps[0]);
      ForeignDirectoryIsRefused(Apply(s, steps[0]), steps[1..]);
    }
  }

  /** What listing the directory decides, for an opener that found no manifest before. */
  lemma ListingDecides(s: State, t: nat)
    requires Enabled(s, List(t))
    ensures var s' := Apply(s, List(t));
            && s'.file == s.file && s'.others == s.others
            && s'.openers[t].phase ==
               if s.file.Absent? && !s.others then Creating(false)
               else if s.openers[t].allowLegacy then Opening(true) else Failed
  {
  }

  /** No manifest yet, and every opener on its way is before its driver. */
  predicate Unclaimed(s: State) {
    && s.file.Absent? && s.others
    && forall t <- s.openers ::
         var phase := s.openers[t].phase;
         phase.Reading? || phase.Listing? || phase == Opening(true) || phase.Failed?
  }

  predicate DriverOpened(steps: seq<Step>, i: nat) { i < |steps| && steps[i].OpenDriver? && steps[i].ok }

  lemma UnclaimedStep(s: State, step: Step)
    requires Unclaimed(s) && Enabled(s, step) && !(step.OpenDriver? && step.ok)
    ensures Unclaimed(Apply(s, step))
  {
    hide Registered, Validate, Stored;
  }

  /** In such a directory the driver is opened before any manifest exists. */
  lemma {:induction false} DriverBeforeManifest(s: State, steps: seq<Step>)
    requires Unclaimed(s) && Runs(s, steps)
    ensures !Reached(s, steps).file.Absent? ==> exists i: nat :: DriverOpened(steps, i)
    decreases |steps|
  {
    hide Apply, Enabled;
    if steps != [] {
      if steps[0].OpenDriver? && steps[0].ok {
        assert DriverOpened(steps, 0);
      } else {
        UnclaimedStep(s, steps[0]);
        DriverBeforeManifest(Apply(s, steps[0]), steps[1..]);
        if i: nat :| DriverOpened(steps[1..], i) { assert DriverOpened(steps, i + 1); }
      }
    }
  }

  /** What an opener does next when nothing fails it from outside. */
  function NextStep(phase: Phase): Step {
    match phase
    case Reading => Read(0)
    case Listing => List(0)
    case Creating(_) => Create(0)
    case Rereading(_) => Reread(0)
    case Writing(_) => Write(0, Synced)
    case Opening(_) => OpenDriver(0, true, true)
    case _ => Stop(0)
  }

  function StepsLeft(phase: Phase): nat {
    match phase
    case Reading => 6
    case Listing => 5
    case Opening(legacy) => if legacy then 4 else 1
    case Creating(_) => 3
    case Rereading(_) => 2
    case Writing(_) => 2
    case _ => 0
  }

  /** One opener by itself, to the end. */
  function Alone(file: File, others: bool, o: Opener): (File, Phase)
    decreases StepsLeft(o.phase)
  {
    if StepsLeft(o.phase) == 0 then (file, o.phase)
    else
      var (file', others', phase) := Turn(file, others, o, NextStep(o.phase));
      Alone(file', others', o.(phase := phase))
  }

  lemma AloneFrom(file: File, others: bool, o: Opener)
    ensures o.phase.Opening? && !o.phase.legacy ==> Alone(file, others, o) == (file, Opened)
    ensures o.phase.Creating? && file.Absent? ==> Alone(file, others, o) == (Whole(Stored(o.info)), Opened)
    ensures o.phase.Opening? && o.phase.legacy && file.Absent? ==>
              Alone(file, others, o) == (Whole(Stored(o.info)), Opened)
  {
    hide Stored, Validate;
    var done := Whole(Stored(o.info));
    assert Alone(done, others, o.(phase := Opening(false))) == (done, Opened);
    assert Alone(done, others, o.(phase := Opened)) == (done, Opened);
    forall legacy: bool, others: bool
      ensures Alone(Torn, others, o.(phase := Writing(legacy))) == (done, Opened)
      ensures Alone(Absent, others, o.(phase := Creating(legacy))) == (done, Opened)
    {
      assert Alone(done, others, o.(phase := AfterManifest(legacy))) == (done, Opened);
      assert Alone(Torn, others, o.(phase := Writing(legacy))) == (done, Opened);
    }
  }

  /** Opening by itself succeeds exactly on a manifest that validates, which stays, on an empty
      directory, and on one in use before if the opener may take it over; both of the latter get
      the manifest of its driver. A half-written manifest stays and fails it. */
  lemma OpensAlone(file: File, others: bool, info: Info, allowLegacy: bool)
    ensures Alone(file, others, Opener(info, allowLegacy, Reading)) ==
            match file
            case Whole(m) => (file, if Validate(m, info).Accepted? then Opened else Failed)
            case Torn => (Torn, Failed)
            case Absent => if !others || allowLegacy then (Whole(Stored(info)), Opened) else (Absent, Failed)
  {
    hide Stored, Validate;
    var o := Opener(info, allowLegacy, Listing);
    AloneFrom(file, others, o.(phase := Opening(false)));
    AloneFrom(file, others, o.(phase := Opening(true)));
    AloneFrom(file, others, o.(phase := Creating(false)));
    assert Alone(file, others, o.(phase := Failed)) == (file, Failed);
    if file.Absent? {
      assert Alone(file, others, o) ==
             if !others || allowLegacy then (Whole(Stored(info)), Opened) else (Absent, Failed);
    }
  }

  /** The manifest of format 1, and what a registered driver accepts of it. */
  lemma ValidateLaw(m: Record, info: Info)
    requires Registered(info)
    ensures Stored(info).formatVersion == 1
    ensures Validate(m, info).Accepted? <==>
            && m.formatVersion == 1 && m.driverVersion != []
            && m.backend == info.backend && m.driver == info.implementation && m.driverFormat == info.format
  {
    assert Blank([]);
  }

  /** An opener that has neither opened the database nor failed has a step to take. */
  lemma NobodyIsStuck(s: State, t: nat)
    requires t in s.openers && !s.openers[t].phase.Opened? && !s.openers[t].phase.Failed?
    ensures Enabled(s, NextStep(s.openers[t].phase).(t := t))
  {
  }

  /** And each step but a stop brings it closer to one or the other. */
  lemma OpenersAdvance(s: State, step: Step)
    requires Enabled(s, step) && !step.Start? && !step.Stop?
    ensures StepsLeft(Apply(s, step).openers[step.t].phase) < StepsLeft(s.openers[step.t].phase)
  {
    hide Stored, Validate;
  }
}
